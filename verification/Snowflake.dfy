/** Snowflake identifiers under a node lease (internal/platform/id/snowflake.go). Instants are nanoseconds
    since 1970; the clock, the lease service and the sleeps are arbitrary answers supplied per call. */
module Snowflake {
  import opened Text

  const NANOSECONDS_PER_MILLISECOND := 1_000_000
  const EPOCH := 1_767_225_600_000 // 2026-01-01 in Unix milliseconds
  const MAX_NODE := 1023
  const MAX_SEQUENCE := 4095
  const MAX_DELTA := 0x200_0000_0000 // 2^41

  datatype Lease = Lease(node: int, holder: string, expiresAt: int)

  datatype Error = LeaseLost | RenewalFailed | ClockRegression | SleepInterrupted | ClockStuck | OutsideEpoch | NotPositive | BadConfig

  /** `time.UnixMilli`. */
  function Millis(instant: int): (ms: int) { instant / NANOSECONDS_PER_MILLISECOND }

  lemma MillisIs(instant: int)
    ensures Millis(instant) * 1_000_000 <= instant < (Millis(instant) + 1) * 1_000_000
  {
  }

  // ----- packing -----

  function Pack(delta: int, node: int, sequence: int): (id: int) { delta * 4_194_304 + node * 4_096 + sequence }

  predicate Packable(delta: int, node: int, sequence: int) {
    0 <= delta < MAX_DELTA && 0 <= node <= MAX_NODE && 0 <= sequence <= MAX_SEQUENCE
  }

  /** The shifts and ors of the source are the sum above: the three fields do not overlap in 64 bits. */
  lemma PackIsBitwise(delta: bv64, node: bv64, sequence: bv64)
    requires delta < 0x200_0000_0000 && node < 1024 && sequence < 4096
    ensures (delta << 22) | (node << 12) | sequence == delta * 4_194_304 + node * 4_096 + sequence
    ensures ((delta << 22) | (node << 12) | sequence) & 0x8000_0000_0000_0000 == 0
  {
  }

  /** The fields can be read back, so packing is injective, and the order of IDs is the order of the fields. */
  lemma PackReadsBack(delta: int, node: int, sequence: int)
    requires Packable(delta, node, sequence)
    ensures var id := Pack(delta, node, sequence);
            && 0 <= id < 0x8000_0000_0000_0000
            && id / 4_194_304 == delta && id / 4_096 % 1_024 == node && id % 4_096 == sequence
  {
    var high := delta * 1_024 + node;
    SplitMillisecond(delta, node * 4_096 + sequence);
    SplitSequence(high, sequence);
    SplitNode(delta, node);
    assert Pack(delta, node, sequence) == high * 4_096 + sequence;
  }

  lemma SplitMillisecond(delta: int, low: int)
    requires 0 <= low < 4_194_304
    ensures (delta * 4_194_304 + low) / 4_194_304 == delta
  {
  }

  lemma SplitSequence(high: int, sequence: int)
    requires 0 <= sequence < 4_096
    ensures (high * 4_096 + sequence) / 4_096 == high && (high * 4_096 + sequence) % 4_096 == sequence
  {
  }

  lemma SplitNode(delta: int, node: int)
    requires 0 <= node < 1_024
    ensures (delta * 1_024 + node) % 1_024 == node
  {
  }

  // ----- one call of Next -----

  datatype Generator = Generator(lease: Lease, renewAt: int, renewalInterval: int, tolerance: int, lastMillisecond: int, sequence: int)

  /** What the surroundings answer during one call: three clock readings, the renewal and two sleeps. */
  datatype World = World(now: int, renewal: Option<Lease>, firstSleep: bool, afterRegression: int, secondSleep: bool, afterExhaustion: int)

  /** An identifier with the instant and the lease it was issued under. */
  datatype Issue = Issue(id: int, millisecond: int, sequence: int, node: int, now: int, expiresAt: int)

  function Renewed(g: Generator, w: World): (r: Result<Generator, Error>) {
    if !(w.now < g.lease.expiresAt) then Err(LeaseLost)
    else if w.now < g.renewAt then Ok(g)
    else
      match w.renewal
      case None => Err(RenewalFailed)
      case Some(lease) =>
        if lease.node != g.lease.node || lease.holder != g.lease.holder || !(lease.expiresAt > w.now) then Err(LeaseLost)
        else Ok(g.(lease := lease, renewAt := w.now + g.renewalInterval))
  }

  /** The instant to issue at, after waiting out a tolerable regression. */
  function Settled(g: Generator, w: World): (r: Result<int, Error>) {
    if Millis(w.now) >= g.lastMillisecond then Ok(w.now)
    else if (g.lastMillisecond - Millis(w.now)) * NANOSECONDS_PER_MILLISECOND > g.tolerance then Err(ClockRegression)
    else if !w.firstSleep then Err(SleepInterrupted)
    else if !(w.afterRegression < g.lease.expiresAt) then Err(LeaseLost)
    else if Millis(w.afterRegression) < g.lastMillisecond then Err(ClockRegression)
    else Ok(w.afterRegression)
  }

  /** The instant, and the generator advanced to the next (millisecond, sequence) pair. */
  function Advanced(g: Generator, w: World, now: int): (r: Result<(int, Generator), Error>) {
    if Millis(now) != g.lastMillisecond then Ok((now, g.(lastMillisecond := Millis(now), sequence := 0)))
    else if g.sequence != MAX_SEQUENCE then Ok((now, g.(sequence := g.sequence + 1)))
    else if !((g.lastMillisecond + 1) * NANOSECONDS_PER_MILLISECOND < g.lease.expiresAt) then Err(LeaseLost)
    else if !w.secondSleep then Err(SleepInterrupted)
    else if !(w.afterExhaustion < g.lease.expiresAt) then Err(LeaseLost)
    else if Millis(w.afterExhaustion) <= g.lastMillisecond then Err(ClockStuck)
    else Ok((w.afterExhaustion, g.(lastMillisecond := Millis(w.afterExhaustion), sequence := 0)))
  }

  /** The generator after the call, also when the call fails late, and the answer. */
  function Next(g: Generator, w: World): (out: (Generator, Result<Issue, Error>)) {
    match Renewed(g, w)
    case Err(e) => (g, Err(e))
    case Ok(g1) =>
      match Settled(g1, w)
      case Err(e) => (g1, Err(e))
      case Ok(now) =>
        match Advanced(g1, w, now)
        case Err(e) => (g1, Err(e))
        case Ok((at, g2)) =>
          var delta := g2.lastMillisecond - EPOCH;
          if delta < 0 || delta >= MAX_DELTA then (g2, Err(OutsideEpoch))
          else
            var id := Pack(delta, g2.lease.node, g2.sequence);
            if id <= 0 then (g2, Err(NotPositive))
            else (g2, Ok(Issue(id, g2.lastMillisecond, g2.sequence, g2.lease.node, at, g2.lease.expiresAt)))
  }

  /** `New` after the lease service has answered. */
  function New(holder: string, leaseTTL: int, interval: int, tolerance: int, now: int, acquired: Option<Lease>): (r: Result<Generator, Error>) {
    var renewalInterval := if interval == 0 then leaseTTL / 3 else interval;
    if holder == "" || leaseTTL <= 0 || renewalInterval <= 0 || renewalInterval >= leaseTTL then Err(BadConfig)
    else
      match acquired
      case None => Err(RenewalFailed)
      case Some(lease) =>
        if lease.node < 0 || lease.node > MAX_NODE || lease.holder != holder || !(lease.expiresAt > now) then Err(LeaseLost)
        else Ok(Generator(lease, now + renewalInterval, renewalInterval, tolerance, 0, 0))
  }

  /** A new generator has a valid node and a live lease, renews before the lease can run out on it, and has issued nothing. */
  lemma NewIsValid(holder: string, leaseTTL: int, interval: int, tolerance: int, now: int, acquired: Option<Lease>)
    ensures New(holder, leaseTTL, interval, tolerance, now, acquired).Ok? <==>
            && holder != "" && leaseTTL > 0 && acquired.Some?
            && (interval == 0 ==> leaseTTL >= 3) && 0 <= interval < leaseTTL
            && 0 <= acquired.value.node <= 1023 && acquired.value.holder == holder && now < acquired.value.expiresAt
    ensures var r := New(holder, leaseTTL, interval, tolerance, now, acquired);
            r.Ok? ==>
              && r.value.lease == acquired.value && r.value.tolerance == tolerance
              && r.value.renewalInterval == (if interval == 0 then leaseTTL / 3 else interval)
              && r.value.renewAt == now + r.value.renewalInterval
              && Valid(r.value) && now < r.value.lease.expiresAt && r.value.lease.holder == holder
              && now < r.value.renewAt < now + leaseTTL && r.value.lastMillisecond == 0 && r.value.sequence == 0
  {
  }

  /** The mutable generator: every call of Next leaves its fields as the function above says. */
  class Issuer {
    var lease: Lease
    var renewAt: int
    var lastMillisecond: int
    var sequence: int
    const renewalInterval: int
    const tolerance: int

    constructor (g: Generator)
      ensures State() == g
    {
      lease, renewAt, lastMillisecond, sequence := g.lease, g.renewAt, g.lastMillisecond, g.sequence;
      renewalInterval, tolerance := g.renewalInterval, g.tolerance;
    }

    function State(): (g: Generator)
      reads this
    {
      Generator(lease, renewAt, renewalInterval, tolerance, lastMillisecond, sequence)
    }

    method Issue(w: World) returns (r: Result<int, Error>)
      modifies this
      ensures var out := Next(old(State()), w);
              && State() == out.0
              && r == match out.1 case Ok(issue) => Ok(issue.id) case Err(e) => Err(e)
    {
      hide Millis, Pack;
      var now := w.now;
      if !(now < lease.expiresAt) { return Err(LeaseLost); }
      if !(now < renewAt) {
        if w.renewal.None? { return Err(RenewalFailed); }
        var renewed := w.renewal.value;
        if renewed.node != lease.node || renewed.holder != lease.holder || !(renewed.expiresAt > now) { return Err(LeaseLost); }
        lease := renewed;
        renewAt := now + renewalInterval;
      }
      var millisecond := Millis(now);
      if millisecond < lastMillisecond {
        if (lastMillisecond - millisecond) * NANOSECONDS_PER_MILLISECOND > tolerance { return Err(ClockRegression); }
        if !w.firstSleep { return Err(SleepInterrupted); }
        now := w.afterRegression;
        if !(now < lease.expiresAt) { return Err(LeaseLost); }
        millisecond := Millis(now);
        if millisecond < lastMillisecond { return Err(ClockRegression); }
      }
      if millisecond == lastMillisecond {
        if sequence == MAX_SEQUENCE {
          if !((lastMillisecond + 1) * NANOSECONDS_PER_MILLISECOND < lease.expiresAt) { return Err(LeaseLost); }
          if !w.secondSleep { return Err(SleepInterrupted); }
          now := w.afterExhaustion;
          if !(now < lease.expiresAt) { return Err(LeaseLost); }
          millisecond := Millis(now);
          if millisecond <= lastMillisecond { return Err(ClockStuck); }
          lastMillisecond := millisecond;
          sequence := 0;
        } else {
          sequence := sequence + 1;
        }
      } else {
        lastMillisecond := millisecond;
        sequence := 0;
      }
      var delta := millisecond - EPOCH;
      if delta < 0 || delta >= MAX_DELTA { return Err(OutsideEpoch); }
      var value := Pack(delta, lease.node, sequence);
      if value <= 0 { return Err(NotPositive); }
      return Ok(value);
    }
  }

  // ----- whole runs of one generator -----

  predicate Valid(g: Generator) { 0 <= g.lease.node <= MAX_NODE && 0 <= g.sequence <= MAX_SEQUENCE }

  function Run(g: Generator, worlds: seq<World>): (out: (Generator, seq<Issue>)) {
    if worlds == [] then (g, [])
    else
      var before := Run(g, worlds[..|worlds| - 1]);
      var out := Next(before.0, worlds[|worlds| - 1]);
      (out.0, before.1 + if out.1.Ok? then [out.1.value] else [])
  }

  predicate Later(ms: int, sequence: int, ms': int, sequence': int) { ms < ms' || (ms == ms' && sequence < sequence') }

  /** A successful call issues at a strictly later (millisecond, sequence) pair, strictly before the expiry of
      the lease in force; a failed one never moves back. */
  lemma NextAdvances(g: Generator, w: World)
    requires Valid(g)
    ensures var out := Next(g, w);
            && Valid(out.0) && out.0.lease.node == g.lease.node
            && ((out.0.lastMillisecond == g.lastMillisecond && out.0.sequence == g.sequence)
                || Later(g.lastMillisecond, g.sequence, out.0.lastMillisecond, out.0.sequence))
            && (out.1.Ok? ==>
                  && WellIssued(out.1.value, g.lease.node)
                  && Later(g.lastMillisecond, g.sequence, out.1.value.millisecond, out.1.value.sequence)
                  && out.1.value.millisecond == out.0.lastMillisecond && out.1.value.sequence == out.0.sequence
                  && out.1.value.expiresAt == out.0.lease.expiresAt)
  {
  }

  /** The generator is not stricter than it must be: with a live lease, no renewal due, a clock that has not gone
      back and a free pair, inside the epoch, a call succeeds. */
  lemma HealthyCallSucceeds(g: Generator, w: World)
    requires Valid(g) && w.now < g.lease.expiresAt && w.now < g.renewAt
    requires Millis(w.now) >= g.lastMillisecond && (Millis(w.now) == g.lastMillisecond ==> g.sequence < MAX_SEQUENCE)
    requires EPOCH < Millis(w.now) < EPOCH + MAX_DELTA
    ensures Next(g, w).1.Ok? && Next(g, w).1.value.now == w.now
    ensures Next(g, w).0.lastMillisecond == Millis(w.now)
  {
    hide Millis;
  }

  /** A due call with a good renewal succeeds under the renewed lease, and is due again one interval later. */
  lemma DueCallRenews(g: Generator, w: World, renewed: Lease)
    requires Valid(g) && g.renewAt <= w.now < g.lease.expiresAt && w.renewal == Some(renewed)
    requires renewed.node == g.lease.node && renewed.holder == g.lease.holder && w.now < renewed.expiresAt
    requires Millis(w.now) >= g.lastMillisecond && (Millis(w.now) == g.lastMillisecond ==> g.sequence < 4095)
    requires 1_767_225_600_000 < Millis(w.now) < 1_767_225_600_000 + 0x200_0000_0000
    ensures var out := Next(g, w);
            && out.1.Ok? && out.1.value.now == w.now && out.1.value.expiresAt == renewed.expiresAt
            && out.0.lease == renewed && out.0.renewAt == w.now + g.renewalInterval
            && out.0.renewalInterval == g.renewalInterval && out.0.tolerance == g.tolerance
  {
    hide Millis;
  }

  /** A call fails, and leaves the generator as it is, once the lease has expired or when a due renewal is not good. */
  lemma LostLeaseRefuses(g: Generator, w: World)
    requires || g.lease.expiresAt <= w.now
             || (g.renewAt <= w.now
                 && (|| w.renewal.None? || w.renewal.value.node != g.lease.node || w.renewal.value.holder != g.lease.holder
                     || w.renewal.value.expiresAt <= w.now))
    ensures Next(g, w).1.Err? && Next(g, w).0 == g
  {
  }

  /** A clock that went back within the tolerance is waited for, and the call succeeds when it has recovered; one that
      went back farther makes the call fail at once. */
  lemma RegressionWaited(g: Generator, w: World)
    requires Valid(g) && w.now < g.lease.expiresAt && w.now < g.renewAt && Millis(w.now) < g.lastMillisecond
    ensures (g.lastMillisecond - Millis(w.now)) * 1_000_000 > g.tolerance ==> Next(g, w) == (g, Err(ClockRegression))
    ensures && (g.lastMillisecond - Millis(w.now)) * 1_000_000 <= g.tolerance && w.firstSleep
            && w.afterRegression < g.lease.expiresAt && Millis(w.afterRegression) > g.lastMillisecond
            && 1_767_225_600_000 < Millis(w.afterRegression) < 1_767_225_600_000 + 0x200_0000_0000 ==>
              Next(g, w).1.Ok? && Next(g, w).1.value.now == w.afterRegression && Next(g, w).1.value.sequence == 0
  {
    hide Millis;
  }

  /** When the 4096 numbers of a millisecond are used up, the next millisecond is waited for. */
  lemma ExhaustionWaited(g: Generator, w: World)
    requires Valid(g) && w.now < g.lease.expiresAt && w.now < g.renewAt && Millis(w.now) == g.lastMillisecond && g.sequence == 4095
    requires (g.lastMillisecond + 1) * 1_000_000 < g.lease.expiresAt && w.secondSleep && w.afterExhaustion < g.lease.expiresAt
    requires g.lastMillisecond < Millis(w.afterExhaustion)
    requires 1_767_225_600_000 < Millis(w.afterExhaustion) < 1_767_225_600_000 + 0x200_0000_0000
    ensures Next(g, w).1.Ok? && Next(g, w).1.value.now == w.afterExhaustion && Next(g, w).1.value.sequence == 0
  {
    hide Millis;
  }

  /** The epoch is the beginning of 2026, and time has 41 bits. */
  lemma EpochIs()
    ensures EPOCH == ((2026 - 1970) * 365 + 14) * 24 * 60 * 60 * 1000
    ensures MAX_DELTA == 1024 * 1024 * 1024 * 1024 * 2 && MAX_NODE == 1024 - 1 && MAX_SEQUENCE == 4096 - 1
  {
  }

  /** An issue is positive, fits 63 bits, packs its own fields and precedes its lease expiry. */
  predicate WellIssued(i: Issue, node: int) {
    && i.node == node && Packable(i.millisecond - EPOCH, node, i.sequence)
    && i.id == Pack(i.millisecond - EPOCH, node, i.sequence) && 0 < i.id < 0x8000_0000_0000_0000
    && i.millisecond == Millis(i.now) && i.now < i.expiresAt
  }

  ghost predicate WellLogged(g: Generator, log: seq<Issue>) {
    && (forall k :: 0 <= k < |log| ==> WellIssued(log[k], g.lease.node))
    && (forall j, k :: 0 <= j < k < |log| ==> Later(log[j].millisecond, log[j].sequence, log[k].millisecond, log[k].sequence))
    && (forall k :: 0 <= k < |log| ==>
          (log[k].millisecond == g.lastMillisecond && log[k].sequence == g.sequence)
          || Later(log[k].millisecond, log[k].sequence, g.lastMillisecond, g.sequence))
  }

  lemma {:induction false} RunWellLogged(g: Generator, worlds: seq<World>)
    requires Valid(g)
    ensures Valid(Run(g, worlds).0) && Run(g, worlds).0.lease.node == g.lease.node
    ensures WellLogged(Run(g, worlds).0, Run(g, worlds).1)
  {
    if worlds != [] {
      hide Next;
      RunWellLogged(g, worlds[..|worlds| - 1]);
      NextAdvances(Run(g, worlds[..|worlds| - 1]).0, worlds[|worlds| - 1]);
    }
  }

  lemma LaterIsLarger(a: Issue, b: Issue, node: int)
    requires WellIssued(a, node) && WellIssued(b, node) && Later(a.millisecond, a.sequence, b.millisecond, b.sequence)
    ensures a.id < b.id
  {
  }

  /** In every run, through failed renewals, clock regressions and exhausted sequences, IDs strictly increase,
      are positive 63-bit numbers and are issued strictly before the expiry of the lease then in force. */
  lemma IdsStrictlyIncrease(g: Generator, worlds: seq<World>, j: nat, k: nat)
    requires Valid(g) && j < k < |Run(g, worlds).1|
    ensures var log := Run(g, worlds).1; log[j].id < log[k].id && WellIssued(log[j], g.lease.node) && WellIssued(log[k], g.lease.node)
  {
    hide Next, Run;
    RunWellLogged(g, worlds);
    var log := Run(g, worlds).1;
    assert WellIssued(log[j], g.lease.node) && WellIssued(log[k], g.lease.node);
    LaterIsLarger(log[j], log[k], g.lease.node);
  }

  // ----- several generators -----

  /** Two IDs are equal exactly when millisecond, node and sequence are. */
  lemma EqualIds(a: Issue, b: Issue)
    requires WellIssued(a, a.node) && WellIssued(b, b.node)
    ensures a.id == b.id <==> a.millisecond == b.millisecond && a.node == b.node && a.sequence == b.sequence
  {
    PackReadsBack(a.millisecond - EPOCH, a.node, a.sequence);
    PackReadsBack(b.millisecond - EPOCH, b.node, b.sequence);
  }

  ghost predicate DisjointIds(first: seq<Issue>, second: seq<Issue>) {
    forall i, j :: 0 <= i < |first| && 0 <= j < |second| ==> first[i].id != second[j].id
  }

  /** Generators on different nodes never issue the same ID. */
  lemma NodesNeverCollide(g: Generator, h: Generator, gs: seq<World>, hs: seq<World>)
    requires Valid(g) && Valid(h) && g.lease.node != h.lease.node
    ensures DisjointIds(Run(g, gs).1, Run(h, hs).1)
  {
    hide Next, Run;
    RunWellLogged(g, gs);
    RunWellLogged(h, hs);
    var first, second := Run(g, gs).1, Run(h, hs).1;
    forall i, j | 0 <= i < |first| && 0 <= j < |second| ensures first[i].id != second[j].id {
      assert WellIssued(first[i], g.lease.node) && WellIssued(second[j], h.lease.node);
      EqualIds(first[i], second[j]);
    }
  }

  ghost predicate IssuedBefore(log: seq<Issue>, instant: int) { forall i :: 0 <= i < |log| ==> log[i].now < instant }

  ghost predicate IssuedFrom(log: seq<Issue>, instant: int) { forall i :: 0 <= i < |log| ==> instant <= log[i].now }

  /** Handing one node over at an instant is safe: whatever was issued before `end` and whatever is issued
      from `begin` on never share an ID. */
  ghost predicate SafeHandover(node: int, end: int, begin: int) {
    forall g, h, gs, hs {:trigger Run(g, gs), Run(h, hs)} ::
      && Valid(g) && Valid(h) && g.lease.node == node == h.lease.node
      && IssuedBefore(Run(g, gs).1, end) && IssuedFrom(Run(h, hs).1, begin)
      ==> DisjointIds(Run(g, gs).1, Run(h, hs).1)
  }

  /** A generator fresh from the lease service issues sequence 0 of the current millisecond. */
  function Newborn(node: int, now: int): (g: Generator) {
    Generator(Lease(node, "holder", now + 1), now + 1, 1, 0, 0, 0)
  }

  function Calm(now: int): (w: World) { World(now, None, true, now, true, now) }

  lemma NewbornIssues(node: int, now: int)
    requires 0 <= node <= MAX_NODE && EPOCH < Millis(now) < EPOCH + MAX_DELTA
    ensures Valid(Newborn(node, now))
    ensures Run(Newborn(node, now), [Calm(now)]).1 ==
            [Issue(Pack(Millis(now) - EPOCH, node, 0), Millis(now), 0, node, now, now + 1)]
  {
    assert [Calm(now)][..0] == [];
  }

  /** Lease expiry is finer than a millisecond, so exclusive leases alone do not make IDs unique: a hand-over
      is safe exactly when it crosses a millisecond boundary. */
  lemma HandoverSafeIff(node: int, end: int, begin: int)
    requires 0 <= node <= MAX_NODE && EPOCH < Millis(end - 1) < EPOCH + MAX_DELTA
    ensures SafeHandover(node, end, begin) <==> Millis(end - 1) < Millis(begin)
  {
    hide Next, Run;
    if Millis(end - 1) < Millis(begin) {
      forall g, h, gs, hs | Valid(g) && Valid(h) && g.lease.node == node == h.lease.node
                            && IssuedBefore(Run(g, gs).1, end) && IssuedFrom(Run(h, hs).1, begin)
        ensures DisjointIds(Run(g, gs).1, Run(h, hs).1)
      {
        SeparateMilliseconds(g, h, gs, hs, end, begin);
      }
    } else {
      var ms := Millis(end - 1);
      var now := if begin > ms * NANOSECONDS_PER_MILLISECOND then begin else ms * NANOSECONDS_PER_MILLISECOND;
      NewbornIssues(node, end - 1);
      NewbornIssues(node, now);
      var first, second := Run(Newborn(node, end - 1), [Calm(end - 1)]).1, Run(Newborn(node, now), [Calm(now)]).1;
      assert IssuedBefore(first, end) && IssuedFrom(second, begin);
      assert first[0].id == second[0].id;
      assert !DisjointIds(first, second);
    }
  }

  lemma SeparateMilliseconds(g: Generator, h: Generator, gs: seq<World>, hs: seq<World>, end: int, begin: int)
    requires Valid(g) && Valid(h) && Millis(end - 1) < Millis(begin)
    requires IssuedBefore(Run(g, gs).1, end) && IssuedFrom(Run(h, hs).1, begin)
    ensures DisjointIds(Run(g, gs).1, Run(h, hs).1)
  {
    hide Next, Run;
    RunWellLogged(g, gs);
    RunWellLogged(h, hs);
    var first, second := Run(g, gs).1, Run(h, hs).1;
    forall i, j | 0 <= i < |first| && 0 <= j < |second| ensures first[i].id != second[j].id {
      assert WellIssued(first[i], g.lease.node) && WellIssued(second[j], h.lease.node);
      assert first[i].now <= end - 1 && begin <= second[j].now;
      EqualIds(first[i], second[j]);
    }
  }
}
