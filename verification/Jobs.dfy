/** The durable job state machine (internal/job/job.go). */
module Jobs {
  import opened Text

  datatype State = Queued | Running | Succeeded | Failed | Cancelled

  datatype Progress = Progress(completed: int, total: Option<int>)

  datatype Checkpoint = Checkpoint(scope: string, cursor: string, coverageTo: int, version: int)

  datatype Job = Job(id: int, kind: string, state: State, progress: Progress, checkpoint: Option<Checkpoint>, version: int,
                     coalescedRequests: int, cancellable: bool, leaseHolder: string, leaseExpiresAt: Option<int>,
                     createdAt: int, startedAt: Option<int>, updatedAt: int, finishedAt: Option<int>, failure: string)

  datatype Error = ErrInvalid | ErrConflict | ErrLeaseUnavailable

  predicate Terminal(s: State) { s == Succeeded || s == Failed || s == Cancelled }

  function New(id: int, kind: string, unit: string, total: Option<int>, cancellable: bool, now: int): (r: Result<Job, Error>) {
    if id <= 0 || Blank(kind) || Blank(unit) || (total.Some? && total.value < 0) then Err(ErrInvalid)
    else Ok(Job(id, kind, Queued, Progress(0, total), None, 1, 0, cancellable, "", None, now, None, now, None, ""))
  }

  predicate Allowed(from: State, to: State) {
    match from
    case Queued => to in {Running, Failed, Cancelled}
    case Running => to in {Succeeded, Failed, Cancelled}
    case _ => false
  }

  function Transition(j: Job, to: State, now: int, failure: string): (r: Result<Job, Error>) {
    if Terminal(j.state) then (if j.state == to then Ok(j) else Err(ErrConflict))
    else if !Allowed(j.state, to) then Err(ErrConflict)
    else
      var moved := j.(state := to, version := j.version + 1, updatedAt := now);
      var started := if to == Running && j.startedAt.None? then moved.(startedAt := Some(now)) else moved;
      var ended := if Terminal(to) then started.(finishedAt := Some(now), leaseHolder := "", leaseExpiresAt := None) else started;
      Ok(if to == Failed then ended.(failure := TrimSpace(failure)) else ended)
  }

  function Cancel(j: Job, now: int): (r: Result<Job, Error>) {
    if !j.cancellable then Err(ErrConflict) else Transition(j, Cancelled, now, "")
  }

  function Claim(j: Job, holder: string, now: int, ttl: int): (r: Result<Job, Error>) {
    if Blank(holder) || ttl <= 0 || Terminal(j.state) then Err(ErrInvalid)
    else if j.leaseExpiresAt.Some? && j.leaseExpiresAt.value > now && j.leaseHolder != holder then Err(ErrLeaseUnavailable)
    else
      var leased := j.(leaseHolder := holder, leaseExpiresAt := Some(now + ttl), version := j.version + 1, updatedAt := now);
      if j.state == Queued then Transition(leased, Running, now, "") else Ok(leased)
  }

  function CommitPage(j: Job, holder: string, completed: int, checkpoint: Checkpoint, now: int): (r: Result<Job, Error>) {
    if j.state != Running || j.leaseHolder != holder || j.leaseExpiresAt.None? || !(j.leaseExpiresAt.value > now)
       || completed < j.progress.completed || (j.progress.total.Some? && completed > j.progress.total.value)
       || checkpoint.version <= 0 then Err(ErrConflict)
    else if j.checkpoint.Some? && checkpoint.version <= j.checkpoint.value.version then Err(ErrConflict)
    else Ok(j.(progress := j.progress.(completed := completed), checkpoint := Some(checkpoint),
               version := j.version + 1, updatedAt := now))
  }

  function Coalesce(j: Job): (r: Job) {
    if Terminal(j.state) then j else j.(coalescedRequests := j.coalescedRequests + 1, version := j.version + 1)
  }

  // ----- runs -----

  datatype Op =
    | OpTransition(to: State, now: int, failure: string)
    | OpCancel(now: int)
    | OpClaim(holder: string, now: int, ttl: int)
    | OpCommit(holder: string, completed: int, checkpoint: Checkpoint, now: int)
    | OpCoalesce

  function Apply(j: Job, op: Op): (r: Result<Job, Error>) {
    match op
    case OpTransition(to, now, failure) => Transition(j, to, now, failure)
    case OpCancel(now) => Cancel(j, now)
    case OpClaim(holder, now, ttl) => Claim(j, holder, now, ttl)
    case OpCommit(holder, completed, checkpoint, now) => CommitPage(j, holder, completed, checkpoint, now)
    case OpCoalesce => Ok(Coalesce(j))
  }

  /** A run: successive values of one job; a refused operation is not a step. */
  ghost predicate IsRun(jobs: seq<Job>, ops: seq<Op>) {
    && |jobs| == |ops| + 1 && Sound(jobs[0])
    && forall i {:trigger ops[i]} :: 0 <= i < |ops| ==> Apply(jobs[i], ops[i]) == Ok(jobs[i + 1])
  }

  /** What every reachable job satisfies. */
  predicate Sound(j: Job) {
    && j.version >= 1 && 0 <= j.progress.completed
    && (j.progress.total.Some? ==> j.progress.completed <= j.progress.total.value)
    && (Terminal(j.state) ==> j.leaseHolder == "" && j.leaseExpiresAt.None?)
    && (j.leaseHolder != "" <==> j.leaseExpiresAt.Some?)
  }

  lemma NewIsSound(id: int, kind: string, unit: string, total: Option<int>, cancellable: bool, now: int)
    ensures var r := New(id, kind, unit, total, cancellable, now); r.Ok? ==> Sound(r.value)
  {
  }

  /** Each change raises the version and never lowers progress; a terminal job never changes. */
  predicate Progresses(before: Job, after: Job) {
    && (after == before || before.version < after.version)
    && before.progress.completed <= after.progress.completed && before.progress.total == after.progress.total
    && (Terminal(before.state) ==> after == before)
    && before.id == after.id && before.kind == after.kind && before.createdAt == after.createdAt
    && (before.startedAt.Some? ==> after.startedAt == before.startedAt)
  }

  lemma TransitionProgresses(j: Job, to: State, now: int, failure: string)
    requires Sound(j) && Transition(j, to, now, failure).Ok?
    ensures Sound(Transition(j, to, now, failure).value) && Progresses(j, Transition(j, to, now, failure).value)
  {
    hide TrimSpace;
  }

  lemma ClaimProgresses(j: Job, holder: string, now: int, ttl: int)
    requires Sound(j) && Claim(j, holder, now, ttl).Ok?
    ensures Sound(Claim(j, holder, now, ttl).value) && Progresses(j, Claim(j, holder, now, ttl).value)
    ensures Claim(j, holder, now, ttl).value.leaseHolder == holder
    ensures j.leaseHolder == holder || j.leaseExpiresAt.None? || j.leaseExpiresAt.value <= now
  {
    NotBlank(holder);
    hide Blank, TrimSpace;
  }

  lemma ApplyProgresses(j: Job, op: Op)
    requires Sound(j) && Apply(j, op).Ok?
    ensures Sound(Apply(j, op).value) && Progresses(j, Apply(j, op).value)
  {
    hide Transition, Claim;
    match op
    case OpTransition(to, now, failure) => TransitionProgresses(j, to, now, failure);
    case OpCancel(now) => TransitionProgresses(j, Cancelled, now, "");
    case OpClaim(holder, now, ttl) => ClaimProgresses(j, holder, now, ttl);
    case _ =>
  }

  lemma NotBlank(s: string)
    ensures s == "" ==> Blank(s)
  {
  }

  // ----- what the operations do -----

  /** A transition leads to the requested state along the allowed ways only; it records when work began and ended and
      why it failed, and an ended job gives up its lease. */
  lemma TransitionEffects(j: Job, to: State, now: int, failure: string)
    ensures Transition(j, to, now, failure).Ok? <==>
            || (j.state == Queued && to in {Running, Failed, Cancelled})
            || (j.state == Running && to in {Succeeded, Failed, Cancelled})
            || (j.state == to && j.state in {Succeeded, Failed, Cancelled})
    ensures Transition(j, to, now, failure).Err? ==> Transition(j, to, now, failure).error == ErrConflict
    ensures Transition(j, to, now, failure).Ok? ==>
              var after := Transition(j, to, now, failure).value;
              && after.state == to
              && (j.state in {Succeeded, Failed, Cancelled} ==> after == j)
              && (j.state in {Queued, Running} ==>
                    && after.version == j.version + 1 && after.updatedAt == now
                    && (to == Running && j.startedAt.None? ==> after.startedAt == Some(now))
                    && (to in {Succeeded, Failed, Cancelled} ==> after.finishedAt == Some(now) && after.leaseHolder == "" && after.leaseExpiresAt.None?)
                    && after.failure == (if to == Failed then TrimSpace(failure) else j.failure)
                    && after.progress == j.progress && after.checkpoint == j.checkpoint && after.coalescedRequests == j.coalescedRequests)
  {
    hide TrimSpace;
  }

  lemma CancelEffects(j: Job, now: int)
    ensures Cancel(j, now).Ok? <==> j.cancellable && j.state in {Queued, Running, Cancelled}
    ensures Cancel(j, now).Ok? ==> Cancel(j, now).value.state == Cancelled
  {
    hide TrimSpace;
  }

  /** A claim succeeds for anybody when no lease is running and for its holder at any time, and lasts for the time
      asked from now on. */
  lemma ClaimEffects(j: Job, holder: string, now: int, ttl: int)
    ensures Claim(j, holder, now, ttl) == Err(ErrLeaseUnavailable) <==>
            && !Blank(holder) && ttl > 0 && j.state in {Queued, Running}
            && j.leaseExpiresAt.Some? && now < j.leaseExpiresAt.value && j.leaseHolder != holder
    ensures Claim(j, holder, now, ttl) == Err(ErrInvalid) <==> Blank(holder) || ttl <= 0 || j.state in {Succeeded, Failed, Cancelled}
    ensures Claim(j, holder, now, ttl).Ok? <==>
            && !Blank(holder) && ttl > 0 && j.state in {Queued, Running}
            && (j.leaseExpiresAt.None? || j.leaseExpiresAt.value <= now || j.leaseHolder == holder)
    ensures Claim(j, holder, now, ttl).Ok? ==>
              var after := Claim(j, holder, now, ttl).value;
              && after.state == Running && after.leaseHolder == holder && after.leaseExpiresAt == Some(now + ttl)
              && after.startedAt == (if j.state == Queued && j.startedAt.None? then Some(now) else j.startedAt)
              && after.progress == j.progress && after.checkpoint == j.checkpoint
  {
    hide Blank, TrimSpace;
  }

  /** A commit succeeds for the holder of a running lease whose count does not fall, fits the total and whose checkpoint
      advances; it records count and checkpoint and leaves the lease as it is. */
  lemma CommitEffects(j: Job, holder: string, completed: int, checkpoint: Checkpoint, now: int)
    ensures CommitPage(j, holder, completed, checkpoint, now).Ok? <==>
            && j.state == Running && j.leaseHolder == holder && j.leaseExpiresAt.Some? && now < j.leaseExpiresAt.value
            && j.progress.completed <= completed && (j.progress.total.Some? ==> completed <= j.progress.total.value)
            && checkpoint.version > 0 && (j.checkpoint.Some? ==> j.checkpoint.value.version < checkpoint.version)
    ensures CommitPage(j, holder, completed, checkpoint, now).Ok? ==>
              var after := CommitPage(j, holder, completed, checkpoint, now).value;
              && after.progress.completed == completed && after.checkpoint == Some(checkpoint)
              && after.version == j.version + 1 && after.updatedAt == now
              && after.leaseHolder == j.leaseHolder && after.leaseExpiresAt == j.leaseExpiresAt && after.state == Running
  {
  }

  lemma CoalesceEffects(j: Job)
    ensures if j.state in {Queued, Running}
            then Coalesce(j) == j.(coalescedRequests := j.coalescedRequests + 1, version := j.version + 1) else Coalesce(j) == j
  {
  }

  /** A new job waits, unclaimed, with nothing done; it is refused only for a bad ID, kind, unit or total. */
  lemma NewEffects(id: int, kind: string, unit: string, total: Option<int>, cancellable: bool, now: int)
    ensures New(id, kind, unit, total, cancellable, now).Ok? <==>
            id > 0 && !Blank(kind) && !Blank(unit) && (total.Some? ==> total.value >= 0)
    ensures New(id, kind, unit, total, cancellable, now).Ok? ==>
              var j := New(id, kind, unit, total, cancellable, now).value;
              && j.id == id && j.kind == kind && j.state == Queued && j.progress == Progress(0, total) && j.checkpoint == None
              && j.version == 1 && j.cancellable == cancellable && j.createdAt == j.updatedAt == now
              && j.leaseHolder == "" && j.leaseExpiresAt == None && j.startedAt == None && j.finishedAt == None
  {
    hide Blank;
  }

  /** Only a claim can give the lease of an unfinished job to somebody else, and only after its expiry. */
  lemma ApplyKeepsHolder(j: Job, op: Op)
    requires Sound(j) && Apply(j, op).Ok? && j.leaseHolder != ""
    ensures var after := Apply(j, op).value;
            || after.leaseHolder == j.leaseHolder || Terminal(after.state)
            || (op.OpClaim? && op.holder != j.leaseHolder && j.leaseExpiresAt.Some? && j.leaseExpiresAt.value <= op.now)
  {
    hide Blank, TrimSpace;
    if op.OpClaim? { ClaimProgresses(j, op.holder, op.now, op.ttl); }
  }

  lemma {:induction false} RunProgresses(jobs: seq<Job>, ops: seq<Op>, i: nat, k: nat)
    requires IsRun(jobs, ops) && i <= k < |jobs|
    ensures Sound(jobs[k]) && Progresses(jobs[i], jobs[k])
  {
    if k > 0 {
      RunProgresses(jobs, ops, 0, k - 1);
      var op := ops[k - 1];
      ApplyProgresses(jobs[k - 1], op);
      if i < k { RunProgresses(jobs, ops, i, k - 1); }
    } else {
      assert Sound(jobs[0]);
    }
  }

  /** The lease changed hands at this step: somebody else claimed after the expiry then in force. */
  ghost predicate TakenOver(jobs: seq<Job>, ops: seq<Op>, k: nat, holder: string)
    requires |jobs| == |ops| + 1 && k < |ops|
  {
    && ops[k].OpClaim? && ops[k].holder != holder && jobs[k].leaseHolder == holder
    && jobs[k].leaseExpiresAt.Some? && jobs[k].leaseExpiresAt.value <= ops[k].now
  }

  /** While nobody takes over from a holder, nobody else can hold the lease of a running job. */
  lemma {:induction false} HolderKept(jobs: seq<Job>, ops: seq<Op>, i: nat, k: nat, holder: string)
    requires IsRun(jobs, ops) && i <= k < |jobs| && holder != ""
    requires jobs[i].leaseHolder == holder
    requires forall m :: i <= m < k ==> !TakenOver(jobs, ops, m, holder)
    ensures jobs[k].leaseHolder == holder || Terminal(jobs[k].state)
  {
    if i < k {
      HolderKept(jobs, ops, i, k - 1, holder);
      RunProgresses(jobs, ops, 0, k - 1);
      hide Apply;
      var op := ops[k - 1];
      assert !TakenOver(jobs, ops, k - 1, holder);
      ApplyProgresses(jobs[k - 1], op);
      if !Terminal(jobs[k - 1].state) { ApplyKeepsHolder(jobs[k - 1], op); }
    }
  }

  /** Mutual exclusion: between commits by two different holders lies a claim made after the first holder's
      lease had expired, and each commit falls within the lease it was made under. */
  lemma CommitsAreFenced(jobs: seq<Job>, ops: seq<Op>, i: nat, k: nat)
    requires IsRun(jobs, ops) && i < k < |ops|
    requires ops[i].OpCommit? && ops[k].OpCommit? && ops[i].holder != ops[k].holder
    ensures exists m :: i < m < k && TakenOver(jobs, ops, m, ops[i].holder)
    ensures jobs[i].leaseExpiresAt.Some? && ops[i].now < jobs[i].leaseExpiresAt.value
    ensures jobs[k].leaseExpiresAt.Some? && ops[k].now < jobs[k].leaseExpiresAt.value
  {
    var first, second := ops[i], ops[k];
    RunProgresses(jobs, ops, 0, i);
    assert jobs[i].leaseHolder == first.holder && jobs[i + 1].leaseHolder == first.holder;
    assert jobs[k].state == Running && jobs[k].leaseHolder == second.holder;
    if forall m :: i < m < k ==> !TakenOver(jobs, ops, m, first.holder) {
      HolderKept(jobs, ops, i + 1, k, first.holder);
    }
  }

  // ----- the worker's checkpoint version (internal/worker/runner.go) -----

  /** The worker that commits at step k last saw the job right after its own claim or commit, at index m;
      others may have coalesced requests since, so its copy can be behind. */
  ghost predicate LastSeen(jobs: seq<Job>, ops: seq<Op>, k: nat, m: nat)
    requires |jobs| == |ops| + 1 && k < |jobs|
  {
    && 0 < m <= k && (ops[m - 1].OpClaim? || ops[m - 1].OpCommit?)
    && forall x :: m <= x < k ==> !ops[x].OpCommit?
  }

  /** Every commit carries the version the worker saw plus one. */
  ghost predicate RunnerRun(jobs: seq<Job>, ops: seq<Op>) {
    && IsRun(jobs, ops) && jobs[0].checkpoint.None?
    && forall k {:trigger ops[k]} :: 0 <= k < |ops| && ops[k].OpCommit? ==>
         exists m: nat :: LastSeen(jobs, ops, k, m) && ops[k].checkpoint.version == jobs[m].version + 1
  }

  predicate CheckpointBehind(j: Job) { j.checkpoint.Some? ==> j.checkpoint.value.version <= j.version }

  lemma ApplyCheckpoint(j: Job, op: Op)
    requires Apply(j, op).Ok?
    ensures var after := Apply(j, op).value;
            if op.OpCommit? then after.checkpoint == Some(op.checkpoint) && after.version == j.version + 1
            else after.checkpoint == j.checkpoint && after.progress == j.progress
  {
    hide Blank, TrimSpace;
  }

  lemma {:induction false} RunnerBehind(jobs: seq<Job>, ops: seq<Op>, k: nat)
    requires RunnerRun(jobs, ops) && k < |jobs|
    ensures CheckpointBehind(jobs[k])
  {
    if k > 0 {
      RunnerBehind(jobs, ops, k - 1);
      RunProgresses(jobs, ops, 0, k - 1);
      hide Apply;
      var op := ops[k - 1];
      ApplyProgresses(jobs[k - 1], op);
      ApplyCheckpoint(jobs[k - 1], op);
      if op.OpCommit? {
        var m: nat :| LastSeen(jobs, ops, k - 1, m) && op.checkpoint.version == jobs[m].version + 1;
        RunProgresses(jobs, ops, m, k - 1);
      }
    }
  }

  lemma {:induction false} CheckpointKept(jobs: seq<Job>, ops: seq<Op>, m: nat, k: nat)
    requires IsRun(jobs, ops) && m <= k < |jobs| && forall x :: m <= x < k ==> !ops[x].OpCommit?
    ensures jobs[k].checkpoint == jobs[m].checkpoint && jobs[k].progress == jobs[m].progress
  {
    if m < k {
      CheckpointKept(jobs, ops, m, k - 1);
      hide Apply;
      var op := ops[k - 1];
      assert !op.OpCommit?;
      ApplyCheckpoint(jobs[k - 1], op);
    }
  }

  /** The worker's choice of version, and a count no smaller than the one it last saw, always pass the guards of
      CommitPage, even when its copy of the job is behind. */
  lemma RunnerChoiceAccepted(jobs: seq<Job>, ops: seq<Op>, k: nat, m: nat, holder: string, completed: int, now: int, scope: string, cursor: string)
    requires RunnerRun(jobs, ops) && k < |jobs| && LastSeen(jobs, ops, k, m)
    requires var j := jobs[k];
             && j.state == Running && j.leaseHolder == holder && j.leaseExpiresAt.Some? && now < j.leaseExpiresAt.value
             && jobs[m].progress.completed <= completed && (j.progress.total.Some? ==> completed <= j.progress.total.value)
    ensures CommitPage(jobs[k], holder, completed, Checkpoint(scope, cursor, now, jobs[m].version + 1), now).Ok?
  {
    RunnerBehind(jobs, ops, m);
    CheckpointKept(jobs, ops, m, k);
    RunProgresses(jobs, ops, 0, m);
  }
}
