/** The sliding-window limiter (internal/platform/accessapi/api.go, rateLimiter.Allow). */
module RateLimiter {
  /** The instants after the cutoff, in order. */
  function Recent(times: seq<int>, cutoff: int): (r: seq<int>) {
    if times == [] then []
    else Recent(times[..|times| - 1], cutoff) + if times[|times| - 1] > cutoff then [times[|times| - 1]] else []
  }

  function TimesIn(entries: map<string, seq<int>>, key: string): (r: seq<int>) { if key in entries then entries[key] else [] }

  /** One call on the pruned entries. */
  function PrunedStep(entries: map<string, seq<int>>, limit: int, window: int, key: string, now: int): (out: (map<string, seq<int>>, bool)) {
    var recent := Recent(TimesIn(entries, key), now - window);
    if |recent| >= limit then (entries[key := recent], false) else (entries[key := recent + [now]], true)
  }

  class Limiter {
    const limit: int
    const window: int
    var entries: map<string, seq<int>>

    constructor (limit: int, window: int)
      ensures this.limit == limit && this.window == window && entries == map[]
    {
      this.limit, this.window := limit, window;
      entries := map[];
    }

    /** The stored slice of the key is filtered in its own array, then extended when there is room. */
    method Allow(key: string, now: int) returns (ok: bool)
      modifies this
      ensures entries == PrunedStep(old(entries), limit, window, key, now).0
      ensures ok == PrunedStep(old(entries), limit, window, key, now).1
    {
      var cutoff := now - window;
      var times := TimesIn(entries, key);
      var slice := new int[|times|](i requires 0 <= i < |times| => times[i]);
      assert slice[..] == times;
      var kept := PruneInPlace(slice, cutoff);
      var recent := slice[..kept];
      if |recent| >= limit {
        entries := entries[key := recent];
        return false;
      }
      entries := entries[key := recent + [now]];
      return true;
    }
  }

  /** The filter writes into the very array it reads: the kept elements never overtake the reader. */
  method PruneInPlace(a: array<int>, cutoff: int) returns (kept: nat)
    modifies a
    ensures kept <= a.Length && a[..kept] == Recent(old(a[..]), cutoff)
  {
    kept := 0;
    for i := 0 to a.Length
      invariant kept <= i && a[..kept] == Recent(old(a[..])[..i], cutoff)
      invariant forall k :: i <= k < a.Length ==> a[k] == old(a[..])[k]
    {
      assert old(a[..])[..i + 1][..i] == old(a[..])[..i];
      if a[i] > cutoff {
        ghost var before := a[..kept];
        a[kept] := a[i];
        kept := kept + 1;
        assert a[..kept] == before + [old(a[..])[i]];
      }
    }
    assert old(a[..])[..a.Length] == old(a[..]);
  }

  // ----- the limiter that forgets nothing -----

  datatype Call = Call(key: string, now: int)

  /** All admitted instants of one key. */
  function Times(log: seq<Call>, key: string): (r: seq<int>) {
    if log == [] then []
    else Times(log[..|log| - 1], key) + if log[|log| - 1].key == key then [log[|log| - 1].now] else []
  }

  predicate Admits(log: seq<Call>, limit: int, window: int, call: Call) {
    |Recent(Times(log, call.key), call.now - window)| < limit
  }

  /** The admitted calls of a run of the full-log limiter. */
  function Admitted(calls: seq<Call>, limit: int, window: int): (log: seq<Call>) {
    if calls == [] then []
    else
      var log, call := Admitted(calls[..|calls| - 1], limit, window), calls[|calls| - 1];
      if Admits(log, limit, window, call) then log + [call] else log
  }

  function PrunedRun(calls: seq<Call>, limit: int, window: int): (entries: map<string, seq<int>>) {
    if calls == [] then map[]
    else
      var call := calls[|calls| - 1];
      PrunedStep(PrunedRun(calls[..|calls| - 1], limit, window), limit, window, call.key, call.now).0
  }

  predicate NotBefore(calls: seq<Call>, now: int) { forall c :: c in calls ==> c.now <= now }

  /** The clock never goes back. */
  predicate Monotone(calls: seq<Call>) {
    calls == [] || (Monotone(calls[..|calls| - 1]) && NotBefore(calls[..|calls| - 1], calls[|calls| - 1].now))
  }

  // ----- agreement -----

  lemma {:induction false} RecentConcat(a: seq<int>, b: seq<int>, cutoff: int)
    ensures Recent(a + b, cutoff) == Recent(a, cutoff) + Recent(b, cutoff)
  {
    if b == [] {
      assert a + b == a;
    } else {
      assert (a + b)[..|a + b| - 1] == a + b[..|b| - 1];
      RecentConcat(a, b[..|b| - 1], cutoff);
    }
  }

  /** Filtering at an earlier cutoff first changes nothing. */
  lemma {:induction false} RecentTwice(times: seq<int>, early: int, late: int)
    requires early <= late
    ensures Recent(Recent(times, early), late) == Recent(times, late)
  {
    if times != [] {
      var front, last := times[..|times| - 1], times[|times| - 1];
      RecentTwice(front, early, late);
      var kept := if last > early then [last] else [];
      RecentConcat(Recent(front, early), kept, late);
      assert Recent(kept, late) == if last > late then [last] else [] by { assert [last][..0] == []; }
    }
  }

  /** What was pruned away can never count again. */
  ghost predicate Agrees(entries: map<string, seq<int>>, log: seq<Call>, window: int, calls: seq<Call>) {
    forall key, now :: NotBefore(calls, now) ==>
      Recent(TimesIn(entries, key), now - window) == Recent(Times(log, key), now - window)
  }

  lemma TimesAppend(log: seq<Call>, call: Call, key: string)
    ensures Times(log + [call], key) == Times(log, key) + if call.key == key then [call.now] else []
  {
    assert (log + [call])[..|log|] == log;
  }

  lemma {:induction false} RunsAgree(calls: seq<Call>, limit: int, window: int)
    requires Monotone(calls)
    ensures Agrees(PrunedRun(calls, limit, window), Admitted(calls, limit, window), window, calls)
  {
    if calls != [] {
      var earlier, call := calls[..|calls| - 1], calls[|calls| - 1];
      RunsAgree(earlier, limit, window);
      var entries, log := PrunedRun(earlier, limit, window), Admitted(earlier, limit, window);
      assert calls == earlier + [call];
      forall key, now | NotBefore(calls, now)
        ensures Recent(TimesIn(PrunedRun(calls, limit, window), key), now - window)
             == Recent(Times(Admitted(calls, limit, window), key), now - window)
      {
        assert call in calls && forall c :: c in earlier ==> c in calls;
        CallAgrees(entries, log, limit, window, earlier, call, key, now);
      }
    }
  }

  lemma CallAgrees(entries: map<string, seq<int>>, log: seq<Call>, limit: int, window: int, earlier: seq<Call>, call: Call, key: string, now: int)
    requires Agrees(entries, log, window, earlier) && NotBefore(earlier, call.now) && NotBefore(earlier, now) && call.now <= now
    ensures PrunedStep(entries, limit, window, call.key, call.now).1 == Admits(log, limit, window, call)
    ensures var after := PrunedStep(entries, limit, window, call.key, call.now).0;
            var log' := if Admits(log, limit, window, call) then log + [call] else log;
            Recent(TimesIn(after, key), now - window) == Recent(Times(log', key), now - window)
  {
    hide Recent, Times;
    var times := TimesIn(entries, call.key);
    assert Recent(times, call.now - window) == Recent(Times(log, call.key), call.now - window);
    TimesAppend(log, call, key);
    assert Recent(TimesIn(entries, key), now - window) == Recent(Times(log, key), now - window);
    if key == call.key {
      RecentTwice(times, call.now - window, now - window);
      RecentConcat(Recent(times, call.now - window), [call.now], now - window);
      RecentConcat(Times(log, key), [call.now], now - window);
    } else {
      assert Times(log, key) + [] == Times(log, key);
    }
  }

  /** The pruned limiter decides every call of every run exactly as the one that keeps the full log. */
  lemma SameDecisions(calls: seq<Call>, call: Call, limit: int, window: int)
    requires Monotone(calls + [call])
    ensures PrunedStep(PrunedRun(calls, limit, window), limit, window, call.key, call.now).1
         == Admits(Admitted(calls, limit, window), limit, window, call)
  {
    assert (calls + [call])[..|calls|] == calls;
    RunsAgree(calls, limit, window);
    CallAgrees(PrunedRun(calls, limit, window), Admitted(calls, limit, window), limit, window, calls, call, call.key, call.now);
  }

  // ----- the guarantee -----

  /** How many instants lie in the half-open interval (from, to]. */
  function Count(times: seq<int>, from: int, to: int): (n: nat) {
    if times == [] then 0 else Count(times[..|times| - 1], from, to) + if from < times[|times| - 1] <= to then 1 else 0
  }

  lemma {:induction false} RecentIsCount(times: seq<int>, cutoff: int, now: int)
    requires forall i :: 0 <= i < |times| ==> times[i] <= now
    ensures |Recent(times, cutoff)| == Count(times, cutoff, now)
  {
    if times != [] { RecentIsCount(times[..|times| - 1], cutoff, now); }
  }

  lemma {:induction false} CountNarrows(times: seq<int>, from: int, to: int, from': int, to': int)
    requires from <= from' && forall i :: 0 <= i < |times| ==> times[i] <= to
    ensures Count(times, from', to') <= Count(times, from, to)
  {
    if times != [] { CountNarrows(times[..|times| - 1], from, to, from', to'); }
  }

  lemma {:induction false} AdmittedTimes(calls: seq<Call>, limit: int, window: int, key: string, now: int)
    requires NotBefore(calls, now)
    ensures forall i :: 0 <= i < |Times(Admitted(calls, limit, window), key)| ==> Times(Admitted(calls, limit, window), key)[i] <= now
  {
    if calls != [] {
      var earlier, call := calls[..|calls| - 1], calls[|calls| - 1];
      assert calls == earlier + [call] && call in calls && forall c :: c in earlier ==> c in calls;
      AdmittedTimes(earlier, limit, window, key, now);
      TimesAppend(Admitted(earlier, limit, window), call, key);
    }
  }

  lemma CountAppend(times: seq<int>, x: int, from: int, to: int)
    ensures Count(times + [x], from, to) == Count(times, from, to) + if from < x <= to then 1 else 0
  {
    assert (times + [x])[..|times|] == times;
  }

  lemma AdmittedAppend(calls: seq<Call>, call: Call, limit: int, window: int)
    ensures var log := Admitted(calls, limit, window);
            Admitted(calls + [call], limit, window) == if Admits(log, limit, window, call) then log + [call] else log
  {
    assert (calls + [call])[..|calls|] == calls;
  }

  /** Admitting one more call keeps every window within the limit. */
  lemma AdmitBounded(calls: seq<Call>, call: Call, limit: nat, window: int, key: string, from: int)
    requires NotBefore(calls, call.now)
    requires Count(Times(Admitted(calls, limit, window), key), from, from + window) <= limit
    ensures Count(Times(Admitted(calls + [call], limit, window), key), from, from + window) <= limit
  {
    hide Count, Times, Admitted, Recent;
    var log := Admitted(calls, limit, window);
    var times := Times(log, key);
    AdmittedAppend(calls, call, limit, window);
    TimesAppend(log, call, key);
    if Admits(log, limit, window, call) && call.key == key {
      CountAppend(times, call.now, from, from + window);
      if from < call.now <= from + window {
        AdmittedTimes(calls, limit, window, key, call.now);
        RecentIsCount(times, call.now - window, call.now);
        CountNarrows(times, call.now - window, call.now, from, from + window);
      }
    } else {
      assert times + [] == times;
    }
  }

  /** At most `limit` calls of a key are admitted in any half-open interval of length `window`. */
  lemma {:induction false} WindowBounded(calls: seq<Call>, limit: nat, window: int, key: string, from: int)
    requires Monotone(calls)
    ensures Count(Times(Admitted(calls, limit, window), key), from, from + window) <= limit
  {
    if calls != [] {
      var earlier, call := calls[..|calls| - 1], calls[|calls| - 1];
      WindowBounded(earlier, limit, window, key, from);
      AdmitBounded(earlier, call, limit, window, key, from);
      assert calls == earlier + [call];
    }
  }

  /** A call is refused exactly when `limit` admitted calls of its key already lie in the window that ends now. */
  lemma RefusedOnlyWhenFull(calls: seq<Call>, call: Call, limit: nat, window: int)
    requires Monotone(calls + [call])
    ensures !PrunedStep(PrunedRun(calls, limit, window), limit, window, call.key, call.now).1
       <==> Count(Times(Admitted(calls, limit, window), call.key), call.now - window, call.now) == limit
  {
    hide Count, Times, Admitted, Recent, PrunedRun, PrunedStep;
    SameDecisions(calls, call, limit, window);
    assert (calls + [call])[..|calls|] == calls;
    AdmittedTimes(calls, limit, window, call.key, call.now);
    RecentIsCount(Times(Admitted(calls, limit, window), call.key), call.now - window, call.now);
    WindowBounded(calls, limit, window, call.key, call.now - window);
  }
}
