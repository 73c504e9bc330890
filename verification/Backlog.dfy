/** Backlog change over a window (internal/issue/issue.go, BacklogChange). */
module Backlog {
  import opened Sorting
  import opened TimeWindow

  /** Of an event's state string the computation uses only whether it is "open". */
  datatype Event = Event(issueID: int, at: int, open: bool)

  /** By time, then by issue; events that share both may come in either order. */
  predicate EventLeq(a: Event, b: Event) { a.at < b.at || (a.at == b.at && a.issueID <= b.issueID) }

  lemma EventOrder()
    ensures TotalPreorder(EventLeq)
  {
  }

  // ----- what the change means -----

  /** The latest event before the instant leaves the issue open. */
  ghost predicate IsOpen(events: seq<Event>, id: int, t: int) {
    exists e :: e in events && e.issueID == id && e.at < t && e.open && Latest(events, e, t)
  }

  ghost predicate Latest(events: seq<Event>, e: Event, t: int) {
    forall f :: f in events && f.issueID == e.issueID && f.at < t ==> f.at <= e.at
  }

  ghost function OpenIssues(events: seq<Event>, t: int): (ids: set<int>) {
    set e | e in events && IsOpen(events, e.issueID, t) :: e.issueID
  }

  /** Open at the end minus open at the start; nothing happens in an empty window. */
  ghost function Change(events: seq<Event>, w: Window): (n: int) {
    if w.from <= w.to then |OpenIssues(events, w.to)| - |OpenIssues(events, w.from)| else 0
  }

  /** Events of one issue at one instant agree on whether it is open. */
  ghost predicate TiesAgree(events: seq<Event>) {
    forall e, f :: e in events && f in events && e.issueID == f.issueID && e.at == f.at ==> e.open == f.open
  }

  // ----- replaying events -----

  /** The states after the events before t, taken in order, on top of some states. */
  function Replay(states: map<int, bool>, events: seq<Event>, t: int): (r: map<int, bool>) {
    if events == [] then states
    else
      var front, last := Replay(states, events[..|events| - 1], t), events[|events| - 1];
      if last.at < t then front[last.issueID := last.open] else front
  }

  function Open(states: map<int, bool>): (ids: set<int>) { set id | id in states && states[id] }

  /** The change that one particular order of the events yields. */
  function ReplayedChange(ordered: seq<Event>, w: Window): (n: int) {
    if w.from <= w.to then |Open(Replay(map[], ordered, w.to))| - |Open(Replay(map[], ordered, w.from))| else 0
  }

  ghost predicate IsOrder(events: seq<Event>, ordered: seq<Event>) { Sorted(ordered, EventLeq) && multiset(ordered) == multiset(events) }

  lemma ReplayAppend(states: map<int, bool>, events: seq<Event>, e: Event, t: int)
    ensures Replay(states, events + [e], t) ==
            if e.at < t then Replay(states, events, t)[e.issueID := e.open] else Replay(states, events, t)
  {
    assert (events + [e])[..|events|] == events;
  }

  lemma {:induction false} ReplayConcat(states: map<int, bool>, a: seq<Event>, b: seq<Event>, t: int)
    ensures Replay(states, a + b, t) == Replay(Replay(states, a, t), b, t)
  {
    if b == [] {
      assert a + b == a;
    } else {
      var front, last := b[..|b| - 1], b[|b| - 1];
      ReplayConcat(states, a, front, t);
      ReplayAppend(states, a + front, last, t);
      assert a + b == (a + front) + [last];
    }
  }

  /** Events from t on do not change the states at t. */
  lemma {:induction false} ReplayNothing(states: map<int, bool>, events: seq<Event>, t: int)
    requires forall e :: e in events ==> t <= e.at
    ensures Replay(states, events, t) == states
  {
    if events != [] {
      assert events[|events| - 1] in events;
      ReplayNothing(states, events[..|events| - 1], t);
    }
  }

  // ----- BacklogChange -----

  /** The counting loop over a map, in the unspecified order of iteration. */
  method CountOpen(states: map<int, bool>) returns (n: nat)
    ensures n == |Open(states)|
  {
    n := 0;
    var ids := Elements(states.Keys);
    for i := 0 to |ids|
      invariant n == |OpenAmong(states, ids[..i])|
    {
      assert ids[..i + 1] == ids[..i] + [ids[i]] && ids[i] !in ids[..i];
      OpenAmongAppend(states, ids[..i], ids[i]);
      if states[ids[i]] { n := n + 1; }
    }
    assert ids[..|ids|] == ids;
    assert OpenAmong(states, ids) == Open(states);
  }

  ghost function OpenAmong(states: map<int, bool>, ids: seq<int>): (r: set<int>) {
    set id | id in ids && id in states && states[id]
  }

  lemma OpenAmongAppend(states: map<int, bool>, ids: seq<int>, id: int)
    requires id !in ids && id in states
    ensures |OpenAmong(states, ids + [id])| == |OpenAmong(states, ids)| + if states[id] then 1 else 0
  {
    if states[id] {
      assert OpenAmong(states, ids + [id]) == OpenAmong(states, ids) + {id};
    } else {
      assert OpenAmong(states, ids + [id]) == OpenAmong(states, ids);
    }
  }

  /** First loop: the events before the window; the sort lets it stop early. */
  method ReplayBefore(ordered: seq<Event>, from: int) returns (states: map<int, bool>)
    requires Sorted(ordered, EventLeq)
    ensures states == Replay(map[], ordered, from)
  {
    states := map[];
    for i := 0 to |ordered|
      invariant states == Replay(map[], ordered[..i], from)
    {
      if !(ordered[i].at < from) {
        forall e | e in ordered[i..] ensures from <= e.at {
          var k :| 0 <= k < |ordered[i..]| && ordered[i..][k] == e;
          assert k > 0 ==> EventLeq(ordered[i], ordered[i + k]);
        }
        hide Replay;
        ReplayConcat(map[], ordered[..i], ordered[i..], from);
        ReplayNothing(states, ordered[i..], from);
        assert ordered == ordered[..i] + ordered[i..];
        return;
      }
      ReplayAppend(map[], ordered[..i], ordered[i], from);
      assert ordered[..i + 1] == ordered[..i] + [ordered[i]];
      states := states[ordered[i].issueID := ordered[i].open];
    }
    assert ordered[..|ordered|] == ordered;
  }

  /** The sorted events split at an instant. */
  lemma SplitAt(ordered: seq<Event>, from: int) returns (i: nat)
    requires Sorted(ordered, EventLeq)
    ensures i <= |ordered| && (forall k :: 0 <= k < i ==> ordered[k].at < from) && forall k :: i <= k < |ordered| ==> from <= ordered[k].at
  {
    i := 0;
    while i < |ordered| && ordered[i].at < from
      invariant i <= |ordered| && forall k :: 0 <= k < i ==> ordered[k].at < from
    {
      i := i + 1;
    }
    forall k | i <= k < |ordered| ensures from <= ordered[k].at { assert k > i ==> EventLeq(ordered[i], ordered[k]); }
  }

  lemma {:induction false} ReplaySame(states: map<int, bool>, events: seq<Event>, t: int, t': int)
    requires forall k :: 0 <= k < |events| ==> events[k].at < t && events[k].at < t'
    ensures Replay(states, events, t) == Replay(states, events, t')
  {
    if events != [] { ReplaySame(states, events[..|events| - 1], t, t'); }
  }

  /** Second loop: the events inside the window, on top of the states at its start. */
  method ReplayInside(ordered: seq<Event>, w: Window, start: map<int, bool>) returns (states: map<int, bool>)
    requires Sorted(ordered, EventLeq) && start == Replay(map[], ordered, w.from)
    ensures states == if w.from <= w.to then Replay(map[], ordered, w.to) else start
  {
    states := start;
    ghost var cut := SplitAt(ordered, w.from);
    StartOfWindow(ordered, w, cut);
    for i := 0 to |ordered|
      invariant states == Inside(ordered, w, start, cut, i)
    {
      InsideStep(ordered, w, start, cut, i);
      var e := ordered[i];
      if !(e.at < w.from || !(e.at < w.to)) { states := states[e.issueID := e.open]; }
    }
    assert ordered[..|ordered|] == ordered;
  }

  /** The states after i events of the second loop. */
  ghost function Inside(ordered: seq<Event>, w: Window, start: map<int, bool>, cut: nat, i: nat): (r: map<int, bool>)
    requires i <= |ordered|
  {
    if w.to < w.from || i < cut then start else Replay(map[], ordered[..i], w.to)
  }

  lemma InsideStep(ordered: seq<Event>, w: Window, start: map<int, bool>, cut: nat, i: nat)
    requires i < |ordered| && cut <= |ordered| && (w.from <= w.to ==> start == Replay(map[], ordered[..cut], w.to))
    requires (forall k :: 0 <= k < cut ==> ordered[k].at < w.from) && forall k :: cut <= k < |ordered| ==> w.from <= ordered[k].at
    ensures Inside(ordered, w, start, cut, i + 1) ==
            var e, before := ordered[i], Inside(ordered, w, start, cut, i);
            if w.from <= e.at < w.to then before[e.issueID := e.open] else before
  {
    hide Replay;
    ReplayAppend(map[], ordered[..i], ordered[i], w.to);
    assert ordered[..i + 1] == ordered[..i] + [ordered[i]];
  }

  lemma StartOfWindow(ordered: seq<Event>, w: Window, cut: nat)
    requires cut <= |ordered| && (forall k :: 0 <= k < cut ==> ordered[k].at < w.from)
    requires forall k :: cut <= k < |ordered| ==> w.from <= ordered[k].at
    ensures w.from <= w.to ==> Replay(map[], ordered, w.from) == Replay(map[], ordered[..cut], w.to)
  {
    var before, after := ordered[..cut], ordered[cut..];
    ReplayConcat(map[], before, after, w.from);
    ReplayNothing(Replay(map[], before, w.from), after, w.from);
    assert ordered == before + after;
    if w.from <= w.to { ReplaySame(map[], before, w.from, w.to); }
  }

  /** `BacklogChange`. The sort decides the order of events that share issue and instant; when such events
      agree, the result is the change in the number of open issues. */
  method BacklogChange(events: seq<Event>, w: Window) returns (n: int)
    ensures exists ordered :: IsOrder(events, ordered) && n == ReplayedChange(ordered, w)
    ensures TiesAgree(events) ==> n == Change(events, w)
  {
    EventOrder();
    var sorted := SortFunc(events, EventLeq);
    var states := ReplayBefore(sorted, w.from);
    var start: int := CountOpen(states);
    states := ReplayInside(sorted, w, states);
    var end: int := CountOpen(states);
    n := end - start;
    assert IsOrder(events, sorted) && n == ReplayedChange(sorted, w);
    if TiesAgree(events) { OrderDoesNotMatter(events, sorted, w); }
  }

  // ----- the order of agreeing ties does not matter -----

  ghost predicate Decides(events: seq<Event>, e: Event, id: int, t: int) {
    e in events && e.issueID == id && e.at < t && Latest(events, e, t)
  }

  /** In sorted order the last replayed event of an issue is one of its latest. */
  lemma {:induction false} ReplayedState(ordered: seq<Event>, id: int, t: int)
    requires Sorted(ordered, EventLeq)
    ensures var r := Replay(map[], ordered, t);
            && (id in r ==> exists e :: Decides(ordered, e, id, t) && e.open == r[id])
            && (id !in r ==> forall e :: e in ordered && e.issueID == id ==> t <= e.at)
  {
    if ordered != [] {
      var front, last := ordered[..|ordered| - 1], ordered[|ordered| - 1];
      ReplayedState(front, id, t);
      assert ordered == front + [last];
      if last.at < t && last.issueID == id {
        forall f | f in ordered && f.issueID == id && f.at < t ensures f.at <= last.at {
          var k :| 0 <= k < |ordered| && ordered[k] == f;
          assert k < |ordered| - 1 ==> EventLeq(ordered[k], last);
        }
        assert Decides(ordered, last, id, t);
      } else if id in Replay(map[], front, t) {
        var e :| Decides(front, e, id, t) && e.open == Replay(map[], front, t)[id];
        assert Decides(ordered, e, id, t);
      }
    }
  }

  lemma OpenAfterReplay(events: seq<Event>, ordered: seq<Event>, t: int)
    requires TiesAgree(events) && IsOrder(events, ordered)
    ensures Open(Replay(map[], ordered, t)) == OpenIssues(events, t)
  {
    hide Replay;
    var r := Replay(map[], ordered, t);
    forall e ensures e in events <==> e in ordered { assert e in events <==> e in multiset(events); assert e in ordered <==> e in multiset(ordered); }
    forall id ensures id in Open(r) <==> id in OpenIssues(events, t) {
      ReplayedState(ordered, id, t);
      if id in r {
        var e :| Decides(ordered, e, id, t) && e.open == r[id];
        assert Latest(events, e, t);
        if e.open { assert IsOpen(events, id, t); }
        if IsOpen(events, id, t) {
          var f :| f in events && f.issueID == id && f.at < t && f.open && Latest(events, f, t);
          assert f.at == e.at;
        }
      }
    }
  }

  lemma OrderDoesNotMatter(events: seq<Event>, ordered: seq<Event>, w: Window)
    requires TiesAgree(events) && IsOrder(events, ordered)
    ensures ReplayedChange(ordered, w) == Change(events, w)
  {
    OpenAfterReplay(events, ordered, w.from);
    OpenAfterReplay(events, ordered, w.to);
  }

  /** Changes over adjacent windows add up to the change over the joined window, in any one order of the events. */
  lemma WindowsAddUp(events: seq<Event>, ordered: seq<Event>, a: int, b: int, c: int)
    requires IsOrder(events, ordered) && a <= b <= c
    ensures ReplayedChange(ordered, Window(a, b)) + ReplayedChange(ordered, Window(b, c)) == ReplayedChange(ordered, Window(a, c))
    ensures Change(events, Window(a, b)) + Change(events, Window(b, c)) == Change(events, Window(a, c))
  {
  }

  // ----- and only then -----

  /** Every order that the sort may pick yields the same change, for every window. */
  ghost predicate Determined(events: seq<Event>) {
    forall o, o', w {:trigger ReplayedChange(o, w), ReplayedChange(o', w)} ::
      IsOrder(events, o) && IsOrder(events, o') ==> ReplayedChange(o, w) == ReplayedChange(o', w)
  }

  function UpTo(events: seq<Event>, pivot: Event, keep: bool): (r: seq<Event>)
    ensures forall e :: e in r <==> e in events && EventLeq(e, pivot) == keep
    ensures Sorted(events, EventLeq) ==> Sorted(r, EventLeq)
  {
    if events == [] then []
    else
      var front, last := UpTo(events[..|events| - 1], pivot, keep), events[|events| - 1];
      assert events == events[..|events| - 1] + [last];
      assert Sorted(events, EventLeq) ==> forall e :: e in events[..|events| - 1] ==> EventLeq(e, last);
      if EventLeq(last, pivot) == keep then front + [last] else front
  }

  lemma {:induction false} UpToSplits(events: seq<Event>, pivot: Event)
    ensures multiset(UpTo(events, pivot, true)) + multiset(UpTo(events, pivot, false)) == multiset(events)
  {
    if events != [] {
      UpToSplits(events[..|events| - 1], pivot);
      assert events == events[..|events| - 1] + [events[|events| - 1]];
    }
  }

  /** An order in which x and then y, tied, come last of their tie. */
  function TieOrder(low: seq<Event>, x: Event, y: Event, high: seq<Event>): (o: seq<Event>) { low + ([x, y] + high) }

  /** Sorted events before and after the place of a tie. */
  ghost predicate Around(low: seq<Event>, high: seq<Event>, pivot: Event) {
    && Sorted(low, EventLeq) && Sorted(high, EventLeq)
    && (forall i :: 0 <= i < |low| ==> EventLeq(low[i], pivot)) && forall i :: 0 <= i < |high| ==> !EventLeq(high[i], pivot)
  }

  lemma Surround(others: seq<Event>, pivot: Event) returns (low: seq<Event>, high: seq<Event>)
    ensures Around(low, high, pivot) && multiset(low) + multiset(high) == multiset(others)
  {
    EventOrder();
    var base := Sort(others, EventLeq);
    low, high := UpTo(base, pivot, true), UpTo(base, pivot, false);
    UpToSplits(base, pivot);
    forall i | 0 <= i < |low| ensures EventLeq(low[i], pivot) { assert low[i] in low; }
    forall i | 0 <= i < |high| ensures !EventLeq(high[i], pivot) { assert high[i] in high; }
  }

  lemma TieOrderSorted(low: seq<Event>, x: Event, y: Event, high: seq<Event>)
    requires x.at == y.at && x.issueID == y.issueID && Around(low, high, y)
    ensures Sorted(TieOrder(low, x, y, high), EventLeq)
  {
    var o := TieOrder(low, x, y, high);
    forall i, j | 0 <= i < j < |o| ensures EventLeq(o[i], o[j]) {
      if j < |low| { assert EventLeq(low[i], low[j]); }
      if i >= |low| + 2 { assert EventLeq(high[i - |low| - 2], high[j - |low| - 2]); }
    }
  }

  lemma TieOrderPermutes(low: seq<Event>, x: Event, y: Event, high: seq<Event>)
    ensures multiset(TieOrder(low, x, y, high)) == multiset(low) + multiset(high) + multiset{x, y}
  {
    assert multiset([x, y]) == multiset{x, y};
  }

  /** Replaying events of other issues does not touch an issue's state. */
  lemma {:induction false} ReplayOthers(states: map<int, bool>, events: seq<Event>, t: int, id: int, open: bool)
    requires forall e :: e in events && e.at < t ==> e.issueID != id
    ensures Replay(states[id := open], events, t) == Replay(states, events, t)[id := open]
  {
    if events != [] {
      var front, last := events[..|events| - 1], events[|events| - 1];
      assert last in events && forall e :: e in front ==> e in events;
      ReplayOthers(states, front, t, id, open);
    }
  }

  /** The tied event that comes last decides, once its instant has passed. */
  lemma TieReplay(low: seq<Event>, x: Event, y: Event, high: seq<Event>, t: int)
    requires x.at == y.at && x.issueID == y.issueID && Around(low, high, y) && t <= y.at + 1
    ensures Replay(map[], TieOrder(low, x, y, high), t) ==
            var plain := Replay(map[], low + high, t); if y.at < t then plain[y.issueID := y.open] else plain
  {
    hide Replay;
    var m := Replay(map[], low, t);
    ReplayConcat(map[], low, [x, y] + high, t);
    ReplayConcat(m, [x, y], high, t);
    ReplayConcat(map[], low, high, t);
    TwoEvents(m, x, y, t);
    if y.at < t {
      assert m[x.issueID := x.open][y.issueID := y.open] == m[y.issueID := y.open];
      forall e | e in high && e.at < t ensures e.issueID != y.issueID {
        var i :| 0 <= i < |high| && high[i] == e;
        assert !EventLeq(high[i], y);
      }
      ReplayOthers(m, high, t, y.issueID, y.open);
    }
  }

  lemma TwoEvents(states: map<int, bool>, x: Event, y: Event, t: int)
    requires x.at == y.at
    ensures Replay(states, [x, y], t) == if y.at < t then states[x.issueID := x.open][y.issueID := y.open] else states
  {
    ReplayAppend(states, [], x, t);
    ReplayAppend(states, [x], y, t);
    assert [] + [x] == [x] && [x] + [y] == [x, y] && Replay(states, [], t) == states;
  }

  lemma OpenDiffers(states: map<int, bool>, id: int)
    ensures |Open(states[id := true])| == |Open(states[id := false])| + 1
  {
    assert Open(states[id := true]) == Open(states[id := false]) + {id};
  }

  /** A tie that disagrees makes the result depend on the sort: the window of that instant can differ by one. */
  lemma DisagreeingTie(low: seq<Event>, e: Event, f: Event, high: seq<Event>)
    requires e.at == f.at && e.issueID == f.issueID && e.open && !f.open && Around(low, high, e)
    ensures var w := Window(e.at, e.at + 1);
            ReplayedChange(TieOrder(low, f, e, high), w) == ReplayedChange(TieOrder(low, e, f, high), w) + 1
  {
    assert Around(low, high, f);
    hide Replay, Open;
    TieReplay(low, f, e, high, e.at);
    TieReplay(low, f, e, high, e.at + 1);
    TieReplay(low, e, f, high, e.at);
    TieReplay(low, e, f, high, e.at + 1);
    OpenDiffers(Replay(map[], low + high, e.at + 1), e.issueID);
  }

  /** The result is determined by the events exactly when tied events agree. */
  lemma DeterminedIff(events: seq<Event>)
    ensures Determined(events) <==> TiesAgree(events)
  {
    if TiesAgree(events) {
      forall o, o', w | IsOrder(events, o) && IsOrder(events, o') ensures ReplayedChange(o, w) == ReplayedChange(o', w) {
        OrderDoesNotMatter(events, o, w);
        OrderDoesNotMatter(events, o', w);
      }
    } else {
      hide ReplayedChange;
      var e, f :| e in events && f in events && e.issueID == f.issueID && e.at == f.at && e.open && !f.open;
      hide *;
      var others := WithoutTwo(events, e, f);
      var low, high := Surround(others, e);
      AroundEither(low, high, e, f);
      TieOrderSorted(low, e, f, high);
      TieOrderSorted(low, f, e, high);
      TieOrderPermutes(low, e, f, high);
      TieOrderPermutes(low, f, e, high);
      DisagreeingTie(low, e, f, high);
      NotDetermined(events, TieOrder(low, f, e, high), TieOrder(low, e, f, high), Window(e.at, e.at + 1));
    }
  }

  lemma AroundEither(low: seq<Event>, high: seq<Event>, e: Event, f: Event)
    requires e.at == f.at && e.issueID == f.issueID && Around(low, high, e)
    ensures Around(low, high, f)
  {
  }

  lemma NotDetermined(events: seq<Event>, o: seq<Event>, o': seq<Event>, w: Window)
    requires Sorted(o, EventLeq) && Sorted(o', EventLeq) && multiset(o) == multiset(events) == multiset(o')
    requires ReplayedChange(o, w) != ReplayedChange(o', w)
    ensures !Determined(events)
  {
    hide ReplayedChange;
    assert IsOrder(events, o) && IsOrder(events, o');
  }

  lemma WithoutTwo(events: seq<Event>, e: Event, f: Event) returns (others: seq<Event>)
    requires e in events && f in events && e != f
    ensures multiset(others) + multiset{e, f} == multiset(events)
  {
    var i :| 0 <= i < |events| && events[i] == e;
    var without := events[..i] + events[i + 1..];
    WithoutIndex(events, i);
    assert f in multiset(events) && f in multiset(without);
    var j :| 0 <= j < |without| && without[j] == f;
    others := without[..j] + without[j + 1..];
    WithoutIndex(without, j);
  }
}
