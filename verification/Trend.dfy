/** Observed trends (internal/trend/trend.go): Theil-Sen slope and Mann-Kendall consistency.
    `float64` is modelled by `real`, so rounding is not part of this model; instants are integer nanoseconds. */
module Trend {
  import opened Text
  import opened Sorting
  import opened Statistics

  const NANOSECONDS_PER_DAY: real := 86_400_000_000_000.0

  datatype Point = Point(at: int, value: real, evidenceID: int)

  ghost predicate Chronological(points: seq<Point>) {
    forall i, j :: 0 <= i < j < |points| ==> points[i].at < points[j].at
  }

  function Days(p: Point, q: Point): (d: real) { (q.at - p.at) as real / NANOSECONDS_PER_DAY }

  function Slope(p: Point, q: Point): (r: real)
    requires p.at < q.at
    ensures r > 0.0 <==> q.value > p.value
    ensures r < 0.0 <==> q.value < p.value
  {
    SlopeSign(q.value - p.value, Days(p, q));
    (q.value - p.value) / Days(p, q)
  }

  lemma SlopeSign(rise: real, days: real)
    requires days > 0.0
    ensures (rise / days > 0.0 <==> rise > 0.0) && (rise / days < 0.0 <==> rise < 0.0)
  {
    assert rise / days * days == rise;
  }

  // ----- all pairs -----

  /** The slopes from one point to each later one; pairs without elapsed time are skipped. */
  function RowSlopes(p: Point, rest: seq<Point>): (r: seq<real>) {
    if rest == [] then [] else (if p.at < rest[0].at then [Slope(p, rest[0])] else []) + RowSlopes(p, rest[1..])
  }

  function Slopes(points: seq<Point>): (r: seq<real>) {
    if points == [] then [] else RowSlopes(points[0], points[1..]) + Slopes(points[1..])
  }

  function Sign(p: Point, q: Point): (r: int) { if q.value > p.value then 1 else if q.value < p.value then -1 else 0 }

  function RowScore(p: Point, rest: seq<Point>): (r: int) {
    if rest == [] then 0 else Sign(p, rest[0]) + RowScore(p, rest[1..])
  }

  /** Rising pairs minus falling pairs. */
  function Score(points: seq<Point>): (r: int) {
    if points == [] then 0 else RowScore(points[0], points[1..]) + Score(points[1..])
  }

  function Pairs(n: nat): (r: nat) { if n == 0 then 0 else n - 1 + Pairs(n - 1) }

  function SlopeOf(points: seq<Point>): (r: real) { Median(Slopes(points)) }

  function Abs(x: int): (r: nat) { if x < 0 then -x else x }

  function ConsistencyOf(points: seq<Point>): (r: real) {
    if |points| < 2 then 0.0 else PairsPositive(|points|); Abs(Score(points)) as real / Pairs(|points|) as real
  }

  lemma {:induction false} PairsPositive(n: nat)
    ensures 2 * Pairs(n) == n * (n - 1)
    ensures n >= 2 ==> Pairs(n) >= 1
  {
    if n > 0 { PairsPositive(n - 1); }
  }

  // ----- the loops -----

  method TheilSen(points: seq<Point>) returns (r: real)
    ensures r == SlopeOf(points)
  {
    if |points| < 2 {
      assert Slopes(points) == [];
      return 0.0;
    }
    var slopes: seq<real> := [];
    assert points[0..] == points;
    for left := 0 to |points| - 1
      invariant slopes + Slopes(points[left..]) == Slopes(points)
    {
      var row := AppendRow(points, left);
      assert slopes + (row + Slopes(points[left + 1..])) == slopes + row + Slopes(points[left + 1..]);
      slopes := slopes + row;
    }
    assert Slopes(points[|points| - 1..]) == [];
    assert slopes == Slopes(points);
    var value, _ := ComputeMedian(slopes);
    return value;
  }

  /** The inner loop of TheilSen. */
  method AppendRow(points: seq<Point>, left: nat) returns (row: seq<real>)
    requires left < |points|
    ensures row == RowSlopes(points[left], points[left + 1..])
    ensures Slopes(points[left..]) == row + Slopes(points[left + 1..])
  {
    row := [];
    for right := left + 1 to |points|
      invariant row + RowSlopes(points[left], points[right..]) == RowSlopes(points[left], points[left + 1..])
    {
      assert points[right..][1..] == points[right + 1..];
      if points[left].at < points[right].at {
        ghost var slope, more := [Slope(points[left], points[right])], RowSlopes(points[left], points[right + 1..]);
        assert row + (slope + more) == row + slope + more;
        row := row + [Slope(points[left], points[right])];
      }
    }
    assert points[left..][1..] == points[left + 1..];
  }

  method MannKendallConsistency(points: seq<Point>) returns (r: real)
    ensures r == ConsistencyOf(points)
  {
    if |points| < 2 { return 0.0; }
    var pairs, score := 0, 0;
    for left := 0 to |points| - 1
      invariant score + Score(points[left..]) == Score(points)
      invariant pairs + Pairs(|points| - left) == Pairs(|points|)
    {
      ghost var before := pairs;
      var row := points[left..][1..];
      assert row == points[left + 1..];
      for right := left + 1 to |points|
        invariant score + RowScore(points[left], points[right..]) + Score(row) == Score(points)
        invariant pairs == before + right - left - 1
      {
        assert points[right..][1..] == points[right + 1..];
        pairs := pairs + 1;
        if points[right].value > points[left].value { score := score + 1; }
        else if points[right].value < points[left].value { score := score - 1; }
      }
    }
    PairsPositive(|points|);
    return Abs(score) as real / pairs as real;
  }

  // ----- both methods count the same pairs -----

  lemma {:induction false} RowSides(p: Point, rest: seq<Point>)
    requires forall i :: 0 <= i < |rest| ==> p.at < rest[i].at
    ensures |RowSlopes(p, rest)| == |rest|
    ensures Above(RowSlopes(p, rest), 0.0) - Below(RowSlopes(p, rest), 0.0) == RowScore(p, rest)
  {
    if rest != [] {
      RowSides(p, rest[1..]);
      SidesConcat([Slope(p, rest[0])], RowSlopes(p, rest[1..]), 0.0);
    }
  }

  lemma {:induction false} SlopeSides(points: seq<Point>)
    requires Chronological(points)
    ensures |Slopes(points)| == Pairs(|points|)
    ensures Above(Slopes(points), 0.0) - Below(Slopes(points), 0.0) == Score(points)
  {
    if points != [] {
      SlopeSides(points[1..]);
      RowSides(points[0], points[1..]);
      SidesConcat(RowSlopes(points[0], points[1..]), Slopes(points[1..]), 0.0);
    }
  }

  /** A consistency of at least one half forces a nonzero slope with the sign of the pair score. */
  lemma HalfForcesSlope(points: seq<Point>)
    requires Chronological(points) && |points| >= 2 && ConsistencyOf(points) >= 0.5
    ensures Score(points) > 0 ==> SlopeOf(points) > 0.0
    ensures Score(points) < 0 ==> SlopeOf(points) < 0.0
    ensures Score(points) != 0
  {
    PairsPositive(|points|);
    SlopeSides(points);
    var pairs, score := Pairs(|points|), Score(points);
    assert 2 * Abs(score) >= pairs by { HalfOf(Abs(score), pairs); }
    if score > 0 { MajorityAbove(Slopes(points), 0.0); }
    if score < 0 { MajorityBelow(Slopes(points)); }
  }

  lemma HalfOf(score: nat, pairs: nat)
    requires pairs > 0 && score as real / pairs as real >= 0.5
    ensures 2 * score >= pairs
  {
    assert score as real / pairs as real * pairs as real == score as real;
    assert score as real >= 0.5 * pairs as real;
  }

  /** A nonzero slope never contradicts the pair score, whatever the consistency. */
  lemma SlopeAgreesWithScore(points: seq<Point>)
    requires Chronological(points) && |points| >= 2
    ensures SlopeOf(points) > 0.0 ==> Score(points) >= 0
    ensures SlopeOf(points) < 0.0 ==> Score(points) <= 0
  {
    PairsPositive(|points|);
    SlopeSides(points);
    if SlopeOf(points) > 0.0 { MedianAbove(Slopes(points), 0.0); }
    if SlopeOf(points) < 0.0 { MedianBelow(Slopes(points)); }
  }

  // ----- CalculateObserved -----

  datatype Direction = Increase | Decrease | Stable | InsufficientData

  datatype Definition = Definition(version: string, minimumPoints: int, maximumPoints: int, consistency: real)

  /** Instant 0 stands for the unset time. */
  datatype Window = Window(from: int, to: int, cutoff: int) {
    predicate Valid() { from != 0 && to != 0 && cutoff != 0 && from < to <= cutoff }
  }

  datatype Observed = Observed(direction: Direction, magnitude: Option<real>, eligible: int, observed: int, evidenceIDs: seq<int>)

  datatype Error = ErrInvalid

  predicate ValidRequest(projectID: int, definition: Definition, metricName: string, metricVersion: string,
                         observation: Window, baseline: Window)
  {
    && projectID > 0 && !Blank(metricName) && !Blank(metricVersion) && !Blank(definition.version)
    && 3 <= definition.minimumPoints <= definition.maximumPoints && 0.0 < definition.consistency <= 1.0
    && observation.Valid() && baseline.Valid() && observation.cutoff == baseline.cutoff && baseline.to <= observation.from
  }

  predicate AtLeq(p: Point, q: Point) { p.at <= q.at }

  ghost predicate ValidPoints(ordered: seq<Point>, observation: Window, baseline: Window) {
    Chronological(ordered) && forall i :: 0 <= i < |ordered| ==> baseline.from <= ordered[i].at < observation.to
  }

  function Evidence(ordered: seq<Point>): (ids: seq<int>) {
    if ordered == [] then []
    else Evidence(ordered[..|ordered| - 1]) + if ordered[|ordered| - 1].evidenceID > 0 then [ordered[|ordered| - 1].evidenceID] else []
  }

  function DirectionOf(threshold: real, ordered: seq<Point>): (d: Direction) {
    if ConsistencyOf(ordered) < threshold then Stable
    else if SlopeOf(ordered) > 0.0 then Increase
    else if SlopeOf(ordered) < 0.0 then Decrease
    else Stable
  }

  function Publish(definition: Definition, ordered: seq<Point>): (r: Observed) {
    var eligible := if definition.minimumPoints > |ordered| then definition.minimumPoints else |ordered|;
    if |ordered| < definition.minimumPoints
    then Observed(InsufficientData, None, eligible, |ordered|, Evidence(ordered))
    else Observed(DirectionOf(definition.consistency, ordered), Some(SlopeOf(ordered)), eligible, |ordered|, Evidence(ordered))
  }

  function ByTime(points: seq<Point>): (r: seq<Point>)
    ensures Sorted(r, AtLeq) && multiset(r) == multiset(points)
  {
    assert TotalPreorder(AtLeq);
    Sort(points, AtLeq)
  }

  /** Points with distinct instants have one chronological order. */
  lemma OneChronology(a: seq<Point>, b: seq<Point>)
    requires Chronological(a) && Sorted(b, AtLeq) && multiset(a) == multiset(b)
    ensures a == b
  {
    assert TotalPreorder(AtLeq);
    forall x, y | x in a && y in a && AtLeq(x, y) && AtLeq(y, x) ensures x == y {
      var i :| 0 <= i < |a| && a[i] == x;
      var j :| 0 <= j < |a| && a[j] == y;
    }
    SortedUnique(a, b, AtLeq);
  }

  /** The validation loop over the sorted samples. */
  method CheckPoints(ordered: seq<Point>, observation: Window, baseline: Window) returns (ok: bool, evidenceIDs: seq<int>)
    ensures ok <==> ValidPoints(ordered, observation, baseline)
    ensures ok ==> evidenceIDs == Evidence(ordered)
  {
    evidenceIDs := [];
    hide ValidPoints, Evidence;
    NoPoints(observation, baseline);
    for i := 0 to |ordered|
      invariant ValidPoints(ordered[..i], observation, baseline)
      invariant evidenceIDs == Evidence(ordered[..i])
    {
      var p := ordered[i];
      if !(p.at < observation.to) || p.at < baseline.from || (i > 0 && !(ordered[i - 1].at < p.at)) {
        BadPoint(ordered, i, observation, baseline);
        return false, [];
      }
      TakePoint(ordered, i, observation, baseline);
      if p.evidenceID > 0 { evidenceIDs := evidenceIDs + [p.evidenceID]; }
    }
    assert ordered[..|ordered|] == ordered;
    return true, evidenceIDs;
  }

  lemma NoPoints(observation: Window, baseline: Window)
    ensures ValidPoints([], observation, baseline) && Evidence([]) == []
  {
  }

  lemma TakePoint(ordered: seq<Point>, i: nat, observation: Window, baseline: Window)
    requires i < |ordered| && ValidPoints(ordered[..i], observation, baseline)
    requires baseline.from <= ordered[i].at < observation.to && (i > 0 ==> ordered[i - 1].at < ordered[i].at)
    ensures ValidPoints(ordered[..i + 1], observation, baseline)
    ensures Evidence(ordered[..i + 1]) == if ordered[i].evidenceID > 0 then Evidence(ordered[..i]) + [ordered[i].evidenceID] else Evidence(ordered[..i])
  {
    hide Evidence;
    AppendPoint(ordered[..i], ordered[i], observation, baseline);
    AppendEvidence(ordered[..i], ordered[i]);
    assert ordered[..i + 1] == ordered[..i] + [ordered[i]];
    assert Evidence(ordered[..i]) + [] == Evidence(ordered[..i]);
  }

  lemma BadPoint(ordered: seq<Point>, i: nat, observation: Window, baseline: Window)
    requires i < |ordered|
    requires !(ordered[i].at < observation.to) || ordered[i].at < baseline.from || (i > 0 && !(ordered[i - 1].at < ordered[i].at))
    ensures !ValidPoints(ordered, observation, baseline)
  {
  }

  lemma AppendPoint(seen: seq<Point>, p: Point, observation: Window, baseline: Window)
    requires ValidPoints(seen, observation, baseline) && baseline.from <= p.at < observation.to
    requires seen != [] ==> seen[|seen| - 1].at < p.at
    ensures ValidPoints(seen + [p], observation, baseline)
  {
    forall i | 0 <= i < |seen| ensures seen[i].at < p.at { assert i < |seen| - 1 ==> seen[i].at < seen[|seen| - 1].at; }
  }

  lemma AppendEvidence(seen: seq<Point>, p: Point)
    ensures Evidence(seen + [p]) == Evidence(seen) + if p.evidenceID > 0 then [p.evidenceID] else []
  {
    assert (seen + [p])[..|seen|] == seen;
  }

  method CalculateObserved(projectID: int, definition: Definition, metricName: string, metricVersion: string,
                           observation: Window, baseline: Window, points: seq<Point>)
    returns (r: Result<Observed, Error>)
    ensures r.Ok? <==>
              && projectID > 0 && !Blank(metricName) && !Blank(metricVersion) && !Blank(definition.version)
              && 3 <= definition.minimumPoints <= definition.maximumPoints && 0.0 < definition.consistency <= 1.0
              && observation.from != 0 && observation.to != 0 && observation.cutoff != 0
              && baseline.from != 0 && baseline.to != 0 && baseline.cutoff != 0
              && baseline.from < baseline.to <= observation.from < observation.to <= observation.cutoff == baseline.cutoff
              && |points| <= definition.maximumPoints && ValidPoints(ByTime(points), observation, baseline)
    ensures r.Ok? ==> r.value == Publish(definition, ByTime(points)) && PublishedAs(definition, ByTime(points), |points|, r.value)
  {
    if !ValidRequest(projectID, definition, metricName, metricVersion, observation, baseline)
       || |points| > definition.maximumPoints { return Err(ErrInvalid); }
    assert TotalPreorder(AtLeq);
    hide ConsistencyOf, SlopeOf, Evidence, ByTime, Blank, ValidPoints, Publish, PublishedAs;
    var ordered := SortFunc(points, AtLeq);
    var ok, evidenceIDs := CheckPoints(ordered, observation, baseline);
    SortedByTime(points, ordered, observation, baseline);
    if !ok { return Err(ErrInvalid); }
    var observed := Observe(definition, ordered, evidenceIDs);
    PublishIs(definition, ordered);
    return Ok(observed);
  }

  /** The tail of CalculateObserved, after its samples were accepted. */
  method Observe(definition: Definition, ordered: seq<Point>, evidenceIDs: seq<int>) returns (r: Observed)
    requires evidenceIDs == Evidence(ordered)
    ensures r == Publish(definition, ordered)
  {
    hide ConsistencyOf, SlopeOf, Evidence;
    var eligible := if definition.minimumPoints > |ordered| then definition.minimumPoints else |ordered|;
    if |ordered| < definition.minimumPoints {
      return Observed(InsufficientData, None, eligible, |ordered|, evidenceIDs);
    }
    var slope := TheilSen(ordered);
    var consistency := MannKendallConsistency(ordered);
    var direction := if consistency < definition.consistency then Stable
                     else if slope > 0.0 then Increase else if slope < 0.0 then Decrease else Stable;
    return Observed(direction, Some(slope), eligible, |ordered|, evidenceIDs);
  }

  /** What a published trend says: below the minimum nothing but the counts; otherwise the slope, as an increase or a
      decrease if and only if the consistency reaches the threshold and the slope has that sign. */
  ghost predicate PublishedAs(definition: Definition, ordered: seq<Point>, count: nat, r: Observed) {
    && r.observed == count && r.eligible >= count && r.eligible >= definition.minimumPoints
    && (r.eligible == count || r.eligible == definition.minimumPoints)
    && (r.direction == InsufficientData <==> count < definition.minimumPoints)
    && (r.magnitude == None <==> count < definition.minimumPoints)
    && (count >= definition.minimumPoints ==>
          && r.magnitude == Some(SlopeOf(ordered))
          && (r.direction == Increase <==> ConsistencyOf(ordered) >= definition.consistency && SlopeOf(ordered) > 0.0)
          && (r.direction == Decrease <==> ConsistencyOf(ordered) >= definition.consistency && SlopeOf(ordered) < 0.0)
          && (r.direction == Stable <==> ConsistencyOf(ordered) < definition.consistency || SlopeOf(ordered) == 0.0))
    && r.evidenceIDs == Evidence(ordered)
  }

  lemma PublishIs(definition: Definition, ordered: seq<Point>)
    ensures PublishedAs(definition, ordered, |ordered|, Publish(definition, ordered))
  {
    hide ConsistencyOf, SlopeOf, Evidence;
  }

  /** Whatever order the sort picks, accepted samples have one. */
  lemma SortedByTime(points: seq<Point>, ordered: seq<Point>, observation: Window, baseline: Window)
    requires Sorted(ordered, AtLeq) && multiset(ordered) == multiset(points)
    ensures |ordered| == |points|
    ensures ValidPoints(ordered, observation, baseline) <==> ValidPoints(ByTime(points), observation, baseline)
    ensures ValidPoints(ordered, observation, baseline) ==> ordered == ByTime(points)
  {
    assert |multiset(ordered)| == |ordered| && |multiset(points)| == |points|;
    hide ByTime;
    if Chronological(ByTime(points)) { OneChronology(ByTime(points), ordered); }
    if Chronological(ordered) { OneChronology(ordered, ByTime(points)); }
  }

  /** In other words: every sample lies in the windows and no two share an instant. */
  lemma AcceptedPoints(points: seq<Point>, observation: Window, baseline: Window)
    ensures ValidPoints(ByTime(points), observation, baseline) <==>
            && (forall i :: 0 <= i < |points| ==> baseline.from <= points[i].at < observation.to)
            && (forall i, j :: 0 <= i < j < |points| ==> points[i].at != points[j].at)
  {
    hide ByTime;
    var ordered := ByTime(points);
    forall p ensures p in ordered <==> p in points { assert p in ordered <==> p in multiset(ordered); assert p in points <==> p in multiset(points); }
    if Chronological(ordered) { InstantsDiffer(ordered, points); }
    if forall i, j :: 0 <= i < j < |points| ==> points[i].at != points[j].at { InstantsOrdered(points, ordered); }
    assert forall i :: 0 <= i < |points| ==> points[i] in ordered;
    assert forall i :: 0 <= i < |ordered| ==> ordered[i] in points;
  }

  lemma InstantsDiffer(ordered: seq<Point>, points: seq<Point>)
    requires Chronological(ordered) && multiset(ordered) == multiset(points)
    ensures forall i, j :: 0 <= i < j < |points| ==> points[i].at != points[j].at
  {
    PermutationDistinct(ordered, points);
    forall i, j | 0 <= i < j < |points| ensures points[i].at != points[j].at {
      assert points[i] in ordered && points[j] in ordered;
      var k :| 0 <= k < |ordered| && ordered[k] == points[i];
      var m :| 0 <= m < |ordered| && ordered[m] == points[j];
      assert k != m;
    }
  }

  lemma InstantsOrdered(points: seq<Point>, ordered: seq<Point>)
    requires (forall i, j :: 0 <= i < j < |points| ==> points[i].at != points[j].at) && multiset(points) == multiset(ordered)
    requires Sorted(ordered, AtLeq)
    ensures Chronological(ordered)
  {
    PermutationDistinct(points, ordered);
    forall i, j | 0 <= i < j < |ordered| ensures ordered[i].at < ordered[j].at {
      assert AtLeq(ordered[i], ordered[j]) && ordered[i] in points && ordered[j] in points;
      var k :| 0 <= k < |points| && points[k] == ordered[i];
      var m :| 0 <= m < |points| && points[m] == ordered[j];
      assert k != m;
    }
  }

  /** The evidence is that of the samples in turn, without those that have none. */
  lemma {:induction false} EvidenceConcat(a: seq<Point>, b: seq<Point>)
    ensures Evidence(a + b) == Evidence(a) + Evidence(b)
    ensures |a| == 1 ==> Evidence(a) == if a[0].evidenceID > 0 then [a[0].evidenceID] else []
  {
    if |a| == 1 { assert a[..0] == [] && Evidence(a[..0]) == []; }
    if b == [] {
      assert a + b == a;
    } else {
      assert (a + b)[..|a + b| - 1] == a + b[..|b| - 1];
      EvidenceConcat(a, b[..|b| - 1]);
    }
  }

  /** Slopes are per day of 24 hours. */
  lemma SlopePerDay(at: int, days: int, value: real, rise: real)
    requires days > 0
    ensures Slope(Point(at, value, 0), Point(at + days * 24 * 60 * 60 * 1_000_000_000, value + rise, 0)) == rise / days as real
  {
    var p, q := Point(at, value, 0), Point(at + days * 24 * 60 * 60 * 1_000_000_000, value + rise, 0);
    assert (q.at - p.at) as real == days as real * NANOSECONDS_PER_DAY;
    assert Days(p, q) == days as real;
  }

  /** The order in which the samples arrive does not matter. */
  lemma InputOrderIrrelevant(points: seq<Point>, other: seq<Point>, observation: Window, baseline: Window)
    requires multiset(points) == multiset(other)
    ensures ValidPoints(ByTime(points), observation, baseline) <==> ValidPoints(ByTime(other), observation, baseline)
    ensures ValidPoints(ByTime(points), observation, baseline) ==> ByTime(points) == ByTime(other)
  {
    if Chronological(ByTime(points)) { OneChronology(ByTime(points), ByTime(other)); }
    if Chronological(ByTime(other)) { OneChronology(ByTime(other), ByTime(points)); }
  }

  /** A published increase or decrease agrees with both methods, for every threshold the definition may carry. */
  lemma PublishedDirectionAgrees(threshold: real, ordered: seq<Point>)
    requires Chronological(ordered) && |ordered| >= 2 && threshold > 0.0
    ensures DirectionOf(threshold, ordered) == Increase ==> SlopeOf(ordered) > 0.0 && Score(ordered) > 0
    ensures DirectionOf(threshold, ordered) == Decrease ==> SlopeOf(ordered) < 0.0 && Score(ordered) < 0
  {
    SlopeAgreesWithScore(ordered);
    if Score(ordered) == 0 { ZeroScore(ordered); }
  }

  lemma ZeroScore(points: seq<Point>)
    requires Score(points) == 0
    ensures ConsistencyOf(points) == 0.0
  {
    if |points| >= 2 {
      PairsPositive(|points|);
      assert 0.0 / Pairs(|points|) as real == 0.0;
    }
  }

  /** From one half on, a consistent series is never published as stable: the zero-slope branch is dead. */
  lemma ConsistentMeansDirected(threshold: real, ordered: seq<Point>)
    requires Chronological(ordered) && |ordered| >= 2 && threshold >= 0.5 && ConsistencyOf(ordered) >= threshold
    ensures DirectionOf(threshold, ordered) == if Score(ordered) > 0 then Increase else Decrease
  {
    HalfForcesSlope(ordered);
  }

  // ----- one half is the exact bound -----

  /** A step: `low` samples of value 0 followed by `high` samples of value 1, one nanosecond apart. */
  function Levels(at: int, low: nat, high: nat): (points: seq<Point>)
    ensures |points| == low + high
    ensures forall i :: 0 <= i < low + high ==> points[i].at == at + i && points[i].value == if i < low then 0.0 else 1.0
    decreases low + high
  {
    if low > 0 then [Point(at, 0.0, 0)] + Levels(at + 1, low - 1, high)
    else if high > 0 then [Point(at, 1.0, 0)] + Levels(at + 1, low, high - 1)
    else []
  }

  lemma {:induction false} LevelRow(p: Point, rest: seq<Point>, low: nat)
    requires low <= |rest| && p.value == 0.0
    requires forall i :: 0 <= i < |rest| ==> rest[i].value == if i < low then 0.0 else 1.0
    ensures RowScore(p, rest) == |rest| - low
  {
    if rest != [] { LevelRow(p, rest[1..], if low > 0 then low - 1 else 0); }
  }

  lemma {:induction false} FlatRow(p: Point, rest: seq<Point>)
    requires forall i :: 0 <= i < |rest| ==> rest[i].value == p.value
    ensures RowScore(p, rest) == 0
  {
    if rest != [] { FlatRow(p, rest[1..]); }
  }

  lemma {:induction false} LevelScore(at: int, low: nat, high: nat)
    ensures Score(Levels(at, low, high)) == low * high
    decreases low + high
  {
    var points := Levels(at, low, high);
    if low > 0 {
      assert points[1..] == Levels(at + 1, low - 1, high);
      LevelRow(points[0], points[1..], low - 1);
      LevelScore(at + 1, low - 1, high);
      assert low * high == high + (low - 1) * high;
    } else if high > 0 {
      assert points[1..] == Levels(at + 1, low, high - 1);
      FlatRow(points[0], points[1..]);
      LevelScore(at + 1, low, high - 1);
    }
  }

  lemma {:induction false} RisingRow(p: Point, rest: seq<Point>)
    requires forall i :: 0 <= i < |rest| ==> p.value <= rest[i].value
    ensures Below(RowSlopes(p, rest), 0.0) == 0
  {
    if rest != [] {
      RisingRow(p, rest[1..]);
      assert [] + RowSlopes(p, rest[1..]) == RowSlopes(p, rest[1..]);
      if p.at < rest[0].at { SidesConcat([Slope(p, rest[0])], RowSlopes(p, rest[1..]), 0.0); }
    }
  }

  lemma {:induction false} RisingSlopes(points: seq<Point>)
    requires forall i, j :: 0 <= i < j < |points| ==> points[i].value <= points[j].value
    ensures Below(Slopes(points), 0.0) == 0
  {
    if points != [] {
      RisingRow(points[0], points[1..]);
      RisingSlopes(points[1..]);
      SidesConcat(RowSlopes(points[0], points[1..]), Slopes(points[1..]), 0.0);
    }
  }

  /** A step with fewer rising pairs than level ones has slope zero. */
  lemma LevelSlopeZero(low: nat, high: nat, rising: nat)
    requires low + high >= 2 && rising == low * high && 2 * rising < Pairs(low + high)
    ensures SlopeOf(Levels(0, low, high)) == 0.0
  {
    var points := Levels(0, low, high);
    LevelScore(0, low, high);
    SlopeSides(points);
    RisingSlopes(points);
    MedianZero(Slopes(points));
  }

  lemma SplitSizes(q: nat, s: nat)
    requires s >= 2 && q == s * s
    ensures (2 * q - s - 1) * (2 * q + s + 1) == 4 * (q * q) - q - 2 * s - 1
    ensures q >= 2 * s && q * q >= q
  {
    assert (2 * q - s - 1) * (2 * q + s + 1) == (2 * q) * (2 * q) - (s + 1) * (s + 1);
    assert (s + 1) * (s + 1) == q + 2 * s + 1;
  }

  /** A step of n = 4s^2 samples, split at distance s + 1 from the middle, has just under half its pairs rising. */
  lemma JustBelowHalf(s: nat) returns (low: nat, high: nat, rising: nat)
    requires s >= 2
    ensures rising == low * high && low + high >= s && 2 * rising == Pairs(low + high) - 2 * (2 * s + 1)
    ensures Pairs(low + high) >= 2 * s * (2 * s + 1)
  {
    var q := s * s;
    SplitSizes(q, s);
    FourfoldPairs(q);
    assert 2 * s * (2 * s + 1) == 4 * q + 2 * s;
    var square := q * q;
    low, high := 2 * q - s - 1, 2 * q + s + 1;
    rising := 4 * square - q - 2 * s - 1;
  }

  lemma FourfoldPairs(q: nat)
    ensures Pairs(4 * q) == 8 * (q * q) - 2 * q
  {
    PairsPositive(4 * q);
    assert (4 * q) * (4 * q - 1) == 16 * (q * q) - 4 * q;
  }

  lemma ScaleUp(x: real, factor: real)
    requires x >= 0.0 && factor >= 1.0
    ensures x * factor >= x
  {
    assert x * (factor - 1.0) >= 0.0;
  }

  lemma RatioAbove(rising: nat, pairs: nat, s: nat, threshold: real)
    requires 2 * rising == pairs - 2 * (2 * s + 1) && pairs >= 2 * s * (2 * s + 1) && pairs > 0
    requires (0.5 - threshold) * s as real >= 1.0 && threshold < 0.5
    ensures rising as real / pairs as real >= threshold
  {
    var h, w := 0.5 - threshold, (2 * s + 1) as real;
    assert (2 * s * (2 * s + 1)) as real == 2.0 * s as real * w;
    assert h * pairs as real >= h * (2.0 * s as real * w);
    assert h * (2.0 * s as real * w) == 2.0 * w * (h * s as real);
    ScaleUp(2.0 * w, h * s as real);
    assert rising as real == 0.5 * pairs as real - w;
    assert rising as real >= threshold * pairs as real;
    assert rising as real / pairs as real * pairs as real == rising as real;
  }

  lemma LargeEnough(h: real, minimum: nat) returns (s: nat)
    requires h > 0.0
    ensures s >= 2 && s >= minimum && h * s as real >= 1.0
  {
    var k := (1.0 / h).Floor + 1;
    s := if k < 2 then 2 + minimum else k + minimum;
    assert s as real >= 1.0 / h;
    assert h * (s as real - 1.0 / h) >= 0.0;
    assert h * (1.0 / h) == 1.0;
  }

  lemma StepSizes(threshold: real, minimum: nat) returns (low: nat, high: nat, rising: nat)
    requires threshold < 0.5
    ensures rising == low * high && low + high >= 2 && low + high >= minimum
    ensures 2 * rising < Pairs(low + high) && rising as real / Pairs(low + high) as real >= threshold
  {
    var s := LargeEnough(0.5 - threshold, minimum);
    low, high, rising := JustBelowHalf(s);
    RatioAbove(rising, Pairs(low + high), s, threshold);
  }

  /** Below one half, arbitrarily long series pass the test and still have slope zero. */
  lemma BelowHalfZeroSlope(threshold: real, minimum: nat) returns (points: seq<Point>)
    requires threshold < 0.5
    ensures Chronological(points) && |points| >= minimum && |points| >= 2
    ensures ConsistencyOf(points) >= threshold && SlopeOf(points) == 0.0
    ensures forall i :: 0 <= i < |points| ==> points[i].at == i
  {
    var low, high, rising := StepSizes(threshold, minimum);
    points := Levels(0, low, high);
    LevelSlopeZero(low, high, rising);
    LevelConsistency(low, high, rising);
  }

  lemma LevelConsistency(low: nat, high: nat, rising: nat)
    requires low + high >= 2 && rising == low * high
    ensures Pairs(low + high) > 0
    ensures ConsistencyOf(Levels(0, low, high)) == rising as real / Pairs(low + high) as real
  {
    PairsPositive(low + high);
    LevelScore(0, low, high);
  }

  /** A call of CalculateObserved. */
  datatype Inquiry = Inquiry(projectID: int, definition: Definition, metricName: string, metricVersion: string,
                             observation: Window, baseline: Window)

  /** The samples, in chronological order, get the call past all refusals and the consistency test. */
  ghost predicate Passes(q: Inquiry, points: seq<Point>) {
    && ValidRequest(q.projectID, q.definition, q.metricName, q.metricVersion, q.observation, q.baseline)
    && ValidPoints(points, q.observation, q.baseline)
    && q.definition.minimumPoints <= |points| <= q.definition.maximumPoints
    && ConsistencyOf(points) >= q.definition.consistency
  }

  /** No call under any definition with that threshold reaches the zero-slope branch. */
  ghost predicate BranchDead(threshold: real) {
    forall q, points :: Passes(q, points) && q.definition.consistency == threshold ==> SlopeOf(points) != 0.0
  }

  /** The zero-slope branch is unreachable for every definition with a threshold exactly when the threshold is at
      least one half, or not one that a definition may carry. */
  lemma HalfIsExact(threshold: real)
    ensures BranchDead(threshold) <==> threshold >= 0.5 || threshold <= 0.0
  {
    if threshold >= 0.5 {
      forall q, points | Passes(q, points) && q.definition.consistency == threshold ensures SlopeOf(points) != 0.0 {
        HalfForcesSlope(points);
      }
    } else if threshold > 0.0 {
      var q, points := ZeroSlopeCall(threshold, 3);
      assert Passes(q, points) && q.definition.consistency == threshold && SlopeOf(points) == 0.0;
    }
  }

  /** A call that reaches the branch, with as many samples as one likes. */
  lemma ZeroSlopeCall(threshold: real, minimum: nat) returns (q: Inquiry, points: seq<Point>)
    requires 0.0 < threshold < 0.5 && minimum >= 3
    ensures Passes(q, points) && q.definition.consistency == threshold && |points| >= minimum && SlopeOf(points) == 0.0
  {
    hide ConsistencyOf, SlopeOf;
    points := BelowHalfZeroSlope(threshold, minimum);
    var end := |points| + 1;
    q := Inquiry(1, Definition("v", 3, |points|, threshold), "m", "v", Window(-1, end, end), Window(-2, -1, end));
    assert !Blank("v") && !Blank("m");
  }

  // ----- symmetry -----

  function Revalue(p: Point, f: real -> real): (r: Point) { p.(value := f(p.value)) }

  /** The same instants with every value passed through f. */
  function Revalued(points: seq<Point>, f: real -> real): (r: seq<Point>)
    ensures |r| == |points| && forall i :: 0 <= i < |points| ==> r[i] == Revalue(points[i], f)
  {
    seq(|points|, i requires 0 <= i < |points| => Revalue(points[i], f))
  }

  lemma RevaluedTail(points: seq<Point>, f: real -> real)
    requires points != []
    ensures Revalued(points, f)[0] == Revalue(points[0], f) && Revalued(points, f)[1..] == Revalued(points[1..], f)
  {
  }

  /** Passing values through f passes slopes through g. */
  ghost predicate Lifts(f: real -> real, g: real -> real) {
    forall p: Point, q: Point {:trigger Revalue(p, f), Revalue(q, f)} :: p.at < q.at ==> Slope(Revalue(p, f), Revalue(q, f)) == g(Slope(p, q))
  }

  lemma {:induction false} RowRevalued(p: Point, rest: seq<Point>, f: real -> real, g: real -> real)
    requires Lifts(f, g)
    ensures RowSlopes(Revalue(p, f), Revalued(rest, f)) == Mapped(RowSlopes(p, rest), g)
  {
    if rest != [] {
      RevaluedTail(rest, f);
      RowRevalued(p, rest[1..], f, g);
      if p.at < rest[0].at { MappedConcat([Slope(p, rest[0])], RowSlopes(p, rest[1..]), g); }
    }
  }

  lemma {:induction false} SlopesRevalued(points: seq<Point>, f: real -> real, g: real -> real)
    requires Lifts(f, g)
    ensures Slopes(Revalued(points, f)) == Mapped(Slopes(points), g)
  {
    if points != [] {
      RevaluedTail(points, f);
      SlopesRevalued(points[1..], f, g);
      RowRevalued(points[0], points[1..], f, g);
      MappedConcat(RowSlopes(points[0], points[1..]), Slopes(points[1..]), g);
    }
  }

  ghost predicate Keeps(f: real -> real, up: bool) {
    forall x, y :: x < y ==> if up then f(x) < f(y) else f(y) < f(x)
  }

  function Signed(x: int, up: bool): (r: int) { if up then x else -x }

  lemma {:induction false} RowScoreRevalued(p: Point, rest: seq<Point>, f: real -> real, up: bool)
    requires Keeps(f, up)
    ensures RowScore(Revalue(p, f), Revalued(rest, f)) == Signed(RowScore(p, rest), up)
  {
    if rest != [] {
      RevaluedTail(rest, f);
      RowScoreRevalued(p, rest[1..], f, up);
      assert Sign(Revalue(p, f), Revalue(rest[0], f)) == Signed(Sign(p, rest[0]), up);
    }
  }

  lemma {:induction false} ScoreRevalued(points: seq<Point>, f: real -> real, up: bool)
    requires Keeps(f, up)
    ensures Score(Revalued(points, f)) == Signed(Score(points), up)
  {
    if points != [] {
      RevaluedTail(points, f);
      ScoreRevalued(points[1..], f, up);
      RowScoreRevalued(points[0], points[1..], f, up);
    }
  }

  lemma AffineLifts(p: Point, q: Point, a: real, b: real)
    requires p.at < q.at
    ensures Slope(Revalue(p, Affine(a, b)), Revalue(q, Affine(a, b))) == Affine(a, 0.0)(Slope(p, q))
  {
    var rise, days := q.value - p.value, Days(p, q);
    assert (a * q.value + b) - (a * p.value + b) == a * rise;
    Divide(a, rise, days);
  }

  lemma Divide(a: real, rise: real, days: real)
    requires days != 0.0
    ensures a * rise / days == a * (rise / days)
  {
  }

  lemma AffineKeeps(a: real, b: real, x: real, y: real)
    requires a != 0.0 && x < y
    ensures if a > 0.0 then Affine(a, b)(x) < Affine(a, b)(y) else Affine(a, b)(y) < Affine(a, b)(x)
  {
    if a > 0.0 { assert a * (y - x) > 0.0; } else { assert -a * (y - x) > 0.0; }
  }

  function Flip(d: Direction): (r: Direction) {
    match d case Increase => Decrease case Decrease => Increase case Stable => Stable case InsufficientData => InsufficientData
  }

  /** Scaling and shifting the values scales the slope and keeps the consistency; a negative factor turns
      increase into decrease and back, a positive one keeps the direction. */
  lemma TrendTransforms(points: seq<Point>, a: real, b: real, threshold: real)
    requires a != 0.0
    ensures var image := Revalued(points, Affine(a, b));
            && SlopeOf(image) == a * SlopeOf(points)
            && ConsistencyOf(image) == ConsistencyOf(points)
            && DirectionOf(threshold, image) == if a > 0.0 then DirectionOf(threshold, points) else Flip(DirectionOf(threshold, points))
  {
    var image := Revalued(points, Affine(a, b));
    SlopeTransforms(points, a, b);
    AffineScore(points, a, b);
    ConsistencyFromScore(image, points);
    DirectionFromSigns(threshold, image, points, a > 0.0);
  }

  lemma SlopeTransforms(points: seq<Point>, a: real, b: real)
    ensures SlopeOf(Revalued(points, Affine(a, b))) == a * SlopeOf(points)
    ensures SameSigns(a, SlopeOf(points), SlopeOf(Revalued(points, Affine(a, b))))
  {
    AffineSlope(points, a, b);
    AffineZero(a, SlopeOf(points));
    ProductSigns(a, SlopeOf(points), SlopeOf(Revalued(points, Affine(a, b))));
  }

  predicate SameSigns(a: real, x: real, y: real) {
    && (a > 0.0 ==> (y > 0.0 <==> x > 0.0) && (y < 0.0 <==> x < 0.0))
    && (a < 0.0 ==> (y > 0.0 <==> x < 0.0) && (y < 0.0 <==> x > 0.0))
  }

  lemma ProductSigns(a: real, x: real, y: real)
    requires y == a * x
    ensures SameSigns(a, x, y)
  {
  }

  lemma DirectionFromSigns(threshold: real, image: seq<Point>, points: seq<Point>, up: bool)
    requires ConsistencyOf(image) == ConsistencyOf(points)
    requires SlopeOf(image) > 0.0 <==> if up then SlopeOf(points) > 0.0 else SlopeOf(points) < 0.0
    requires SlopeOf(image) < 0.0 <==> if up then SlopeOf(points) < 0.0 else SlopeOf(points) > 0.0
    ensures DirectionOf(threshold, image) == if up then DirectionOf(threshold, points) else Flip(DirectionOf(threshold, points))
  {
  }

  lemma AffineSlope(points: seq<Point>, a: real, b: real)
    ensures SlopeOf(Revalued(points, Affine(a, b))) == Affine(a, 0.0)(SlopeOf(points))
  {
    var f, g := Affine(a, b), Affine(a, 0.0);
    assert Slopes(Revalued(points, f)) == Mapped(Slopes(points), g) by {
      forall p: Point, q: Point | p.at < q.at ensures Slope(Revalue(p, f), Revalue(q, f)) == g(Slope(p, q)) { AffineLifts(p, q, a, b); }
      SlopesRevalued(points, f, g);
    }
    if Slopes(points) != [] { MedianAffine(Slopes(points), a, 0.0); } else { AffineZero(a, 0.0); }
  }

  lemma AffineZero(a: real, x: real)
    ensures Affine(a, 0.0)(x) == a * x
  {
  }

  lemma AffineScore(points: seq<Point>, a: real, b: real)
    requires a != 0.0
    ensures Score(Revalued(points, Affine(a, b))) == Signed(Score(points), a > 0.0)
  {
    var f := Affine(a, b);
    forall x, y | x < y ensures if a > 0.0 then f(x) < f(y) else f(y) < f(x) { AffineKeeps(a, b, x, y); }
    ScoreRevalued(points, f, a > 0.0);
  }

  lemma ConsistencyFromScore(a: seq<Point>, b: seq<Point>)
    requires |a| == |b| && Abs(Score(a)) == Abs(Score(b))
    ensures ConsistencyOf(a) == ConsistencyOf(b)
  {
    if |a| >= 2 { PairsPositive(|a|); }
  }

  // ----- affine and monotone series -----

  lemma {:induction false} AffineRow(p: Point, rest: seq<Point>, slope: real)
    requires forall i :: 0 <= i < |rest| ==> rest[i].value == p.value + slope * Days(p, rest[i])
    ensures forall i :: 0 <= i < |RowSlopes(p, rest)| ==> RowSlopes(p, rest)[i] == slope
  {
    if rest != [] {
      AffineRow(p, rest[1..], slope);
      if p.at < rest[0].at {
        assert slope * Days(p, rest[0]) / Days(p, rest[0]) == slope;
      }
    }
  }

  ghost predicate OnLine(points: seq<Point>, slope: real) {
    forall i, j :: 0 <= i < j < |points| ==> points[j].value == points[i].value + slope * Days(points[i], points[j])
  }

  lemma {:induction false} LineSlopes(points: seq<Point>, slope: real)
    requires OnLine(points, slope)
    ensures forall i :: 0 <= i < |Slopes(points)| ==> Slopes(points)[i] == slope
  {
    if points != [] {
      AffineRow(points[0], points[1..], slope);
      LineSlopes(points[1..], slope);
    }
  }

  /** Samples on a line give back the slope of the line. */
  lemma LineRecovered(points: seq<Point>, slope: real)
    requires Chronological(points) && |points| >= 2 && OnLine(points, slope)
    ensures SlopeOf(points) == slope
  {
    PairsPositive(|points|);
    SlopeSides(points);
    LineSlopes(points, slope);
    MedianConstant(Slopes(points), slope);
  }

  lemma {:induction false} RowBounds(p: Point, rest: seq<Point>)
    ensures -|rest| <= RowScore(p, rest) <= |rest|
    ensures RowScore(p, rest) == |rest| <==> forall i :: 0 <= i < |rest| ==> p.value < rest[i].value
    ensures RowScore(p, rest) == -|rest| <==> forall i :: 0 <= i < |rest| ==> p.value > rest[i].value
  {
    if rest != [] {
      RowBounds(p, rest[1..]);
      assert forall i :: 0 < i < |rest| ==> rest[i] == rest[1..][i - 1];
    }
  }

  ghost predicate Rising(points: seq<Point>) { forall i, j :: 0 <= i < j < |points| ==> points[i].value < points[j].value }

  ghost predicate Falling(points: seq<Point>) { forall i, j :: 0 <= i < j < |points| ==> points[i].value > points[j].value }

  lemma MonotoneTail(points: seq<Point>)
    requires points != []
    ensures Rising(points) <==> Rising(points[1..]) && forall i :: 0 <= i < |points| - 1 ==> points[0].value < points[1..][i].value
    ensures Falling(points) <==> Falling(points[1..]) && forall i :: 0 <= i < |points| - 1 ==> points[0].value > points[1..][i].value
  {
    var rest := points[1..];
    assert forall i :: 0 < i < |points| ==> points[i] == rest[i - 1];
    assert forall i :: 0 <= i < |rest| ==> rest[i] == points[i + 1];
  }

  lemma {:induction false} ScoreBounds(points: seq<Point>)
    ensures 0 - Pairs(|points|) <= Score(points) <= Pairs(|points|)
    ensures Score(points) == Pairs(|points|) <==> Rising(points)
    ensures Score(points) == 0 - Pairs(|points|) <==> Falling(points)
  {
    if points != [] {
      ScoreBounds(points[1..]);
      RowBounds(points[0], points[1..]);
      MonotoneTail(points);
    }
  }

  /** Consistency lies between 0 and 1 and is 1 exactly for strictly monotone values. */
  lemma ConsistencyBounds(points: seq<Point>)
    ensures 0.0 <= ConsistencyOf(points) <= 1.0
    ensures ConsistencyOf(points) == 1.0 <==> |points| >= 2 && (Rising(points) || Falling(points))
  {
    if |points| >= 2 {
      ScoreBounds(points);
      PairsPositive(|points|);
      RatioBounds(Abs(Score(points)), Pairs(|points|));
    }
  }

  lemma RatioBounds(score: nat, pairs: nat)
    requires score <= pairs && pairs > 0
    ensures 0.0 <= score as real / pairs as real <= 1.0
    ensures score as real / pairs as real == 1.0 <==> score == pairs
  {
    assert score as real / pairs as real * pairs as real == score as real;
  }
}
