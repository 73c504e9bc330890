/** The median of internal/metric/metric.go, over real numbers. */
module Statistics {
  import opened Sorting

  lemma RealOrder()
    ensures TotalPreorder(RealLeq)
  {
  }

  function Ordered(values: seq<real>): (r: seq<real>)
    ensures Sorted(r, RealLeq) && multiset(r) == multiset(values) && |r| == |values|
  {
    RealOrder();
    var r := Sort(values, RealLeq);
    assert |multiset(r)| == |r| && |multiset(values)| == |values|;
    r
  }

  lemma OrderedIs(values: seq<real>, r: seq<real>)
    requires Sorted(r, RealLeq) && multiset(r) == multiset(values)
    ensures Ordered(values) == r
  {
    RealOrder();
    SortedUnique(Ordered(values), r, RealLeq);
  }

  /** Mean of the two middle elements, or the middle one; 0 when there is none. */
  function Median(values: seq<real>): (m: real) {
    if values == [] then 0.0 else Middle(Ordered(values))
  }

  function Middle(ordered: seq<real>): (m: real)
    requires ordered != []
  {
    var middle := |ordered| / 2;
    if |ordered| % 2 == 1 then ordered[middle] else (ordered[middle - 1] + ordered[middle]) / 2.0
  }

  /** `metric.Median`: clones, sorts and reads the middle. */
  method ComputeMedian(values: seq<real>) returns (m: real, ok: bool)
    ensures m == Median(values) && ok == (values != [])
  {
    if values == [] { return 0.0, false; }
    RealOrder();
    var ordered := SortFunc(values, RealLeq);
    OrderedIs(values, ordered);
    var middle := |ordered| / 2;
    if |ordered| % 2 == 1 { return ordered[middle], true; }
    return (ordered[middle - 1] + ordered[middle]) / 2.0, true;
  }

  // ----- how many values lie on each side -----

  function Above(s: seq<real>, t: real): (n: nat) {
    if s == [] then 0 else (if s[0] > t then 1 else 0) + Above(s[1..], t)
  }

  function Below(s: seq<real>, t: real): (n: nat) {
    if s == [] then 0 else (if s[0] < t then 1 else 0) + Below(s[1..], t)
  }

  lemma {:induction false} SidesConcat(a: seq<real>, b: seq<real>, t: real)
    ensures Above(a + b, t) == Above(a, t) + Above(b, t) && Below(a + b, t) == Below(a, t) + Below(b, t)
  {
    if a == [] {
      assert a + b == b;
    } else {
      SidesConcat(a[1..], b, t);
      assert (a + b)[1..] == a[1..] + b;
    }
  }

  /** Counting does not depend on order. */
  lemma {:induction false} SidesPermute(a: seq<real>, b: seq<real>, t: real)
    requires multiset(a) == multiset(b)
    ensures Above(a, t) == Above(b, t) && Below(a, t) == Below(b, t)
  {
    if a == [] {
      assert |multiset(b)| == 0;
    } else {
      var i := HeadIn(a, b);
      var front, back := b[..i], b[i + 1..];
      SidesPermute(a[1..], front + back, t);
      SidesConcat(front, back, t);
      SidesConcat(front, [b[i]] + back, t);
      assert b == front + ([b[i]] + back) && ([b[i]] + back)[1..] == back;
    }
  }

  lemma {:induction false} NoneAbove(s: seq<real>, t: real)
    requires forall i :: 0 <= i < |s| ==> s[i] <= t
    ensures Above(s, t) == 0 && Below(s, t) <= |s|
  {
    if s != [] { NoneAbove(s[1..], t); }
  }

  lemma {:induction false} AllAbove(s: seq<real>, t: real)
    requires forall i :: 0 <= i < |s| ==> s[i] > t
    ensures Above(s, t) == |s| && Below(s, t) == 0
  {
    if s != [] { AllAbove(s[1..], t); }
  }

  lemma {:induction false} SideBounds(s: seq<real>, t: real)
    ensures Above(s, t) + Below(s, t) <= |s|
    ensures Below(s, t) == 0 ==> forall i :: 0 <= i < |s| ==> s[i] >= t
  {
    if s != [] {
      SideBounds(s[1..], t);
      assert forall i :: 0 < i < |s| ==> s[i] == s[1..][i - 1];
    }
  }

  /** In a sorted sequence, an element's side of t bounds the count above t. */
  lemma SortedAbove(s: seq<real>, k: nat, t: real)
    requires Sorted(s, RealLeq) && k < |s|
    ensures s[k] <= t ==> Above(s, t) <= |s| - k - 1
    ensures s[k] > t ==> Above(s, t) >= |s| - k
  {
    if s[k] <= t {
      var low, high := s[..k + 1], s[k + 1..];
      assert s == low + high;
      forall i | 0 <= i < |low| ensures low[i] <= t { assert i < k ==> RealLeq(s[i], s[k]); }
      NoneAbove(low, t);
      SidesConcat(low, high, t);
      SideBounds(high, t);
    } else {
      var low, high := s[..k], s[k..];
      assert s == low + high;
      forall i | 0 <= i < |high| ensures high[i] > t { assert i > 0 ==> RealLeq(s[k], s[k + i]); }
      AllAbove(high, t);
      SidesConcat(low, high, t);
    }
  }

  /** If the values above t outnumber those below by at least half of all, the median is above t. */
  lemma MajorityAbove(s: seq<real>, t: real)
    requires s != [] && 2 * (Above(s, t) - Below(s, t)) >= |s|
    ensures Median(s) > t
  {
    var o, m := Ordered(s), |s| / 2;
    SidesPermute(s, o, t);
    SideBounds(o, t);
    var above, below := Above(o, t), Below(o, t);
    assert o[m] > t by { SortedAbove(o, m, t); }
    if |s| % 2 == 0 {
      assert below > 0 ==> o[m - 1] > t by { SortedAbove(o, m - 1, t); }
      assert o[m - 1] >= t;
    }
  }

  /** A median above t means that the values above t are at least as many as those below. */
  lemma MedianAbove(s: seq<real>, t: real)
    requires s != [] && Median(s) > t
    ensures Above(s, t) >= Below(s, t) && 2 * Above(s, t) >= |s|
  {
    var o, m := Ordered(s), |s| / 2;
    SidesPermute(s, o, t);
    SideBounds(o, t);
    SortedAbove(o, m, t);
    if |s| % 2 == 0 { assert RealLeq(o[m - 1], o[m]); }
  }

  // ----- how the median moves with the values -----

  function Mapped(s: seq<real>, f: real -> real): (r: seq<real>)
    ensures |r| == |s| && forall i :: 0 <= i < |s| ==> r[i] == f(s[i])
  {
    seq(|s|, i requires 0 <= i < |s| => f(s[i]))
  }

  function Reversed(s: seq<real>): (r: seq<real>)
    ensures |r| == |s| && forall i :: 0 <= i < |s| ==> r[i] == s[|s| - 1 - i]
  {
    seq(|s|, i requires 0 <= i < |s| => s[|s| - 1 - i])
  }

  lemma {:induction false} MappedPermutes(s: seq<real>, t: seq<real>, f: real -> real)
    requires multiset(s) == multiset(t)
    ensures multiset(Mapped(s, f)) == multiset(Mapped(t, f))
  {
    if s == [] {
      assert |multiset(t)| == 0;
    } else {
      var i := HeadIn(s, t);
      var front, back := t[..i], t[i + 1..];
      MappedPermutes(s[1..], front + back, f);
      MappedConcat([s[0]], s[1..], f);
      MappedConcat([t[i]], back, f);
      MappedConcat(front, [t[i]] + back, f);
      MappedConcat(front, back, f);
      assert s == [s[0]] + s[1..] && t == front + ([t[i]] + back);
    }
  }

  lemma MappedConcat(a: seq<real>, b: seq<real>, f: real -> real)
    ensures Mapped(a + b, f) == Mapped(a, f) + Mapped(b, f)
  {
  }

  lemma {:induction false} ReversedPermutes(s: seq<real>)
    ensures multiset(Reversed(s)) == multiset(s)
  {
    if s != [] {
      ReversedPermutes(s[1..]);
      assert Reversed(s) == Reversed(s[1..]) + [s[0]];
      assert s == [s[0]] + s[1..];
    }
  }

  ghost predicate Monotone(f: real -> real, up: bool) {
    forall x, y :: x <= y ==> if up then f(x) <= f(y) else f(y) <= f(x)
  }

  lemma MappedOrder(o: seq<real>, f: real -> real, up: bool, i: nat, j: nat)
    requires Sorted(o, RealLeq) && Monotone(f, up) && i < j < |o|
    ensures if up then Mapped(o, f)[i] <= Mapped(o, f)[j] else Mapped(o, f)[j] <= Mapped(o, f)[i]
  {
    assert RealLeq(o[i], o[j]);
  }

  function Directed(s: seq<real>, up: bool): (r: seq<real>) { if up then s else Reversed(s) }

  lemma MappedSorted(o: seq<real>, f: real -> real, up: bool)
    requires Sorted(o, RealLeq) && Monotone(f, up)
    ensures Sorted(Directed(Mapped(o, f), up), RealLeq)
  {
    var r := Directed(Mapped(o, f), up);
    forall i, j | 0 <= i < j < |r| ensures r[i] <= r[j] {
      if up { MappedOrder(o, f, up, i, j); } else { MappedOrder(o, f, up, |o| - 1 - j, |o| - 1 - i); }
    }
  }

  lemma MiddleDirected(s: seq<real>, up: bool)
    requires s != []
    ensures Middle(Directed(s, up)) == Middle(s)
  {
    if !up {
      var r, m := Reversed(s), |s| / 2;
      assert r[m] == s[|s| - 1 - m];
      if |s| % 2 == 0 { assert r[m - 1] == s[m] && r[m] == s[m - 1]; }
    }
  }

  lemma MiddleMapped(o: seq<real>, f: real -> real)
    requires o != [] && (|o| > 1 ==> f((o[|o| / 2 - 1] + o[|o| / 2]) / 2.0) == (f(o[|o| / 2 - 1]) + f(o[|o| / 2])) / 2.0)
    ensures Middle(Mapped(o, f)) == f(Middle(o))
  {
  }

  /** The median commutes with every map that is monotone, up or down, and keeps the midpoint. */
  lemma MedianMapped(s: seq<real>, f: real -> real, up: bool)
    requires s != [] && Monotone(f, up)
    requires var o, m := Ordered(s), |s| / 2;
             m > 0 ==> f((o[m - 1] + o[m]) / 2.0) == (f(o[m - 1]) + f(o[m])) / 2.0
    ensures Median(Mapped(s, f)) == f(Median(s))
  {
    var o := Ordered(s);
    var image := Mapped(o, f);
    assert Ordered(Mapped(s, f)) == Directed(image, up) by {
      MappedPermutes(s, o, f);
      ReversedPermutes(image);
      MappedSorted(o, f, up);
      OrderedIs(Mapped(s, f), Directed(image, up));
    }
    MiddleDirected(image, up);
    MiddleMapped(o, f);
  }

  function Affine(a: real, b: real): (f: real -> real)
    ensures forall x :: f(x) == a * x + b
  {
    x => a * x + b
  }

  lemma AffineLaws(a: real, b: real, x: real, y: real)
    requires x <= y
    ensures if a >= 0.0 then Affine(a, b)(x) <= Affine(a, b)(y) else Affine(a, b)(y) <= Affine(a, b)(x)
    ensures Affine(a, b)((x + y) / 2.0) == (Affine(a, b)(x) + Affine(a, b)(y)) / 2.0
  {
    if a >= 0.0 { assert a * (y - x) >= 0.0; } else { assert (-a) * (y - x) >= 0.0; }
    assert a * ((x + y) / 2.0) == (a * x + a * y) / 2.0;
  }

  /** The median follows every affine change of the values, also one that reverses their order. */
  lemma MedianAffine(s: seq<real>, a: real, b: real)
    requires s != []
    ensures Median(Mapped(s, Affine(a, b))) == Affine(a, b)(Median(s))
  {
    var f := Affine(a, b);
    assert Monotone(f, a >= 0.0) by {
      forall x, y | x <= y ensures if a >= 0.0 then f(x) <= f(y) else f(y) <= f(x) { AffineLaws(a, b, x, y); }
    }
    var o, m := Ordered(s), |s| / 2;
    if m > 0 {
      assert RealLeq(o[m - 1], o[m]);
      AffineLaws(a, b, o[m - 1], o[m]);
    }
    MedianMapped(s, f, a >= 0.0);
  }

  lemma {:induction false} NegatedSides(s: seq<real>)
    ensures Above(Mapped(s, Affine(-1.0, 0.0)), 0.0) == Below(s, 0.0)
    ensures Below(Mapped(s, Affine(-1.0, 0.0)), 0.0) == Above(s, 0.0)
  {
    if s != [] {
      NegatedSides(s[1..]);
      assert Mapped(s, Affine(-1.0, 0.0))[1..] == Mapped(s[1..], Affine(-1.0, 0.0));
    }
  }

  lemma MajorityBelow(s: seq<real>)
    requires s != [] && 2 * (Below(s, 0.0) - Above(s, 0.0)) >= |s|
    ensures Median(s) < 0.0
  {
    NegatedSides(s);
    MajorityAbove(Mapped(s, Affine(-1.0, 0.0)), 0.0);
    MedianAffine(s, -1.0, 0.0);
  }

  lemma MedianBelow(s: seq<real>)
    requires s != [] && Median(s) < 0.0
    ensures Below(s, 0.0) >= Above(s, 0.0) && 2 * Below(s, 0.0) >= |s|
  {
    NegatedSides(s);
    MedianAffine(s, -1.0, 0.0);
    MedianAbove(Mapped(s, Affine(-1.0, 0.0)), 0.0);
  }

  /** Nonnegative values of which fewer than half are positive have median zero. */
  lemma MedianZero(s: seq<real>)
    requires s != [] && Below(s, 0.0) == 0 && 2 * Above(s, 0.0) < |s|
    ensures Median(s) == 0.0
  {
    var o, m := Ordered(s), |s| / 2;
    SidesPermute(s, o, 0.0);
    SideBounds(o, 0.0);
    assert o[m] == 0.0 by { SortedAbove(o, m, 0.0); }
    if |s| % 2 == 0 {
      assert RealLeq(o[m - 1], o[m]);
      assert o[m - 1] == 0.0;
    }
  }

  lemma {:induction false} MedianConstant(s: seq<real>, c: real)
    requires s != [] && forall i :: 0 <= i < |s| ==> s[i] == c
    ensures Median(s) == c
  {
    var o := Ordered(s);
    forall i | 0 <= i < |o| ensures o[i] == c {
      assert o[i] in multiset(o);
      assert o[i] in s;
    }
  }
}
