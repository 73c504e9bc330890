/** The string predicates that the Go sources share. */
module Text {

  datatype Option<+T> = None | Some(value: T)

  datatype Result<+T, +E> = Ok(value: T) | Err(error: E)

  /** White space as `unicode.IsSpace` defines it. */
  predicate IsSpace(c: char) {
    var v := c as int;
    || 0x09 <= v <= 0x0D || v == 0x20 || v == 0x85 || v == 0xA0 || v == 0x1680
    || 0x2000 <= v <= 0x200A || v == 0x2028 || v == 0x2029 || v == 0x202F || v == 0x205F || v == 0x3000
  }

  function TrimLeft(s: string): (r: string) {
    if s != "" && IsSpace(s[0]) then TrimLeft(s[1..]) else s
  }

  function TrimRight(s: string): (r: string) {
    if s != "" && IsSpace(s[|s| - 1]) then TrimRight(s[..|s| - 1]) else s
  }

  /** `strings.TrimSpace`. */
  function TrimSpace(s: string): (r: string) { TrimRight(TrimLeft(s)) }

  /** `strings.TrimSpace(s) == ""`. */
  predicate Blank(s: string) { TrimSpace(s) == "" }

  lemma {:induction false} TrimLeftDone(s: string)
    ensures TrimLeft(s) == "" || !IsSpace(TrimLeft(s)[0])
  {
    if s != "" && IsSpace(s[0]) { TrimLeftDone(s[1..]); }
  }

  lemma {:induction false} TrimRightDone(s: string)
    requires s == "" || !IsSpace(s[0])
    ensures var r := TrimRight(s); r == "" || (!IsSpace(r[0]) && !IsSpace(r[|r| - 1]))
  {
    if s != "" && IsSpace(s[|s| - 1]) { TrimRightDone(s[..|s| - 1]); }
  }

  /** Trimming twice is trimming once. */
  lemma TrimSpaceIdempotent(s: string)
    ensures TrimSpace(TrimSpace(s)) == TrimSpace(s)
  {
    TrimLeftDone(s);
    TrimRightDone(TrimLeft(s));
  }

  predicate AllSpace(s: string) { forall i :: 0 <= i < |s| ==> IsSpace(s[i]) }

  lemma {:induction false} TrimLeftIs(s: string) returns (a: string)
    ensures s == a + TrimLeft(s) && AllSpace(a)
  {
    if s != "" && IsSpace(s[0]) {
      a := TrimLeftIs(s[1..]);
      a := [s[0]] + a;
    } else {
      a := "";
    }
  }

  lemma {:induction false} TrimRightIs(s: string) returns (b: string)
    ensures s == TrimRight(s) + b && AllSpace(b)
  {
    if s != "" && IsSpace(s[|s| - 1]) {
      b := TrimRightIs(s[..|s| - 1]);
      b := b + [s[|s| - 1]];
    } else {
      b := "";
    }
  }

  /** Trimming takes away white space at the ends, all of it and nothing else. */
  lemma TrimSpaceIs(s: string) returns (a: string, b: string)
    ensures s == a + TrimSpace(s) + b && AllSpace(a) && AllSpace(b)
    ensures var r := TrimSpace(s); r == "" || (!IsSpace(r[0]) && !IsSpace(r[|r| - 1]))
  {
    a := TrimLeftIs(s);
    b := TrimRightIs(TrimLeft(s));
    TrimLeftDone(s);
    TrimRightDone(TrimLeft(s));
  }

  lemma {:induction false} TrimLeftSkips(a: string, s: string)
    requires AllSpace(a)
    ensures TrimLeft(a + s) == TrimLeft(s)
  {
    if a == "" {
      assert a + s == s;
    } else {
      assert (a + s)[1..] == a[1..] + s;
      TrimLeftSkips(a[1..], s);
    }
  }

  lemma {:induction false} TrimRightSkips(s: string, b: string)
    requires AllSpace(b)
    ensures TrimRight(s + b) == TrimRight(s)
  {
    if b == "" {
      assert s + b == s;
    } else {
      assert (s + b)[..|s + b| - 1] == s + b[..|b| - 1];
      TrimRightSkips(s, b[..|b| - 1]);
    }
  }

  /** What stands between white space is what trimming leaves. */
  lemma TrimSpaceBetween(a: string, u: string, b: string)
    requires AllSpace(a) && AllSpace(b) && (u == "" || (!IsSpace(u[0]) && !IsSpace(u[|u| - 1])))
    ensures TrimSpace(a + u + b) == u
  {
    assert a + u + b == a + (u + b);
    TrimLeftSkips(a, u + b);
    if u == "" {
      assert u + b == b && b + "" == b;
      TrimLeftSkips(b, "");
    } else {
      assert TrimLeft(u + b) == u + b;
      TrimRightSkips(u, b);
    }
  }

  /** A blank string is one of white space alone. */
  lemma BlankIff(s: string)
    ensures Blank(s) <==> AllSpace(s)
  {
    var a, b := TrimSpaceIs(s);
    hide TrimSpace, IsSpace;
    var r := TrimSpace(s);
    if r != "" {
      assert s[|a|] == r[0];
    } else {
      assert s == a + b;
    }
  }

  /** The first string precedes the second: they agree up to a place where the first ends or has the smaller character. */
  predicate Precedes(a: string, b: string, n: nat) {
    n <= |a| && n <= |b| && a[..n] == b[..n] && ((n == |a| && n < |b|) || (n < |a| && n < |b| && a[n] < b[n]))
  }

  /** `strings.Compare`: -1, 0 or 1 by the first difference. */
  function Compare(a: string, b: string): (r: int) {
    if a == "" then (if b == "" then 0 else -1)
    else if b == "" then 1
    else if a[0] < b[0] then -1
    else if a[0] > b[0] then 1
    else Compare(a[1..], b[1..])
  }

  /** Comparison is antisymmetric, transitive, and 0 only on equal strings. */
  lemma {:induction false} CompareOrders(a: string, b: string, c: string)
    ensures Compare(a, b) == -Compare(b, a)
    ensures Compare(a, b) == 0 <==> a == b
    ensures Compare(a, b) <= 0 && Compare(b, c) <= 0 ==> Compare(a, c) <= 0
  {
    if a != "" && b != "" {
      if c != "" { CompareOrders(a[1..], b[1..], c[1..]); } else { CompareOrders(a[1..], b[1..], c); }
      assert a == [a[0]] + a[1..] && b == [b[0]] + b[1..];
    }
  }

  /** Comparison is lexicographic. */
  lemma {:induction false} CompareIs(a: string, b: string)
    ensures Compare(a, b) < 0 <==> exists n: nat :: Precedes(a, b, n)
    ensures Compare(a, b) > 0 <==> exists n: nat :: Precedes(b, a, n)
  {
    if a == "" || b == "" || a[0] != b[0] {
      assert Precedes(a, b, 0) || Precedes(b, a, 0) || a == b;
      PrecedesAtMostOnce(a, b);
    } else {
      CompareIs(a[1..], b[1..]);
      PrecedesTail(a, b);
      PrecedesTail(b, a);
    }
  }

  lemma PrecedesTail(a: string, b: string)
    requires a != "" && b != "" && a[0] == b[0]
    ensures (exists n: nat :: Precedes(a, b, n)) <==> exists n: nat :: Precedes(a[1..], b[1..], n)
  {
    if exists n: nat :: Precedes(a, b, n) {
      var n: nat :| Precedes(a, b, n);
      assert n > 0 && a[1..][..n - 1] == a[..n][1..] && b[1..][..n - 1] == b[..n][1..];
      assert Precedes(a[1..], b[1..], n - 1);
    }
    if exists n: nat :: Precedes(a[1..], b[1..], n) {
      var n: nat :| Precedes(a[1..], b[1..], n);
      assert a[..n + 1] == [a[0]] + a[1..][..n] && b[..n + 1] == [b[0]] + b[1..][..n];
      assert Precedes(a, b, n + 1);
    }
  }

  lemma PrecedesAtMostOnce(a: string, b: string)
    requires a == "" || b == "" || a[0] != b[0]
    ensures forall n: nat :: Precedes(a, b, n) || Precedes(b, a, n) ==> n == 0
  {
    hide Precedes;
    forall n: nat | Precedes(a, b, n) || Precedes(b, a, n) ensures n == 0 {
      if n > 0 { FirstShared(a, b, n); }
    }
  }

  lemma FirstShared(a: string, b: string, n: nat)
    requires (Precedes(a, b, n) || Precedes(b, a, n)) && n > 0
    ensures a != "" && b != "" && a[0] == b[0]
  {
    assert a[..n][0] == b[..n][0];
  }

  /** `strings.ToLower`, restricted to ASCII letters. */
  function Lower(s: string): (r: string)
    ensures |r| == |s|
  {
    seq(|s|, i requires 0 <= i < |s| => if 'A' <= s[i] <= 'Z' then (s[i] as int + 32) as char else s[i])
  }

  /** Lower case has no capitals and differs from the string only where that has one, by its small letter. */
  lemma LowerIs(s: string, i: nat)
    requires i < |s|
    ensures !('A' <= Lower(s)[i] <= 'Z')
    ensures if 'A' <= s[i] <= 'Z' then Lower(s)[i] as int - 'a' as int == s[i] as int - 'A' as int else Lower(s)[i] == s[i]
  {
  }
}
