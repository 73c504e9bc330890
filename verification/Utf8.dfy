/** UTF-8 byte strings (section 3 of RFC 3629) and the white-space operations of Go's `strings` package on them. */
module Utf8 {

  type Byte = b: int | 0 <= b < 256

  type Bytes = seq<Byte>

  predicate Continuation(b: Byte) { 0x80 <= b <= 0xBF }

  /** `utf8.RuneStart`. */
  predicate RuneStart(b: Byte) { !Continuation(b) }

  /** The width of the well-formed character at the front, or 0 when there is none. */
  function Width(s: Bytes): (w: nat)
    ensures w <= |s| && w <= 4
  {
    if s == [] then 0
    else if s[0] <= 0x7F then 1
    else if 0xC2 <= s[0] <= 0xDF then (if |s| >= 2 && Continuation(s[1]) then 2 else 0)
    else if 0xE0 <= s[0] <= 0xEF then (if |s| >= 3 && Second(s[0], s[1]) && Continuation(s[2]) then 3 else 0)
    else if 0xF0 <= s[0] <= 0xF4 then
      (if |s| >= 4 && Second(s[0], s[1]) && Continuation(s[2]) && Continuation(s[3]) then 4 else 0)
    else 0
  }

  /** The narrower range of the second byte after E0, ED, F0 and F4. */
  predicate Second(first: Byte, b: Byte) {
    Continuation(b) && (first == 0xE0 ==> b >= 0xA0) && (first == 0xED ==> b <= 0x9F)
    && (first == 0xF0 ==> b >= 0x90) && (first == 0xF4 ==> b <= 0x8F)
  }

  /** `utf8.Valid`. */
  predicate Valid(s: Bytes) { s == [] || (Width(s) > 0 && Valid(s[Width(s)..])) }

  // ----- character boundaries -----

  lemma WidthShape(s: Bytes)
    requires Width(s) > 0
    ensures RuneStart(s[0]) && forall i :: 1 <= i < Width(s) ==> Continuation(s[i])
  {
  }

  /** The first character does not depend on what follows it. */
  lemma WidthPrefix(s: Bytes, t: Bytes)
    requires Width(s) > 0 && Width(s) <= |t| && t[..Width(s)] == s[..Width(s)]
    ensures Width(t) == Width(s)
  {
    assert forall i :: 0 <= i < Width(s) ==> t[i] == t[..Width(s)][i] == s[..Width(s)][i] == s[i];
  }

  /** A cut of valid text in front of a start byte, or at its end, leaves two valid texts. */
  lemma {:induction false} ValidCut(s: Bytes, i: nat)
    requires Valid(s) && i <= |s| && (i == |s| || RuneStart(s[i]))
    ensures Valid(s[..i]) && Valid(s[i..])
    decreases |s|
  {
    if i == 0 {
      assert s[i..] == s;
    } else {
      var w := Width(s);
      WidthShape(s);
      assert i >= w;
      var rest := s[w..];
      ValidCut(rest, i - w);
      assert rest[..i - w] == s[..i][w..] && rest[i - w..] == s[i..];
      WidthPrefix(s, s[..i]);
    }
  }

  lemma {:induction false} ValidConcat(a: Bytes, b: Bytes)
    requires Valid(a) && Valid(b)
    ensures Valid(a + b)
    decreases |a|
  {
    if a == [] {
      assert a + b == b;
    } else {
      var w := Width(a);
      assert (a + b)[..w] == a[..w] && (a + b)[w..] == a[w..] + b;
      WidthPrefix(a, a + b);
      ValidConcat(a[w..], b);
    }
  }

  /** Every position of valid text is at most three bytes behind a start byte. */
  lemma {:induction false} StartNearby(s: Bytes, i: nat) returns (j: nat)
    requires Valid(s) && i < |s|
    ensures j <= i <= j + 3 && RuneStart(s[j])
    decreases |s|
  {
    var w := Width(s);
    WidthShape(s);
    if i < w {
      j := 0;
    } else {
      j := StartNearby(s[w..], i - w);
      j := j + w;
    }
  }

  lemma ValidStarts(s: Bytes)
    requires Valid(s) && s != []
    ensures RuneStart(s[0])
  {
    WidthShape(s);
  }

  // ----- white space -----

  /** The width of the white-space character at the front, or 0. */
  function SpaceWidth(s: Bytes): (w: nat)
    ensures w <= |s| && w <= 3
  {
    if s == [] then 0
    else if 0x09 <= s[0] <= 0x0D || s[0] == 0x20 then 1
    else if |s| >= 2 && s[0] == 0xC2 && (s[1] == 0x85 || s[1] == 0xA0) then 2
    else if |s| >= 3 && WideSpace(s[0], s[1], s[2]) then 3
    else 0
  }

  predicate WideSpace(a: Byte, b: Byte, c: Byte) {
    || (a == 0xE1 && b == 0x9A && c == 0x80)
    || (a == 0xE2 && b == 0x80 && (0x80 <= c <= 0x8A || c == 0xA8 || c == 0xA9 || c == 0xAF))
    || (a == 0xE2 && b == 0x81 && c == 0x9F)
    || (a == 0xE3 && b == 0x80 && c == 0x80)
  }

  /** The width of the white-space character at the end, or 0. */
  function SpaceTail(s: Bytes): (w: nat)
    ensures w <= |s| && (w > 0 ==> SpaceWidth(s[|s| - w..]) == w)
  {
    if |s| >= 1 && SpaceWidth(s[|s| - 1..]) == 1 then 1
    else if |s| >= 2 && SpaceWidth(s[|s| - 2..]) == 2 then 2
    else if |s| >= 3 && SpaceWidth(s[|s| - 3..]) == 3 then 3
    else 0
  }

  function TrimLeft(s: Bytes): (r: Bytes)
    ensures |r| <= |s|
    decreases |s|
  {
    if SpaceWidth(s) > 0 then TrimLeft(s[SpaceWidth(s)..]) else s
  }

  function TrimRight(s: Bytes): (r: Bytes)
    ensures |r| <= |s|
    decreases |s|
  {
    if SpaceTail(s) > 0 then TrimRight(s[..|s| - SpaceTail(s)]) else s
  }

  /** `strings.TrimSpace` on valid text. */
  function Trim(s: Bytes): (r: Bytes)
    ensures |r| <= |s|
  {
    TrimRight(TrimLeft(s))
  }

  /** The text with every white-space character deleted. */
  function Strip(s: Bytes): (r: Bytes)
    decreases |s|
  {
    if s == [] then []
    else if SpaceWidth(s) > 0 then Strip(s[SpaceWidth(s)..])
    else [s[0]] + Strip(s[1..])
  }

  lemma SpaceShape(s: Bytes)
    requires SpaceWidth(s) > 0
    ensures RuneStart(s[0]) && Width(s) == SpaceWidth(s)
  {
  }

  /** A white-space character never straddles a cut in front of a start byte. */
  lemma SpaceAtCut(a: Bytes, b: Bytes)
    requires a != [] && (b == [] || RuneStart(b[0]))
    ensures SpaceWidth(a + b) == SpaceWidth(a)
  {
  }

  lemma {:induction false} StripConcat(a: Bytes, b: Bytes)
    requires b == [] || RuneStart(b[0])
    ensures Strip(a + b) == Strip(a) + Strip(b)
    decreases |a|
  {
    if a == [] {
      assert a + b == b;
    } else {
      hide SpaceWidth;
      SpaceAtCut(a, b);
      var w := if SpaceWidth(a) > 0 then SpaceWidth(a) else 1;
      assert (a + b)[w..] == a[w..] + b;
      StripConcat(a[w..], b);
      assert SpaceWidth(a) == 0 ==> [a[0]] + (Strip(a[1..]) + Strip(b)) == [a[0]] + Strip(a[1..]) + Strip(b);
    }
  }

  lemma {:induction false} TrimLeftKeeps(s: Bytes)
    requires Valid(s)
    ensures Valid(TrimLeft(s)) && Strip(TrimLeft(s)) == Strip(s)
    decreases |s|
  {
    if SpaceWidth(s) > 0 {
      SpaceShape(s);
      TrimLeftKeeps(s[SpaceWidth(s)..]);
    }
  }

  lemma StripSpace(s: Bytes)
    requires SpaceWidth(s) == |s|
    ensures Strip(s) == []
  {
    assert s[|s|..] == [];
  }

  lemma DropTail(s: Bytes, w: nat)
    requires Valid(s) && 0 < w <= |s| && SpaceWidth(s[|s| - w..]) == w
    ensures Valid(s[..|s| - w]) && Strip(s[..|s| - w]) == Strip(s)
  {
    hide *;
    var front, tail := s[..|s| - w], s[|s| - w..];
    SpaceShape(tail);
    assert tail[0] == s[|s| - w];
    ValidCut(s, |s| - w);
    StripConcat(front, tail);
    StripSpace(tail);
    assert s == front + tail;
    assert Strip(front) + [] == Strip(front);
  }

  lemma {:induction false} TrimRightKeeps(s: Bytes)
    requires Valid(s)
    ensures Valid(TrimRight(s)) && Strip(TrimRight(s)) == Strip(s)
    decreases |s|
  {
    hide Valid, Strip, SpaceTail;
    var w := SpaceTail(s);
    if w > 0 {
      DropTail(s, w);
      TrimRightKeeps(s[..|s| - w]);
    }
  }

  /** Trimming keeps validity and loses nothing but white space. */
  lemma TrimKeeps(s: Bytes)
    requires Valid(s)
    ensures Valid(Trim(s)) && Strip(Trim(s)) == Strip(s)
  {
    TrimLeftKeeps(s);
    TrimRightKeeps(TrimLeft(s));
  }

  lemma {:induction false} TrimRightStart(s: Bytes)
    requires SpaceWidth(s) == 0
    ensures SpaceWidth(TrimRight(s)) == 0 && SpaceTail(TrimRight(s)) == 0 && (s != [] ==> TrimRight(s) != [])
    decreases |s|
  {
    var w := SpaceTail(s);
    if w > 0 {
      var front, tail := s[..|s| - w], s[|s| - w..];
      SpaceShape(tail);
      assert s == front + tail;
      if front != [] { SpaceAtCut(front, tail); }
      TrimRightStart(front);
    }
  }

  lemma {:induction false} TrimLeftStart(s: Bytes)
    ensures SpaceWidth(TrimLeft(s)) == 0
    decreases |s|
  {
    if SpaceWidth(s) > 0 { TrimLeftStart(s[SpaceWidth(s)..]); }
  }

  /** Trimming is thorough: no white space is left at either end. */
  lemma TrimThorough(s: Bytes)
    ensures SpaceWidth(Trim(s)) == 0 && SpaceTail(Trim(s)) == 0
  {
    TrimLeftStart(s);
    TrimRightStart(TrimLeft(s));
  }

  // ----- trimming as slicing -----

  lemma {:induction false} TrimLeftIsSuffix(s: Bytes)
    ensures TrimLeft(s) == s[|s| - |TrimLeft(s)|..]
    decreases |s|
  {
    var w := SpaceWidth(s);
    if w > 0 {
      TrimLeftIsSuffix(s[w..]);
      var n := |TrimLeft(s)|;
      assert s[w..][|s| - w - n..] == s[|s| - n..];
    }
  }

  lemma {:induction false} TrimRightIsPrefix(s: Bytes)
    ensures TrimRight(s) == s[..|TrimRight(s)|]
    decreases |s|
  {
    var w := SpaceTail(s);
    if w > 0 {
      TrimRightIsPrefix(s[..|s| - w]);
      assert s[..|s| - w][..|TrimRight(s)|] == s[..|TrimRight(s)|];
    }
  }

  /** The trimmed text is a stretch of the text, right behind the white space in front. */
  lemma TrimIsSlice(s: Bytes)
    ensures var lead, n := |s| - |TrimLeft(s)|, |Trim(s)|; lead + n <= |s| && Trim(s) == s[lead..lead + n]
    ensures Trim(s) != [] ==> TrimLeft(s) != []
  {
    hide TrimLeft, TrimRight;
    TrimLeftIsSuffix(s);
    TrimRightIsPrefix(TrimLeft(s));
    var lead, n := |s| - |TrimLeft(s)|, |Trim(s)|;
    assert s[lead..][..n] == s[lead..lead + n];
  }

  /** White space in front of a text that is not all white space does not depend on what follows. */
  lemma {:induction false} TrimLeftConcat(a: Bytes, b: Bytes)
    requires TrimLeft(a) != [] && (b == [] || RuneStart(b[0]))
    ensures TrimLeft(a + b) == TrimLeft(a) + b
    decreases |a|
  {
    SpaceAtCut(a, b);
    var w := SpaceWidth(a);
    if w > 0 {
      assert (a + b)[w..] == a[w..] + b;
      TrimLeftConcat(a[w..], b);
    }
  }

  lemma {:induction false} StripShortens(s: Bytes)
    ensures |Strip(s)| <= |s|
    decreases |s|
  {
    if s != [] { StripShortens(if SpaceWidth(s) > 0 then s[SpaceWidth(s)..] else s[1..]); }
  }
}
