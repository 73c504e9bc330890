/** What the byte operations mean for characters: section 3 of RFC 3629 as an encoding of scalar values. */
module Unicode {
  import U = Utf8
  import T = Text

  type Bytes = U.Bytes

  /** A Unicode scalar value: a code point that is no surrogate. */
  predicate Scalar(c: int) { 0 <= c < 0xD800 || 0xE000 <= c < 0x110000 }

  function Encode(c: int): (s: Bytes)
    requires Scalar(c)
    ensures 1 <= |s| <= 4
  {
    if c < 0x80 then [c]
    else if c < 0x800 then [0xC0 + c / 0x40, 0x80 + c % 0x40]
    else if c < 0x10000 then [0xE0 + c / 0x1000, 0x80 + c / 0x40 % 0x40, 0x80 + c % 0x40]
    else [0xF0 + c / 0x40000, 0x80 + c / 0x1000 % 0x40, 0x80 + c / 0x40 % 0x40, 0x80 + c % 0x40]
  }

  predicate AllScalar(cs: seq<int>) { forall i :: 0 <= i < |cs| ==> Scalar(cs[i]) }

  function EncodeAll(cs: seq<int>): (s: Bytes)
    requires AllScalar(cs)
  {
    if cs == [] then [] else Encode(cs[0]) + EncodeAll(cs[1..])
  }

  // ----- valid text is encoded text -----

  lemma EncodedWidth(c: int)
    requires Scalar(c)
    ensures U.Width(Encode(c)) == |Encode(c)|
  {
    if 0x80 <= c < 0x800 {
      assert 2 <= c / 0x40 < 0x20;
    } else if 0x800 <= c < 0x10000 {
      ThreeWide(c);
    } else if 0x10000 <= c {
      FourWide(c);
    }
  }

  lemma ThreeWide(c: int)
    requires Scalar(c) && 0x800 <= c < 0x10000
    ensures U.Width(Encode(c)) == 3
  {
    var x, y, z := c / 0x1000, c / 0x40 % 0x40, c % 0x40;
    assert c / 0x40 == x * 0x40 + y && c == x * 0x1000 + y * 0x40 + z;
    assert 0 <= x < 0x10 && (x == 0 ==> y >= 0x20) && (x == 0xD ==> y < 0x20);
  }

  lemma FourWide(c: int)
    requires Scalar(c) && 0x10000 <= c
    ensures U.Width(Encode(c)) == 4
  {
    var w, x := c / 0x40000, c / 0x1000 % 0x40;
    assert c / 0x1000 == w * 0x40 + x;
    assert 0 <= w <= 4 && (w == 0 ==> x >= 0x10) && (w == 4 ==> x < 0x10);
  }

  lemma {:induction false} EncodedIsValid(cs: seq<int>)
    requires AllScalar(cs)
    ensures U.Valid(EncodeAll(cs))
  {
    if cs != [] {
      EncodedIsValid(cs[1..]);
      CharacterIsValid(cs[0]);
      U.ValidConcat(Encode(cs[0]), EncodeAll(cs[1..]));
    }
  }

  lemma CharacterIsValid(c: int)
    requires Scalar(c)
    ensures U.Valid(Encode(c))
  {
    hide Encode;
    EncodedWidth(c);
    var e := Encode(c);
    assert e[|e|..] == [];
  }

  /** The character that a well-formed sequence of bytes stands for. */
  lemma DecodeOne(s: Bytes) returns (c: int)
    requires |s| > 0 && U.Width(s) == |s|
    ensures Scalar(c) && Encode(c) == s
  {
    var a: int := s[0];
    if |s| == 1 {
      c := a;
    } else if |s| == 2 {
      var b: int := s[1];
      c := (a - 0xC0) * 0x40 + (b - 0x80);
    } else if |s| == 3 {
      var b: int, d: int := s[1], s[2];
      c := (a - 0xE0) * 0x1000 + (b - 0x80) * 0x40 + (d - 0x80);
      ThreeDigits(a - 0xE0, b - 0x80, d - 0x80);
    } else {
      var b: int, d: int, e: int := s[1], s[2], s[3];
      c := (a - 0xF0) * 0x40000 + (b - 0x80) * 0x1000 + (d - 0x80) * 0x40 + (e - 0x80);
      FourDigits(a - 0xF0, b - 0x80, d - 0x80, e - 0x80);
    }
  }

  lemma ThreeDigits(x: int, y: int, z: int)
    requires 0 <= x && 0 <= y < 0x40 && 0 <= z < 0x40
    ensures var c := x * 0x1000 + y * 0x40 + z; c / 0x1000 == x && c / 0x40 % 0x40 == y && c % 0x40 == z
  {
    var c := x * 0x1000 + y * 0x40 + z;
    assert c == (x * 0x40 + y) * 0x40 + z && c / 0x40 == x * 0x40 + y;
  }

  lemma FourDigits(w: int, x: int, y: int, z: int)
    requires 0 <= w && 0 <= x < 0x40 && 0 <= y < 0x40 && 0 <= z < 0x40
    ensures var c := w * 0x40000 + x * 0x1000 + y * 0x40 + z;
            c / 0x40000 == w && c / 0x1000 % 0x40 == x && c / 0x40 % 0x40 == y && c % 0x40 == z
  {
    ThreeDigits(w * 0x40 + x, y, z);
  }

  lemma DecodeHead(s: Bytes) returns (c: int)
    requires U.Width(s) > 0
    ensures Scalar(c) && Encode(c) == s[..U.Width(s)]
  {
    hide U.Width, Encode;
    U.WidthPrefix(s, s[..U.Width(s)]);
    c := DecodeOne(s[..U.Width(s)]);
  }

  lemma {:induction false} Decode(s: Bytes) returns (cs: seq<int>)
    requires U.Valid(s)
    ensures AllScalar(cs) && EncodeAll(cs) == s
    decreases |s|
  {
    hide *;
    if s == [] {
      cs := [];
      EncodeNothing();
    } else {
      ValidHead(s);
      var w := U.Width(s);
      var rest := Decode(s[w..]);
      var c := DecodeHead(s);
      cs := [c] + rest;
      EncodeCons(c, rest);
      assert s == s[..w] + s[w..];
    }
  }

  lemma EncodeNothing()
    ensures AllScalar([]) && EncodeAll([]) == []
  {
  }

  lemma ValidHead(s: Bytes)
    requires U.Valid(s) && s != []
    ensures U.Width(s) > 0 && U.Valid(s[U.Width(s)..])
  {
  }

  lemma EncodeCons(c: int, cs: seq<int>)
    requires Scalar(c) && AllScalar(cs)
    ensures AllScalar([c] + cs) && EncodeAll([c] + cs) == Encode(c) + EncodeAll(cs)
  {
    hide Encode;
    assert ([c] + cs)[1..] == cs;
  }

  /** Text is valid exactly when it encodes some scalar values. */
  lemma ValidIff(s: Bytes)
    ensures U.Valid(s) <==> exists cs :: AllScalar(cs) && EncodeAll(cs) == s
  {
    if U.Valid(s) { var cs := Decode(s); }
    if exists cs :: AllScalar(cs) && EncodeAll(cs) == s {
      var cs :| AllScalar(cs) && EncodeAll(cs) == s;
      EncodedIsValid(cs);
    }
  }

  // ----- white space in bytes is white space in characters -----

  lemma SpaceEncoded(c: int)
    requires Scalar(c)
    ensures U.SpaceWidth(Encode(c)) == if T.IsSpace(c as char) then |Encode(c)| else 0
  {
  }

  lemma EncodedStart(c: int)
    requires Scalar(c)
    ensures U.RuneStart(Encode(c)[0]) && forall i :: 1 <= i < |Encode(c)| ==> U.Continuation(Encode(c)[i])
  {
  }

  lemma StartsWell(cs: seq<int>)
    requires AllScalar(cs)
    ensures EncodeAll(cs) == [] || U.RuneStart(EncodeAll(cs)[0])
  {
    if cs != [] { EncodedStart(cs[0]); }
  }

  lemma {:induction false} StripContinuations(s: Bytes, rest: Bytes)
    requires forall i :: 0 <= i < |s| ==> U.Continuation(s[i])
    ensures U.Strip(s + rest) == s + U.Strip(rest)
    decreases |s|
  {
    hide U.Strip, U.Continuation;
    if s == [] {
      assert s + rest == rest && [] + U.Strip(rest) == U.Strip(rest);
    } else {
      StripNext(s + rest);
      assert (s + rest)[1..] == s[1..] + rest;
      StripContinuations(s[1..], rest);
      assert [s[0]] + (s[1..] + U.Strip(rest)) == s + U.Strip(rest);
    }
  }

  lemma StripNext(s: Bytes)
    requires s != [] && U.Continuation(s[0])
    ensures U.Strip(s) == [s[0]] + U.Strip(s[1..])
  {
    NoSpaceInside(s);
  }

  lemma NoSpaceInside(s: Bytes)
    requires s != [] && U.Continuation(s[0])
    ensures U.SpaceWidth(s) == 0
  {
  }

  lemma StripOne(c: int, rest: Bytes)
    requires Scalar(c) && (rest == [] || U.RuneStart(rest[0]))
    ensures U.Strip(Encode(c) + rest) == if T.IsSpace(c as char) then U.Strip(rest) else Encode(c) + U.Strip(rest)
  {
    hide Encode, T.IsSpace, U.SpaceWidth, U.Strip;
    var e := Encode(c);
    SpaceEncoded(c);
    EncodedStart(c);
    U.SpaceAtCut(e, rest);
    StripStep(e + rest);
    if T.IsSpace(c as char) {
      assert (e + rest)[|e|..] == rest;
    } else {
      assert (e + rest)[1..] == e[1..] + rest && (e + rest)[0] == e[0];
      StripContinuations(e[1..], rest);
      assert [e[0]] + (e[1..] + U.Strip(rest)) == e + U.Strip(rest);
    }
  }

  lemma StripStep(s: Bytes)
    requires s != []
    ensures U.Strip(s) == if U.SpaceWidth(s) > 0 then U.Strip(s[U.SpaceWidth(s)..]) else [s[0]] + U.Strip(s[1..])
  {
  }

  /** The characters that are not white space. */
  function Visible(cs: seq<int>): (vs: seq<int>)
    requires AllScalar(cs)
    ensures AllScalar(vs)
  {
    if cs == [] then [] else (if T.IsSpace(cs[0] as char) then [] else [cs[0]]) + Visible(cs[1..])
  }

  /** Stripping bytes deletes exactly the characters that are white space. */
  lemma {:induction false} StripEncoded(cs: seq<int>)
    requires AllScalar(cs)
    ensures U.Strip(EncodeAll(cs)) == EncodeAll(Visible(cs))
  {
    if cs != [] {
      hide Encode, T.IsSpace;
      StripEncoded(cs[1..]);
      StartsWell(cs[1..]);
      StripOne(cs[0], EncodeAll(cs[1..]));
      var rest := Visible(cs[1..]);
      if T.IsSpace(cs[0] as char) {
        assert [] + rest == rest;
      } else {
        assert ([cs[0]] + rest)[1..] == rest && ([cs[0]] + rest)[0] == cs[0];
      }
    }
  }

  // ----- trimming -----

  lemma {:induction false} EncodeSnoc(cs: seq<int>, c: int)
    requires AllScalar(cs) && Scalar(c)
    ensures AllScalar(cs + [c]) && EncodeAll(cs + [c]) == EncodeAll(cs) + Encode(c)
  {
    hide Encode;
    if cs == [] {
      assert cs + [c] == [c] && [c][1..] == [];
    } else {
      assert (cs + [c])[1..] == cs[1..] + [c];
      EncodeSnoc(cs[1..], c);
    }
  }

  /** White space at the end of the bytes is white space at the end of the characters. */
  lemma TailEncoded(front: Bytes, c: int)
    requires Scalar(c)
    ensures U.SpaceTail(front + Encode(c)) > 0 <==> T.IsSpace(c as char)
  {
    SpaceEncoded(c);
    EncodedStart(c);
    hide Encode, T.IsSpace;
    var e := Encode(c);
    var s := front + e;
    assert s[|s| - |e|..] == e;
    if T.IsSpace(c as char) {
      SpaceFound(s, |e|);
    } else if U.SpaceTail(s) > 0 {
      WholeCharacter(front, e, U.SpaceTail(s));
    }
  }

  lemma SpaceFound(s: Bytes, w: nat)
    requires 0 < w <= |s| && U.SpaceWidth(s[|s| - w..]) == w
    ensures U.SpaceTail(s) > 0
  {
  }

  /** A white-space character at the end is the last character. */
  lemma WholeCharacter(front: Bytes, e: Bytes, w: nat)
    requires e != [] && U.RuneStart(e[0]) && forall i :: 1 <= i < |e| ==> U.Continuation(e[i])
    requires 0 < w <= |front + e| && U.SpaceWidth((front + e)[|front + e| - w..]) == w
    ensures U.SpaceWidth(e) == |e|
  {
    hide U.SpaceWidth;
    var s := front + e;
    var tail := s[|s| - w..];
    U.SpaceShape(tail);
    U.WidthShape(tail);
    TailBytes(front, e, w);
    assert w == |e|;
    assert tail == e;
  }

  lemma TailBytes(front: Bytes, e: Bytes, w: nat)
    requires e != [] && 0 < w <= |front + e|
    ensures var s := front + e; var tail := s[|s| - w..];
            (w <= |e| ==> tail[0] == e[|e| - w]) && (w >= |e| ==> tail[w - |e|] == e[0])
  {
  }

  /** Trimmed text is text whose first and last characters, if any, are not white space. */
  lemma TrimmedEnds(s: Bytes) returns (cs: seq<int>)
    requires U.Valid(s)
    ensures AllScalar(cs) && U.Trim(s) == EncodeAll(cs)
    ensures cs == [] || (!T.IsSpace(cs[0] as char) && !T.IsSpace(cs[|cs| - 1] as char))
  {
    hide U.Trim, U.Valid, Encode, T.IsSpace, U.SpaceWidth, U.SpaceTail;
    U.TrimKeeps(s);
    U.TrimThorough(s);
    cs := Decode(U.Trim(s));
    if cs != [] {
      HeadEncoded(cs);
      var n := |cs| - 1;
      EncodeSnoc(cs[..n], cs[n]);
      assert cs == cs[..n] + [cs[n]];
      TailEncoded(EncodeAll(cs[..n]), cs[n]);
    }
  }

  lemma HeadEncoded(cs: seq<int>)
    requires AllScalar(cs) && cs != [] && U.SpaceWidth(EncodeAll(cs)) == 0
    ensures !T.IsSpace(cs[0] as char)
  {
    hide Encode, T.IsSpace, U.SpaceWidth;
    StartsWell(cs[1..]);
    U.SpaceAtCut(Encode(cs[0]), EncodeAll(cs[1..]));
    SpaceEncoded(cs[0]);
  }
}
