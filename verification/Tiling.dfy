/** The cuts of a section's text into parts (internal/knowledge/knowledge.go, the second loop of ChunkText): each part
    takes as much as the limit allows without splitting a character, so that the limit alone determines the cuts. */
module Tiling {
  import opened Layout
  import U = Utf8

  /** The farthest place after `from`, within the limit, where the text ends or a character starts. */
  predicate IsNextCut(body: Bytes, from: int, to: int, maxBytes: int) {
    && 0 <= from < to <= |body| && to - from <= maxBytes
    && (to == |body| || U.RuneStart(body[to]))
    && forall x :: to < x <= |body| && x - from <= maxBytes ==> InsideCharacter(body, x)
  }

  predicate InsideCharacter(body: Bytes, x: int) { 0 <= x < |body| && !U.RuneStart(body[x]) }

  lemma CutBytes(body: Bytes, from: int, to: int, maxBytes: int)
    requires IsNextCut(body, from, to, maxBytes)
    ensures to == |body| || from + maxBytes < |body|
    ensures forall x :: to < x < |body| && x <= from + maxBytes ==> 0x80 <= body[x] <= 0xBF
  {
    if to < |body| <= from + maxBytes { NoneBeyond(body, from, to, |body|, maxBytes); }
    forall x | to < x < |body| && x <= from + maxBytes ensures 0x80 <= body[x] <= 0xBF {
      NoneBeyond(body, from, to, x, maxBytes);
    }
  }

  /** In text of single-byte characters the next cut is as far as the limit allows. */
  lemma PlainCut(body: Bytes, from: int, to: int, maxBytes: int)
    requires IsNextCut(body, from, to, maxBytes) && forall i :: 0 <= i < |body| ==> body[i] < 0x80
    ensures to == if |body| <= from + maxBytes then |body| else from + maxBytes
  {
    var far := if |body| <= from + maxBytes then |body| else from + maxBytes;
    if to < far { NoneBeyond(body, from, to, far, maxBytes); }
  }

  /** In any text it falls short of the limit by less than a character. */
  lemma NearlyFull(body: Bytes, from: int, to: int, maxBytes: int)
    requires IsNextCut(body, from, to, maxBytes) && U.Valid(body) && to < |body| && maxBytes >= 4
    ensures to - from > maxBytes - 4
  {
    if from + maxBytes < |body| {
      var j := U.StartNearby(body, from + maxBytes);
      if to < j { NoneBeyond(body, from, to, j, maxBytes); }
    } else {
      NoneBeyond(body, from, to, |body|, maxBytes);
    }
  }

  lemma NextCutUnique(body: Bytes, from: int, a: int, b: int, maxBytes: int)
    requires IsNextCut(body, from, a, maxBytes) && IsNextCut(body, from, b, maxBytes)
    ensures a == b
  {
    if a < b { NoneBeyond(body, from, a, b, maxBytes); }
    if b < a { NoneBeyond(body, from, b, a, maxBytes); }
  }

  lemma NoneBeyond(body: Bytes, from: int, to: int, x: int, maxBytes: int)
    requires IsNextCut(body, from, to, maxBytes) && to < x <= |body| && x - from <= maxBytes
    ensures InsideCharacter(body, x)
  {
  }

  predicate Joint(body: Bytes, cuts: seq<int>, i: int, maxBytes: int)
    requires 0 <= i < |cuts| - 1
  {
    IsNextCut(body, cuts[i], cuts[i + 1], maxBytes)
  }

  /** Cuts from the beginning on, each the next one after its predecessor. */
  ghost predicate Steps(body: Bytes, maxBytes: int, cuts: seq<int>) {
    cuts != [] && cuts[0] == 0 && forall i :: 0 <= i < |cuts| - 1 ==> Joint(body, cuts, i, maxBytes)
  }

  /** All cuts, up to the end of the text. */
  ghost predicate IsTiling(body: Bytes, maxBytes: int, cuts: seq<int>) {
    Steps(body, maxBytes, cuts) && cuts[|cuts| - 1] == |body|
  }

  lemma {:induction false} CutsAgree(body: Bytes, maxBytes: int, a: seq<int>, b: seq<int>, i: nat)
    requires Steps(body, maxBytes, a) && Steps(body, maxBytes, b) && i < |a| && i < |b|
    ensures a[i] == b[i]
  {
    if i > 0 {
      CutsAgree(body, maxBytes, a, b, i - 1);
      assert Joint(body, a, i - 1, maxBytes) && Joint(body, b, i - 1, maxBytes);
      NextCutUnique(body, a[i - 1], a[i], b[i], maxBytes);
    }
  }

  lemma StepAt(body: Bytes, maxBytes: int, cuts: seq<int>, i: nat)
    requires Steps(body, maxBytes, cuts) && i < |cuts| - 1
    ensures IsNextCut(body, cuts[i], cuts[i + 1], maxBytes)
  {
    assert Joint(body, cuts, i, maxBytes);
  }

  lemma NotLonger(body: Bytes, maxBytes: int, a: seq<int>, b: seq<int>)
    requires IsTiling(body, maxBytes, a) && Steps(body, maxBytes, b)
    ensures |b| <= |a|
  {
    if |a| < |b| {
      StepAt(body, maxBytes, b, |a| - 1);
      CutsAgree(body, maxBytes, a, b, |a| - 1);
    }
  }

  /** A text has only one tiling. */
  lemma TilingUnique(body: Bytes, maxBytes: int, a: seq<int>, b: seq<int>)
    requires IsTiling(body, maxBytes, a) && IsTiling(body, maxBytes, b)
    ensures a == b
  {
    NotLonger(body, maxBytes, a, b);
    NotLonger(body, maxBytes, b, a);
    forall i | 0 <= i < |a| ensures a[i] == b[i] { CutsAgree(body, maxBytes, a, b, i); }
  }

  lemma AddCut(body: Bytes, maxBytes: int, cuts: seq<int>, to: int)
    requires Steps(body, maxBytes, cuts) && IsNextCut(body, cuts[|cuts| - 1], to, maxBytes)
    ensures Steps(body, maxBytes, cuts + [to])
  {
    var more := cuts + [to];
    forall i | 0 <= i < |more| - 1 ensures Joint(body, more, i, maxBytes) {
      if i < |cuts| - 1 { assert Joint(body, cuts, i, maxBytes); }
    }
  }

  /** The text of a part without the white space around it. */
  function PartText(body: Bytes, cuts: seq<int>, i: int): (s: Bytes) {
    if 0 <= i < |cuts| - 1 && 0 <= cuts[i] <= cuts[i + 1] <= |body| then U.Trim(body[cuts[i]..cuts[i + 1]]) else []
  }
}
