/** Where the lines and sections of a text lie in it (internal/knowledge/knowledge.go, the first loop of ChunkText). */
module Layout {
  import U = Utf8

  type Bytes = U.Bytes

  const NEWLINE: U.Byte := 0x0A
  const HASH: U.Byte := 0x23

  // ----- lines -----

  /** The pieces between newlines; the empty text has one empty line. */
  function Lines(s: Bytes): (lines: seq<Bytes>)
    ensures lines != []
    decreases |s|
  {
    if NEWLINE !in s then [s]
    else var i := FirstNewline(s); [s[..i]] + Lines(s[i + 1..])
  }

  function FirstNewline(s: Bytes): (i: nat)
    requires NEWLINE in s
    ensures i < |s| && s[i] == NEWLINE && NEWLINE !in s[..i]
  {
    if s[0] == NEWLINE then 0 else 1 + FirstNewline(s[1..])
  }

  /** Bytes that the lines take, each with its separator. */
  function Extent(lines: seq<Bytes>): (n: nat) {
    if lines == [] then 0 else Extent(lines[..|lines| - 1]) + |lines[|lines| - 1]| + 1
  }

  lemma {:induction false} ExtentFront(line: Bytes, lines: seq<Bytes>)
    ensures Extent([line] + lines) == |line| + 1 + Extent(lines)
  {
    if lines == [] {
      assert [line] + lines == [line] && [line][..0] == [];
    } else {
      var all := [line] + lines;
      assert all[..|all| - 1] == [line] + lines[..|lines| - 1];
      ExtentFront(line, lines[..|lines| - 1]);
    }
  }

  lemma {:induction false} LinesOf(s: Bytes)
    requires U.Valid(s)
    ensures Extent(Lines(s)) == |s| + 1
    ensures forall i :: 0 <= i < |Lines(s)| ==> U.Valid(Lines(s)[i]) && NEWLINE !in Lines(s)[i]
    decreases |s|
  {
    if NEWLINE in s {
      var i := FirstNewline(s);
      U.ValidCut(s, i);
      assert U.Width(s[i..]) == 1 && s[i..][1..] == s[i + 1..];
      LinesOf(s[i + 1..]);
      ExtentFront(s[..i], Lines(s[i + 1..]));
    } else {
      assert [s][..0] == [];
    }
  }

  predicate IsHeading(line: Bytes) { U.Trim(line) != [] && U.Trim(line)[0] == HASH }

  function TrimHashes(s: Bytes): (r: Bytes) { if s != [] && s[0] == HASH then TrimHashes(s[1..]) else s }

  function HeadingOf(line: Bytes): (r: Bytes) { U.Trim(TrimHashes(U.Trim(line))) }

  // ----- headings -----

  predicate Hashes(s: Bytes, n: nat) { n <= |s| && (forall i :: 0 <= i < n ==> s[i] == HASH) && (n == |s| || s[n] != HASH) }

  lemma {:induction false} TrimHashesIs(s: Bytes) returns (n: nat)
    ensures Hashes(s, n) && TrimHashes(s) == s[n..] && (s != [] && s[0] == HASH ==> n > 0)
  {
    if s != [] && s[0] == HASH {
      n := TrimHashesIs(s[1..]);
      n := n + 1;
    } else {
      n := 0;
    }
  }

  /** The heading of a line is what follows its hashes, without the white space around it. */
  ghost predicate IsHeadingOf(line: Bytes, heading: Bytes) {
    var t := U.Trim(line);
    exists n: nat :: n > 0 && Hashes(t, n) && heading == U.Trim(t[n..])
  }

  lemma HeadingIs(line: Bytes)
    requires IsHeading(line)
    ensures IsHeadingOf(line, HeadingOf(line))
    ensures U.SpaceWidth(HeadingOf(line)) == 0 && U.SpaceTail(HeadingOf(line)) == 0
  {
    hide U.Trim, U.SpaceWidth, U.SpaceTail;
    var t := U.Trim(line);
    var n := TrimHashesIs(t);
    U.TrimThorough(TrimHashes(t));
  }

  /** A heading written the usual way: hashes, a space, a title. */
  lemma UsualHeading(hashes: Bytes, title: Bytes)
    requires hashes != [] && Hashes(hashes, |hashes|)
    requires title != [] && title[0] != HASH && U.SpaceWidth(title) == 0 && U.SpaceTail(title) == 0
    ensures IsHeading(hashes + [0x20] + title) && HeadingOf(hashes + [0x20] + title) == title
  {
    hide U.Trim, U.SpaceWidth, U.SpaceTail;
    var line, rest: Bytes := hashes + [0x20] + title, [0x20] + title;
    assert line == hashes + rest;
    UsualTrim(hashes, title);
    FirstHash(hashes);
    HeadingIs(line);
    var n: nat :| n > 0 && Hashes(line, n) && HeadingOf(line) == U.Trim(line[n..]);
    HashCount(hashes, rest, n);
    assert line[n..] == rest;
    TrimOneSpace(title);
  }

  lemma FirstHash(hashes: Bytes)
    requires hashes != [] && Hashes(hashes, |hashes|)
    ensures hashes[0] == HASH
  {
  }

  lemma HashCount(hashes: Bytes, rest: Bytes, n: nat)
    requires Hashes(hashes, |hashes|) && rest != [] && rest[0] != HASH && Hashes(hashes + rest, n)
    ensures n == |hashes|
  {
    assert (hashes + rest)[|hashes|] == rest[0];
    assert forall i :: 0 <= i < |hashes| ==> (hashes + rest)[i] == hashes[i];
  }

  lemma UsualTrim(hashes: Bytes, title: Bytes)
    requires hashes != [] && Hashes(hashes, |hashes|) && title != [] && U.SpaceTail(title) == 0
    ensures U.Trim(hashes + [0x20] + title) == hashes + [0x20] + title
  {
    var line := hashes + [0x20] + title;
    assert U.SpaceWidth(line) == 0;
    NoSpaceTail(hashes + [0x20], title);
  }

  /** The end of a text decides about white space at its end, after a byte that begins none. */
  lemma NoSpaceTail(front: Bytes, s: Bytes)
    requires s != [] && U.SpaceTail(s) == 0 && |front| >= 2 && (forall i :: 0 <= i < |front| ==> front[i] < 0x80)
    ensures U.SpaceTail(front + s) == 0
  {
    var all := front + s;
    assert all[|all| - 1..] == s[|s| - 1..];
    if |s| >= 2 { assert all[|all| - 2..] == s[|s| - 2..]; } else { assert all[|all| - 2] == front[|front| - 1]; }
    if |s| >= 3 { assert all[|all| - 3..] == s[|s| - 3..]; } else { assert all[|all| - 3] == front[|front| - (3 - |s|)]; }
  }

  lemma TrimOneSpace(s: Bytes)
    requires U.SpaceWidth(s) == 0 && U.SpaceTail(s) == 0
    ensures U.Trim([0x20] + s) == s
  {
    var x: Bytes := [0x20] + s;
    assert U.SpaceWidth(x) == 1 && x[1..] == s;
    assert U.TrimLeft(s) == s && U.TrimLeft(x) == U.TrimLeft(x[1..]) && U.TrimRight(s) == s;
  }

  // ----- lines in the text -----

  /** The line stands at the position, up to a newline or the end of the text. */
  predicate StandsAt(text: Bytes, line: Bytes, at: nat) {
    && at + |line| <= |text| && text[at..at + |line|] == line
    && (at + |line| == |text| || text[at + |line|] == NEWLINE)
  }

  lemma {:induction false} LineStands(text: Bytes, i: nat)
    requires i < |Lines(text)|
    ensures StandsAt(text, Lines(text)[i], Extent(Lines(text)[..i]))
    decreases |text|
  {
    if i == 0 {
      assert Lines(text)[..0] == [];
    } else {
      var j := FirstNewline(text);
      var first, rest := text[..j], text[j + 1..];
      var more := Lines(rest);
      assert Lines(text) == [first] + more;
      LineStands(rest, i - 1);
      hide *;
      Later(text, first, more, rest, j, i);
    }
  }

  lemma Later(text: Bytes, first: Bytes, more: seq<Bytes>, rest: Bytes, j: nat, i: nat)
    requires j < |text| && |first| == j && rest == text[j + 1..] && 0 < i <= |more|
    requires StandsAt(rest, more[i - 1], Extent(more[..i - 1]))
    ensures StandsAt(text, ([first] + more)[i], Extent(([first] + more)[..i]))
  {
    hide Extent, StandsAt;
    assert ([first] + more)[..i] == [first] + more[..i - 1];
    ExtentFront(first, more[..i - 1]);
    Shifted(text, rest, j + 1, more[i - 1], Extent(more[..i - 1]));
  }

  lemma Shifted(text: Bytes, rest: Bytes, skip: nat, line: Bytes, at: nat)
    requires skip <= |text| && rest == text[skip..] && StandsAt(rest, line, at)
    ensures StandsAt(text, line, skip + at)
  {
  }

  // ----- sections -----

  /** Where the section of heading line k begins; line -1 stands for the text before the first heading line. */
  function HeadStart(lines: seq<Bytes>, k: int): (at: nat)
    requires -1 <= k < |lines|
  {
    if k < 0 then 0 else Extent(lines[..k])
  }

  /** Where the lines below the heading line begin. */
  function BelowHead(lines: seq<Bytes>, k: int): (at: nat)
    requires -1 <= k < |lines|
  {
    Extent(lines[..k + 1])
  }

  /** There is a section of heading line k. */
  predicate HeadsSection(lines: seq<Bytes>, k: int) { -1 <= k < |lines| && (k >= 0 ==> IsHeading(lines[k])) }

  function HeadingAt(lines: seq<Bytes>, k: int): (heading: Bytes)
    requires -1 <= k < |lines|
  {
    if k < 0 then [] else HeadingOf(lines[k])
  }

  predicate Titled(lines: seq<Bytes>, heading: Bytes, k: int) { HeadsSection(lines, k) && heading == HeadingAt(lines, k) }

  /** The next heading line, or the number of lines when there is none. */
  function NextHead(lines: seq<Bytes>, k: int): (n: nat)
    requires -1 <= k < |lines|
    ensures k < n <= |lines| && (n < |lines| ==> IsHeading(lines[n])) && forall j :: k < j < n ==> !IsHeading(lines[j])
    decreases |lines| - k
  {
    if k + 1 == |lines| || IsHeading(lines[k + 1]) then k + 1 else NextHead(lines, k + 1)
  }

  /** The lines of a section with the newlines between them, as they stand in the text. */
  function SectionText(text: Bytes, lines: seq<Bytes>, k: int): (s: Bytes)
    requires -1 <= k < |lines|
  {
    var from, to := BelowHead(lines, k), Extent(lines[..NextHead(lines, k)]) - 1;
    if from <= to <= |text| then text[from..to] else []
  }

  /** The text of a section without the white space around it. */
  function SectionBody(text: Bytes, lines: seq<Bytes>, k: int): (s: Bytes)
    requires -1 <= k < |lines|
  {
    U.Trim(SectionText(text, lines, k))
  }

  lemma NextHeadIs(lines: seq<Bytes>, k: int, n: nat)
    requires -1 <= k < n <= |lines| && (n < |lines| ==> IsHeading(lines[n])) && forall j :: k < j < n ==> !IsHeading(lines[j])
    ensures NextHead(lines, k) == n
  {
    hide IsHeading;
  }

  /** A section that a further heading line has closed does not change with later lines. */
  lemma SectionStays(text: Bytes, lines: seq<Bytes>, line: Bytes, k: int)
    requires HeadsSection(lines, k) && NextHead(lines, k) < |lines|
    ensures HeadsSection(lines + [line], k) && NextHead(lines + [line], k) == NextHead(lines, k)
    ensures SectionText(text, lines + [line], k) == SectionText(text, lines, k)
    ensures HeadingAt(lines + [line], k) == HeadingAt(lines, k) && HeadStart(lines + [line], k) == HeadStart(lines, k)
  {
    hide IsHeading, HeadingOf;
    var n := NextHead(lines, k);
    NextHeadIs(lines + [line], k, n);
    PositionsStay(lines, line, HeadingAt(lines, k), k);
    assert (lines + [line])[..n] == lines[..n];
  }

  /** No heading line from the given one on begins before the position. */
  ghost predicate EndsBefore(lines: seq<Bytes>, from: int, high: int)
    requires 0 <= from
  {
    forall k :: from <= k < |lines| && IsHeading(lines[k]) ==> high <= Extent(lines[..k])
  }

  /** The interval lies in the section of heading line k. */
  ghost predicate Within(lines: seq<Bytes>, heading: Bytes, low: int, high: int, k: int) {
    Titled(lines, heading, k) && HeadStart(lines, k) <= low && EndsBefore(lines, k + 1, high)
  }

  /** A nonempty interval lies in one section only. */
  lemma OneSection(lines: seq<Bytes>, heading: Bytes, low: int, high: int, k: int, m: int)
    requires low < high && Within(lines, heading, low, high, k) && Within(lines, heading, low, high, m)
    ensures k == m
  {
  }

  /** The body is a stretch of the text that begins, after newlines at most, at h and ends at a newline or at the end. */
  predicate CopiedAt(text: Bytes, h: nat, body: Bytes, b: int) {
    h <= b && StandsAt(text, body, b) && forall x :: h <= x < b ==> text[x] == NEWLINE
  }

  lemma ExtentAppend(lines: seq<Bytes>, line: Bytes)
    ensures Extent(lines + [line]) == Extent(lines) + |line| + 1
  {
    assert (lines + [line])[..|lines|] == lines;
  }

  /** Positions do not depend on later lines. */
  lemma PositionsStay(lines: seq<Bytes>, line: Bytes, heading: Bytes, k: int)
    requires Titled(lines, heading, k)
    ensures Titled(lines + [line], heading, k)
    ensures HeadStart(lines + [line], k) == HeadStart(lines, k) && BelowHead(lines + [line], k) == BelowHead(lines, k)
  {
    assert k >= 0 ==> (lines + [line])[..k] == lines[..k];
    assert (lines + [line])[..k + 1] == lines[..k + 1];
  }

  lemma {:induction false} ExtentGrows(lines: seq<Bytes>, i: nat, j: nat)
    requires i <= j <= |lines|
    ensures Extent(lines[..i]) <= Extent(lines[..j])
  {
    if i < j {
      ExtentGrows(lines, i, j - 1);
      assert lines[..j][..j - 1] == lines[..j - 1];
    }
  }

  // ----- quoting the text -----

  /** How many bytes of white space the text begins with. */
  function Lead(s: Bytes): (n: nat) { |s| - |U.TrimLeft(s)| }

  /** How far the text of a section stands behind the offsets that count from its heading line: the heading line
      with its newline, and the white space after it. */
  function Shift(text: Bytes, lines: seq<Bytes>, k: int): (n: int)
    requires -1 <= k < |lines| && BelowHead(lines, k) <= |text|
  {
    BelowHead(lines, k) - HeadStart(lines, k) + Lead(text[BelowHead(lines, k)..])
  }

  /** Offsets are exact positions only before the first heading line of a text that does not begin with white space. */
  lemma ShiftZeroIff(text: Bytes, lines: seq<Bytes>, k: int)
    requires -1 <= k < |lines| && BelowHead(lines, k) <= |text|
    ensures Shift(text, lines, k) >= 0
    ensures Shift(text, lines, k) == 0 <==> k == -1 && U.SpaceWidth(text) == 0
  {
    if k >= 0 {
      assert lines[..k + 1] == lines[..k] + [lines[k]];
      ExtentAppend(lines[..k], lines[k]);
    } else {
      assert lines[..0] == [] && text[0..] == text;
    }
  }

  lemma LeadNewline(s: Bytes)
    requires s != [] && s[0] == NEWLINE
    ensures Lead(s) == 1 + Lead(s[1..])
  {
    assert U.SpaceWidth(s) == 1;
  }

  lemma LeadConcat(body: Bytes, rest: Bytes)
    requires U.TrimLeft(body) != [] && (rest == [] || rest[0] == NEWLINE)
    ensures Lead(body + rest) == Lead(body)
  {
    U.TrimLeftConcat(body, rest);
  }

  /** Newlines in front of a text belong to its white space. */
  lemma {:induction false} LeadOf(nl: Bytes, body: Bytes)
    requires forall x :: 0 <= x < |nl| ==> nl[x] == NEWLINE
    ensures Lead(nl + body) == |nl| + Lead(body)
    decreases |nl|
  {
    hide Lead;
    if nl == [] {
      assert nl + body == body;
    } else {
      LeadNewline(nl + body);
      assert (nl + body)[1..] == nl[1..] + body;
      LeadOf(nl[1..], body);
    }
  }

  lemma {:induction false} TrimNewlines(nl: Bytes, s: Bytes)
    requires forall x :: 0 <= x < |nl| ==> nl[x] == NEWLINE
    ensures U.TrimLeft(nl + s) == U.TrimLeft(s) && U.Trim(nl + s) == U.Trim(s)
    decreases |nl|
  {
    if nl == [] {
      assert nl + s == s;
    } else {
      assert U.SpaceWidth(nl + s) == 1 && (nl + s)[1..] == nl[1..] + s;
      TrimNewlines(nl[1..], s);
    }
  }

  lemma Stretch(text: Bytes, b: nat, body: Bytes, lead: nat, n: nat)
    requires b + |body| <= |text| && text[b..b + |body|] == body && lead + n <= |body|
    ensures text[b + lead..b + lead + n] == body[lead..lead + n]
  {
    forall i | 0 <= i < |body| ensures text[b + i] == body[i] { assert text[b..b + |body|][i] == body[i]; }
  }

  lemma Parts(text: Bytes, h: nat, b: nat, body: Bytes)
    requires h <= b && b + |body| <= |text| && text[b..b + |body|] == body
    ensures text[h..] == text[h..b] + (body + text[b + |body|..])
  {
    var tail := text[h..];
    assert tail[..b - h] == text[h..b] && tail[b - h..] == text[b..];
    assert text[b..] == text[b..b + |body|] + text[b + |body|..];
  }

  /** The trimmed body is the stretch of the text that begins at the first byte after h that is not white space. */
  lemma TrimmedStands(text: Bytes, h: nat, body: Bytes, b: int)
    requires h <= |text| && CopiedAt(text, h, body, b) && U.Trim(body) != []
    ensures var at := h + Lead(text[h..]);
            h <= at && at + |U.Trim(body)| <= b + |body| <= |text| && text[at..at + |U.Trim(body)|] == U.Trim(body)
  {
    U.TrimIsSlice(body);
    hide U.Trim, U.TrimLeft;
    LeadOf(text[h..b], body + text[b + |body|..]);
    LeadConcat(body, text[b + |body|..]);
    Parts(text, h, b, body);
    Stretch(text, b, body, Lead(body), |U.Trim(body)|);
  }
}
