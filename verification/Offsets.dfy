/** What the offsets of chunks mean (internal/knowledge/knowledge.go, ChunkText): they count from the heading line of
    the section and ignore trimming, so they are positions of the chunk's text in one case only. */
module Offsets {
  import opened Layout
  import opened Tiling
  import opened Chunking
  import opened Quoting
  import U = Utf8

  /** Before the first heading line of a text that does not begin with white space, the offsets are positions. */
  lemma OffsetsExact(text: Bytes, lines: seq<Bytes>, c: Chunk)
    requires QuotedFrom(text, lines, c, -1) && U.SpaceWidth(text) == 0
    ensures c.text == U.Trim(text[c.start..c.end])
  {
    hide U.Trim, U.SpaceWidth, U.TrimLeft, Shift;
    ShiftZeroIff(text, lines, -1);
  }

  // ----- below a heading line they are not -----

  /** The first byte that is not white space, or 0x20 when there is none. */
  function First(s: Bytes): (b: U.Byte) { if U.TrimLeft(s) == [] then 0x20 else U.TrimLeft(s)[0] }

  lemma {:induction false} TrimLeftBlank(a: Bytes, b: Bytes)
    requires U.TrimLeft(a) == [] && (b == [] || U.RuneStart(b[0]))
    ensures U.TrimLeft(a + b) == U.TrimLeft(b)
    decreases |a|
  {
    if a == [] {
      assert a + b == b;
    } else {
      U.SpaceAtCut(a, b);
      var w := U.SpaceWidth(a);
      assert (a + b)[w..] == a[w..] + b;
      TrimLeftBlank(a[w..], b);
    }
  }

  lemma FirstConcat(a: Bytes, b: Bytes)
    requires b == [] || U.RuneStart(b[0])
    ensures First(a + b) == if U.TrimLeft(a) == [] then First(b) else First(a)
  {
    if U.TrimLeft(a) == [] { TrimLeftBlank(a, b); } else { U.TrimLeftConcat(a, b); }
  }

  /** Trimming keeps the first byte that is not white space. */
  lemma TrimFirst(s: Bytes)
    ensures U.TrimLeft(s) == [] ==> U.Trim(s) == []
    ensures U.TrimLeft(s) != [] ==> U.Trim(s) != [] && U.Trim(s)[0] == First(s)
  {
    U.TrimLeftStart(s);
    U.TrimRightStart(U.TrimLeft(s));
    U.TrimRightIsPrefix(U.TrimLeft(s));
  }

  lemma HeadingFirst(line: Bytes)
    ensures IsHeading(line) <==> First(line) == HASH
  {
    TrimFirst(line);
  }

  /** A cut in front of a start byte does not create white space. */
  lemma FirstOfPrefix(s: Bytes, n: nat)
    requires 0 < n <= |s| && U.SpaceWidth(s) == 0 && (n == |s| || U.RuneStart(s[n]))
    ensures First(s[..n]) == s[0]
  {
    assert s == s[..n] + s[n..];
    U.SpaceAtCut(s[..n], s[n..]);
  }

  /** Lines that are not headings show no "#" first. */
  lemma {:induction false} LinesFirst(text: Bytes, j: nat, n: nat)
    requires j < n <= |Lines(text)| && forall m :: j <= m < n ==> !IsHeading(Lines(text)[m])
    ensures var from, to := Extent(Lines(text)[..j]), Extent(Lines(text)[..n]) - 1;
            from <= to <= |text| && First(text[from..to]) != HASH
    decreases n - j
  {
    hide IsHeading, Extent, Lines, First, StandsAt;
    var lines := Lines(text);
    LineStands(text, j);
    NextExtent(lines, j);
    HeadingFirst(lines[j]);
    if j + 1 < n {
      LinesFirst(text, j + 1, n);
      LineThenMore(text, Extent(lines[..j]), lines[j], Extent(lines[..n]) - 1);
    } else {
      OnlyLine(text, Extent(lines[..j]), lines[j]);
    }
  }

  lemma NextExtent(lines: seq<Bytes>, j: nat)
    requires j < |lines|
    ensures Extent(lines[..j + 1]) == Extent(lines[..j]) + |lines[j]| + 1
  {
    assert lines[..j + 1] == lines[..j] + [lines[j]];
    ExtentAppend(lines[..j], lines[j]);
  }

  lemma OnlyLine(text: Bytes, from: nat, line: Bytes)
    requires StandsAt(text, line, from) && First(line) != HASH
    ensures from + |line| <= |text| && First(text[from..from + |line|]) != HASH
  {
    hide First;
  }

  lemma LineThenMore(text: Bytes, from: nat, line: Bytes, to: nat)
    requires StandsAt(text, line, from) && from + |line| + 1 <= to <= |text|
    requires First(line) != HASH && First(text[from + |line| + 1..to]) != HASH
    ensures First(text[from..to]) != HASH
  {
    hide First, U.TrimLeft;
    var nl: Bytes, rest := [NEWLINE], text[from + |line| + 1..to];
    LineSplit(text, from, line, to);
    FirstConcat(line, nl + rest);
    NewlineFirst(nl, rest);
  }

  lemma LineSplit(text: Bytes, from: nat, line: Bytes, to: nat)
    requires StandsAt(text, line, from) && from + |line| + 1 <= to <= |text|
    ensures text[from..to] == line + ([NEWLINE] + text[from + |line| + 1..to])
  {
    var m := from + |line|;
    assert text[from..to] == text[from..m] + ([text[m]] + text[m + 1..to]);
  }

  lemma NewlineFirst(nl: Bytes, rest: Bytes)
    requires nl == [NEWLINE]
    ensures First(nl + rest) == First(rest)
  {
    hide U.TrimLeft;
    TrimNewlines(nl, rest);
  }

  /** What is left of a prefix of white space after trimming is empty or half a character. */
  lemma {:induction false} BlankPrefix(s: Bytes, n: nat)
    requires U.TrimLeft(s) == [] && n <= |s|
    ensures U.Trim(s[..n]) == [] || !U.Valid(U.Trim(s[..n]))
    decreases |s|
  {
    hide U.Trim, U.Valid, U.SpaceWidth;
    var p, w := s[..n], U.SpaceWidth(s);
    if n == 0 {
      assert p == [];
      TrimNothing();
    } else if n >= w {
      SpacePrefix(s, n);
      TrimSkips(p);
      assert p[w..] == s[w..][..n - w];
      BlankPrefix(s[w..], n - w);
    } else {
      HalfCharacter(s, n);
    }
  }

  lemma TrimSkips(p: Bytes)
    requires U.SpaceWidth(p) > 0
    ensures U.Trim(p) == U.Trim(p[U.SpaceWidth(p)..])
  {
  }

  lemma SpacePrefix(s: Bytes, n: nat)
    requires 0 < U.SpaceWidth(s) <= n <= |s|
    ensures U.SpaceWidth(s[..n]) == U.SpaceWidth(s)
  {
  }

  lemma HalfCharacter(s: Bytes, n: nat)
    requires 0 < n < U.SpaceWidth(s)
    ensures !U.Valid(U.Trim(s[..n]))
  {
    hide U.Trim, U.Valid;
    if n == 1 { OneByte(s[..n]); } else { TwoBytes(s[..n]); }
  }

  lemma OneByte(p: Bytes)
    requires |p| == 1 && p[0] in {0xC2, 0xE1, 0xE2, 0xE3}
    ensures !U.Valid(U.Trim(p))
  {
    assert p[0..] == p;
    assert U.SpaceTail(p) == 0 && U.Width(p) == 0;
  }

  lemma TwoBytes(p: Bytes)
    requires |p| == 2 && p[0] in {0xE1, 0xE2, 0xE3} && U.Continuation(p[1])
    ensures !U.Valid(U.Trim(p))
  {
    assert p[0..] == p && p[1..] == [p[1]];
    assert U.SpaceWidth([p[1]]) == 0 && U.SpaceWidth(p) == 0;
    assert U.SpaceTail(p) == 0 && U.Width(p) == 0;
  }

  /** The white space in front of a heading line is all white space. */
  lemma {:induction false} LeadBlank(s: Bytes)
    requires First(s) == HASH
    ensures Lead(s) < |s| && s[Lead(s)] == HASH && U.TrimLeft(s[..Lead(s)]) == []
    decreases |s|
  {
    var w := U.SpaceWidth(s);
    if w > 0 {
      LeadBlank(s[w..]);
      hide U.SpaceWidth, First;
      LeadStep(s, Lead(s));
    } else {
      assert s[..0] == [];
    }
  }

  lemma LeadStep(s: Bytes, lead: nat)
    requires var w := U.SpaceWidth(s); 0 < w <= lead < |s| && U.TrimLeft(s[w..][..lead - w]) == []
    requires U.RuneStart(s[lead])
    ensures U.TrimLeft(s[..lead]) == []
  {
    hide U.SpaceWidth;
    var w := U.SpaceWidth(s);
    assert s == s[..lead] + s[lead..] && s[..lead][w..] == s[w..][..lead - w];
    U.SpaceAtCut(s[..lead], s[lead..]);
  }

  /** A stretch that begins where a heading line begins never trims to valid text that begins otherwise. */
  lemma HeadingStretch(text: Bytes, line: Bytes, from: nat, to: nat, other: Bytes)
    requires StandsAt(text, line, from) && IsHeading(line) && from <= to <= |text|
    requires other != [] && U.Valid(other) && other[0] != HASH
    ensures U.Trim(text[from..to]) != other
  {
    hide U.Trim, U.Valid, U.TrimLeft, First, IsHeading, Lead, StandsAt;
    HeadingFirst(line);
    LeadBlank(line);
    var lead := Lead(line);
    if to - from <= lead {
      WithinLead(text, line, from, to, lead);
      BlankPrefix(line[..lead], to - from);
    } else {
      PastLead(text, line, from, to, lead);
      BeyondLead(line[..lead], text[from + lead..to]);
    }
  }

  lemma WithinLead(text: Bytes, line: Bytes, from: nat, to: nat, lead: nat)
    requires StandsAt(text, line, from) && from <= to <= |text| && to - from <= lead <= |line|
    ensures text[from..to] == line[..lead][..to - from]
  {
    LineBytes(text, line, from);
  }

  lemma PastLead(text: Bytes, line: Bytes, from: nat, to: nat, lead: nat)
    requires StandsAt(text, line, from) && from + lead < to <= |text| && lead < |line|
    ensures text[from..to] == line[..lead] + text[from + lead..to] && text[from + lead] == line[lead]
  {
    LineBytes(text, line, from);
  }

  lemma LineBytes(text: Bytes, line: Bytes, from: nat)
    requires StandsAt(text, line, from)
    ensures forall i :: from <= i < from + |line| ==> text[i] == line[i - from]
  {
    forall i | from <= i < from + |line| ensures text[i] == line[i - from] { assert text[from..from + |line|][i - from] == line[i - from]; }
  }

  lemma BeyondLead(lead: Bytes, rest: Bytes)
    requires U.TrimLeft(lead) == [] && rest != [] && rest[0] == HASH
    ensures U.Trim(lead + rest) != [] && U.Trim(lead + rest)[0] == HASH
  {
    hide U.Trim;
    TrimLeftBlank(lead, rest);
    assert U.TrimLeft(rest) == rest;
    TrimFirst(lead + rest);
  }

  /** The text of a section does not begin with "#". */
  lemma BodyFirst(text: Bytes, k: int)
    requires -1 <= k < |Lines(text)| && SectionBody(text, Lines(text), k) != []
    ensures SectionBody(text, Lines(text), k)[0] != HASH && U.SpaceWidth(SectionBody(text, Lines(text), k)) == 0
  {
    hide IsHeading, SectionText, Lines, Extent, U.Trim, First, U.TrimLeft, U.SpaceWidth;
    var lines := Lines(text);
    var whole := SectionText(text, lines, k);
    TrimNothing();
    TextBounds(text, lines, k);
    SomeLines(text, lines, k);
    LinesFirst(text, k + 1, NextHead(lines, k));
    U.TrimThorough(whole);
    TrimFirst(whole);
  }

  lemma SomeLines(text: Bytes, lines: seq<Bytes>, k: int)
    requires -1 <= k < |lines| && SectionText(text, lines, k) != []
    ensures k + 1 < NextHead(lines, k)
  {
    hide IsHeading, Extent;
  }

  /** The first chunk below a heading line never is the text between its offsets: the one begins with "#", the other
      cannot. */
  lemma OffsetsNeverExact(text: Bytes, maxBytes: int, k: int, cuts: seq<int>, i: int, c: Chunk)
    requires Piece(text, Lines(text), maxBytes, k, cuts, i, c) && WellFormed(c, maxBytes)
    requires k >= 0 && c.start == HeadStart(Lines(text), k)
    ensures 0 <= c.start <= c.end <= |text| && c.text != U.Trim(text[c.start..c.end])
  {
    var lines := Lines(text);
    var body := SectionBody(text, lines, k);
    NotBlank(text, lines, maxBytes, k, cuts, i, c);
    FirstByte(body, cuts, i, maxBytes, c);
    hide IsHeading, HeadingOf, SectionBody, Lines, U.Trim, U.Valid, IsTiling, PartText;
    PieceIsQuoted(text, maxBytes, k, cuts, i, c);
    ShiftZeroIff(text, lines, k);
    BodyFirst(text, k);
    LineStands(text, k);
    HeadingStretch(text, lines[k], c.start, c.end, c.text);
  }

  /** The first part of a body begins as the body does. */
  lemma FirstByte(body: Bytes, cuts: seq<int>, i: int, maxBytes: int, c: Chunk)
    requires IsTiling(body, maxBytes, cuts) && PartText(body, cuts, i) != [] && c.text == PartText(body, cuts, i) && cuts[i] == 0
    ensures body != [] && c.text != [] && (U.SpaceWidth(body) == 0 ==> c.text[0] == body[0])
  {
    hide U.Trim, U.TrimLeft, U.SpaceWidth, First;
    PartRange(body, cuts, i);
    StepAt(body, maxBytes, cuts, i);
    var part := body[..cuts[i + 1]];
    assert body[0..cuts[i + 1]] == part;
    if U.SpaceWidth(body) == 0 {
      FirstOfPrefix(body, cuts[i + 1]);
      TrimFirst(part);
    }
  }

  // ----- an instance -----

  const TITLE: Bytes := [0x23, 0x20, 0x68] // "# h"
  const WORD: Bytes := [0x61, 0x62, 0x63] // "abc"
  const SAMPLE: Bytes := [0x23, 0x20, 0x68, 0x0A, 0x61, 0x62, 0x63]

  lemma {:induction false} FirstNewlineIs(s: Bytes, n: nat)
    requires n < |s| && s[n] == NEWLINE && forall i :: 0 <= i < n ==> s[i] != NEWLINE
    ensures FirstNewline(s) == n
  {
    if n > 0 { FirstNewlineIs(s[1..], n - 1); }
  }

  lemma SampleLines()
    ensures Lines(SAMPLE) == [TITLE, WORD]
  {
    assert SAMPLE[3] == NEWLINE;
    FirstNewlineIs(SAMPLE, 3);
    assert SAMPLE[..3] == TITLE && SAMPLE[4..] == WORD;
    assert Lines(WORD) == [WORD];
  }

  lemma SampleText()
    ensures |SAMPLE| == 7 && SAMPLE[0..3] == TITLE && WORD != []
  {
  }

  lemma TitleTrimmed()
    ensures U.Trim(TITLE) == TITLE && IsHeading(TITLE)
  {
    assert U.SpaceWidth(TITLE) == 0 && U.SpaceTail(TITLE) == 0;
  }

  lemma WordTrimmed()
    ensures U.Trim(WORD) == WORD && Lead(WORD) == 0 && !IsHeading(WORD)
  {
    assert U.SpaceWidth(WORD) == 0 && U.SpaceTail(WORD) == 0;
  }

  // The sections of the sample: nothing before the heading line, "abc" below it.

  lemma SampleSections(k: int)
    requires -1 <= k < |Lines(SAMPLE)| && HeadsSection(Lines(SAMPLE), k)
    ensures k == -1 || k == 0
    ensures SectionBody(SAMPLE, Lines(SAMPLE), k) == if k == 0 then WORD else []
  {
    SampleLines();
    TitleTrimmed();
    WordTrimmed();
    TrimNothing();
    var lines := Lines(SAMPLE);
    hide IsHeading, HeadingOf, U.Trim, Lines;
    NextHeadIs(lines, k, if k < 0 then 0 else 2);
    SampleExtents(lines);
    assert SAMPLE[4..7] == WORD;
  }

  lemma SampleExtents(lines: seq<Bytes>)
    requires lines == [TITLE, WORD]
    ensures Extent(lines[..0]) == 0 && Extent(lines[..1]) == 4 && Extent(lines[..2]) == 8
  {
    assert lines[..0] == [] && lines[..1] == lines[..0] + [TITLE] && lines[..2] == lines[..1] + [WORD];
    ExtentAppend(lines[..0], TITLE);
    ExtentAppend(lines[..1], WORD);
  }

  /** The word fits into one part, the empty text has none. */
  lemma SampleTiling(maxBytes: int, cuts: seq<int>)
    requires maxBytes >= 64
    ensures IsTiling(WORD, maxBytes, cuts) <==> cuts == [0, 3]
    ensures IsTiling([], maxBytes, cuts) <==> cuts == [0]
  {
    var whole: seq<int> := [0, 3];
    assert Joint(WORD, whole, 0, maxBytes);
    assert IsTiling(WORD, maxBytes, whole) && IsTiling([], maxBytes, [0]);
    if IsTiling(WORD, maxBytes, cuts) { TilingUnique(WORD, maxBytes, cuts, whole); }
    if IsTiling([], maxBytes, cuts) { TilingUnique([], maxBytes, cuts, [0]); }
  }

  lemma SamplePart()
    ensures PartText(WORD, [0, 3], 0) == WORD
  {
    WordTrimmed();
    hide U.Trim;
    assert WORD[0..3] == WORD;
  }

  lemma SamplePiece(maxBytes: int, k: int, cuts: seq<int>, i: int, c: Chunk)
    requires maxBytes >= 64 && Piece(SAMPLE, Lines(SAMPLE), maxBytes, k, cuts, i, c)
    ensures c.start == 0 && c.end == 3 && c.text == WORD
  {
    hide *;
    PieceFacts(SAMPLE, Lines(SAMPLE), maxBytes, k, cuts, i, c);
    SampleSections(k);
    SampleTiling(maxBytes, cuts);
    SamplePart();
    SampleStart();
  }

  lemma PieceFacts(text: Bytes, lines: seq<Bytes>, maxBytes: int, k: int, cuts: seq<int>, i: int, c: Chunk)
    requires Piece(text, lines, maxBytes, k, cuts, i, c)
    ensures HeadsSection(lines, k) && -1 <= k < |lines| && IsTiling(SectionBody(text, lines, k), maxBytes, cuts)
    ensures 0 <= i < |cuts| - 1 && c.text == PartText(SectionBody(text, lines, k), cuts, i)
    ensures c.start == HeadStart(lines, k) + cuts[i] && c.end == HeadStart(lines, k) + cuts[i + 1]
  {
    hide IsTiling, SectionBody, PartText, HeadStart, HeadingAt, IsHeading;
  }

  lemma SampleStart()
    ensures 0 < |Lines(SAMPLE)| && HeadsSection(Lines(SAMPLE), 0) && HeadStart(Lines(SAMPLE), 0) == 0
  {
    SampleLines();
    TitleTrimmed();
    hide IsHeading;
    assert Lines(SAMPLE)[..0] == [];
  }

  lemma SampleChunk(snapshot: Snapshot, parserVersion: string, maxBytes: int, chunks: seq<Chunk>, j: nat)
    requires maxBytes >= 64 && IsChunking(SAMPLE, snapshot, parserVersion, maxBytes, chunks) && j < |chunks|
    ensures chunks[j].start == 0 && chunks[j].end == 3 && chunks[j].text == WORD
  {
    hide *;
    var k, cuts, i := PieceAt(SAMPLE, snapshot, parserVersion, maxBytes, chunks, j);
    SamplePiece(maxBytes, k, cuts, i, chunks[j]);
  }

  lemma PieceAt(text: Bytes, snapshot: Snapshot, parserVersion: string, maxBytes: int, chunks: seq<Chunk>, j: nat)
    returns (k: int, cuts: seq<int>, i: int)
    requires IsChunking(text, snapshot, parserVersion, maxBytes, chunks) && j < |chunks|
    ensures Piece(text, Lines(text), maxBytes, k, cuts, i, chunks[j])
  {
    hide Lines, Piece, Content, Present, Placed, From;
    assert IsPiece(text, Lines(text), maxBytes, chunks[j]);
    k, cuts, i :| Piece(text, Lines(text), maxBytes, k, cuts, i, chunks[j]);
  }

  lemma SamplePresent(snapshot: Snapshot, parserVersion: string, maxBytes: int, chunks: seq<Chunk>)
    requires maxBytes >= 64 && IsChunking(SAMPLE, snapshot, parserVersion, maxBytes, chunks)
    ensures chunks != []
  {
    hide *;
    SampleText();
    SampleStart();
    SampleSections(0);
    SampleTiling(maxBytes, [0, 3]);
    SamplePart();
    PartPresent(SAMPLE, snapshot, parserVersion, maxBytes, chunks, 0, [0, 3], 0);
  }

  lemma PartPresent(text: Bytes, snapshot: Snapshot, parserVersion: string, maxBytes: int, chunks: seq<Chunk>, k: int, cuts: seq<int>, i: int)
    requires IsChunking(text, snapshot, parserVersion, maxBytes, chunks) && HeadsSection(Lines(text), k) && -1 <= k < |Lines(text)|
    requires IsTiling(SectionBody(text, Lines(text), k), maxBytes, cuts) && PartText(SectionBody(text, Lines(text), k), cuts, i) != []
    ensures chunks != []
  {
    hide Lines, Piece, Content, SectionBody, IsTiling, PartText, Placed, From, IsHeading;
    assert Present(text, Lines(text), maxBytes, chunks, k);
    assert HasPart(text, Lines(text), maxBytes, k, cuts, i, chunks);
  }

  lemma NoOverlap(text: Bytes, snapshot: Snapshot, parserVersion: string, maxBytes: int, chunks: seq<Chunk>)
    requires IsChunking(text, snapshot, parserVersion, maxBytes, chunks) && |chunks| > 1
    ensures chunks[0].start < chunks[1].start
  {
    hide Lines, Content, AllPieces, From;
    assert WellFormed(chunks[0], maxBytes);
  }

  /** The sample "# h", newline, "abc" becomes the one chunk "abc" at offsets 0 to 3, where the text reads "# h". */
  lemma OffsetsMislead(snapshot: Snapshot, parserVersion: string, maxBytes: int, chunks: seq<Chunk>)
    requires maxBytes >= 64 && IsChunking(SAMPLE, snapshot, parserVersion, maxBytes, chunks)
    ensures |chunks| == 1 && chunks[0].start == 0 && chunks[0].end == 3 && chunks[0].text == WORD
    ensures U.Trim(SAMPLE[0..3]) == TITLE
  {
    hide *;
    TitleTrimmed();
    SampleText();
    SamplePresent(snapshot, parserVersion, maxBytes, chunks);
    SampleChunk(snapshot, parserVersion, maxBytes, chunks, 0);
    if |chunks| > 1 {
      NoOverlap(SAMPLE, snapshot, parserVersion, maxBytes, chunks);
      SampleChunk(snapshot, parserVersion, maxBytes, chunks, 1);
    }
  }
}
