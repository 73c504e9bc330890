/** What a chunking says about the text it was made from (internal/knowledge/knowledge.go, ChunkText): every chunk quotes
    the text verbatim inside its own section, and the text leaves no choice of chunks. */
module Quoting {
  import opened Layout
  import opened Tiling
  import opened Chunking
  import opened Sorting
  import U = Utf8

  // ----- quotation -----

  /** The chunk quotes the text of the section of heading line k: the quoted stretch lies below the heading line and
      before the next one, as far behind the chunk's offsets as the section's text stands behind its beginning. */
  ghost predicate QuotedFrom(text: Bytes, lines: seq<Bytes>, c: Chunk, k: int) {
    && Within(lines, c.heading, c.start, c.end, k) && BelowHead(lines, k) <= |text|
    && var s := Shift(text, lines, k);
       && BelowHead(lines, k) <= c.start + s <= c.end + s <= |text| && EndsBefore(lines, k + 1, c.end + s)
       && c.text == U.Trim(text[c.start + s..c.end + s])
  }

  ghost predicate Quoted(text: Bytes, lines: seq<Bytes>, c: Chunk) { exists k :: QuotedFrom(text, lines, c, k) }

  /** A line ends at a newline or at the end of the text. */
  lemma EndOfLine(text: Bytes, n: nat)
    requires 0 < n <= |Lines(text)|
    ensures var to := Extent(Lines(text)[..n]) - 1; 0 <= to <= |text| && (to == |text| || text[to] == NEWLINE)
  {
    LineStands(text, n - 1);
    var lines := Lines(text);
    hide Lines, Extent;
    assert lines[..n] == lines[..n - 1] + [lines[n - 1]];
    ExtentAppend(lines[..n - 1], lines[n - 1]);
  }

  lemma CopiedSlice(text: Bytes, from: nat, to: nat)
    requires from <= to <= |text| && (to == |text| || text[to] == NEWLINE)
    ensures CopiedAt(text, from, text[from..to], from)
  {
  }

  lemma TextBounds(text: Bytes, lines: seq<Bytes>, k: int)
    requires -1 <= k < |lines| && SectionText(text, lines, k) != []
    ensures var from, to := BelowHead(lines, k), Extent(lines[..NextHead(lines, k)]) - 1;
            0 < NextHead(lines, k) && from <= to <= |text| && SectionText(text, lines, k) == text[from..to]
  {
    hide IsHeading, Extent;
  }

  /** Where the trimmed text of a section stands. */
  lemma BodyStands(text: Bytes, k: int)
    requires -1 <= k < |Lines(text)| && SectionBody(text, Lines(text), k) != []
    ensures var lines, body := Lines(text), SectionBody(text, Lines(text), k);
            && BelowHead(lines, k) <= |text|
            && var at := BelowHead(lines, k) + Lead(text[BelowHead(lines, k)..]);
               && BelowHead(lines, k) <= at && at + |body| <= |text| && at + |body| < Extent(lines[..NextHead(lines, k)])
               && text[at..at + |body|] == body
  {
    TrimNothing();
    var lines := Lines(text);
    hide IsHeading, NextHead, Lines, BelowHead, Lead, U.Trim, SectionText, Extent;
    TextBounds(text, lines, k);
    var from, to := BelowHead(lines, k), Extent(lines[..NextHead(lines, k)]) - 1;
    EndOfLine(text, NextHead(lines, k));
    CopiedSlice(text, from, to);
    TrimmedStands(text, from, text[from..to], from);
  }

  /** Whatever ends before the next heading line begins, ends before every later one. */
  lemma BeforeNextHead(lines: seq<Bytes>, k: int, high: int)
    requires -1 <= k < |lines| && high < Extent(lines[..NextHead(lines, k)])
    ensures EndsBefore(lines, k + 1, high)
  {
    hide IsHeading, Extent;
    var n := NextHead(lines, k);
    forall j | k + 1 <= j < |lines| && IsHeading(lines[j]) ensures high <= Extent(lines[..j]) {
      assert n <= j;
      ExtentGrows(lines, n, j);
    }
  }

  lemma PieceIsQuoted(text: Bytes, maxBytes: int, k: int, cuts: seq<int>, i: int, c: Chunk)
    requires Piece(text, Lines(text), maxBytes, k, cuts, i, c) && c.text != []
    ensures QuotedFrom(text, Lines(text), c, k)
  {
    hide IsHeading, HeadingOf, SectionBody, IsTiling, Lead, NextHead, Lines, U.Trim, BelowHead, HeadStart, HeadingAt, EndsBefore;
    var lines := Lines(text);
    var body := SectionBody(text, lines, k);
    PartRange(body, cuts, i);
    BodyStands(text, k);
    ShiftZeroIff(text, lines, k);
    var at := BelowHead(lines, k) + Lead(text[BelowHead(lines, k)..]);
    Stretch(text, at, body, cuts[i], cuts[i + 1] - cuts[i]);
    BeforeNextHead(lines, k, at + cuts[i + 1]);
    BeforeNextHead(lines, k, c.end);
  }

  /** Every chunk of a chunking quotes its section. */
  lemma ChunksAreQuoted(text: Bytes, snapshot: Snapshot, parserVersion: string, maxBytes: int, chunks: seq<Chunk>, j: nat)
    requires IsChunking(text, snapshot, parserVersion, maxBytes, chunks) && j < |chunks|
    ensures Quoted(text, Lines(text), chunks[j])
  {
    hide Piece, QuotedFrom, Lines, Content, Present;
    assert WellFormed(chunks[j], maxBytes);
    var k, cuts, i :| Piece(text, Lines(text), maxBytes, k, cuts, i, chunks[j]);
    PieceIsQuoted(text, maxBytes, k, cuts, i, chunks[j]);
  }

  /** A chunk carries no heading before the first heading line, and below one the title of that line: what follows its
      hashes, without white space around it. */
  lemma ChunkHeading(text: Bytes, snapshot: Snapshot, parserVersion: string, maxBytes: int, chunks: seq<Chunk>, j: nat) returns (k: int)
    requires IsChunking(text, snapshot, parserVersion, maxBytes, chunks) && j < |chunks|
    ensures QuotedFrom(text, Lines(text), chunks[j], k)
    ensures if k < 0 then chunks[j].heading == []
            else k < |Lines(text)| && IsHeading(Lines(text)[k]) && IsHeadingOf(Lines(text)[k], chunks[j].heading)
    ensures U.SpaceWidth(chunks[j].heading) == 0 && U.SpaceTail(chunks[j].heading) == 0
  {
    ChunksAreQuoted(text, snapshot, parserVersion, maxBytes, chunks, j);
    hide IsChunking, Lines, HeadingOf, IsHeading, EndsBefore, BelowHead, HeadStart, Shift, IsHeadingOf, U.Trim;
    k :| QuotedFrom(text, Lines(text), chunks[j], k);
    if k >= 0 { HeadingIs(Lines(text)[k]); }
  }

  // ----- determination -----

  /** The place and the provenance of a part determine the chunk. */
  lemma PieceUnique(text: Bytes, lines: seq<Bytes>, maxBytes: int, k: int, cuts: seq<int>, i: int, c: Chunk, d: Chunk,
                    snapshot: Snapshot, parserVersion: string)
    requires Piece(text, lines, maxBytes, k, cuts, i, c) && Piece(text, lines, maxBytes, k, cuts, i, d)
    requires From(c, snapshot, parserVersion) && From(d, snapshot, parserVersion)
    ensures c == d
  {
    hide IsTiling, SectionBody, HeadingAt, HeadStart, IsHeading, PartText;
  }

  lemma ChunkOccurs(text: Bytes, snapshot: Snapshot, parserVersion: string, maxBytes: int, a: seq<Chunk>, b: seq<Chunk>, c: Chunk)
    requires IsChunking(text, snapshot, parserVersion, maxBytes, a) && IsChunking(text, snapshot, parserVersion, maxBytes, b)
    requires c in a
    ensures c in b
  {
    var lines := Lines(text);
    hide Lines, Content, PieceOf, PartText, IsTiling, SectionBody, From, WellFormed;
    var j :| 0 <= j < |a| && a[j] == c;
    assert WellFormed(a[j], maxBytes) && From(a[j], snapshot, parserVersion) && IsPiece(text, lines, maxBytes, a[j]);
    var k, cuts, i :| Piece(text, lines, maxBytes, k, cuts, i, c);
    NotBlank(text, lines, maxBytes, k, cuts, i, c);
    assert Present(text, lines, maxBytes, b, k);
    assert HasPart(text, lines, maxBytes, k, cuts, i, b);
    var m :| 0 <= m < |b| && Piece(text, lines, maxBytes, k, cuts, i, b[m]);
    PieceUnique(text, lines, maxBytes, k, cuts, i, c, b[m], snapshot, parserVersion);
  }

  lemma NotBlank(text: Bytes, lines: seq<Bytes>, maxBytes: int, k: int, cuts: seq<int>, i: int, c: Chunk)
    requires Piece(text, lines, maxBytes, k, cuts, i, c) && WellFormed(c, maxBytes)
    ensures HeadsSection(lines, k) && IsTiling(SectionBody(text, lines, k), maxBytes, cuts)
    ensures PartText(SectionBody(text, lines, k), cuts, i) != []
  {
    hide IsTiling, SectionBody, PartText, IsHeading, HeadStart, HeadingAt;
  }

  predicate StartLeq(a: Chunk, b: Chunk) { a.start <= b.start }

  /** Chunks that follow each other differ, and stand in the order of their starts. */
  lemma InOrder(chunks: seq<Chunk>, maxBytes: int, low: int, high: int)
    requires Placed(chunks, maxBytes, low, high)
    ensures Distinct(chunks) && Sorted(chunks, StartLeq)
    ensures forall x, y :: x in chunks && y in chunks && x.start == y.start ==> x == y
  {
    forall i, j | 0 <= i < j < |chunks| ensures chunks[i].start < chunks[j].start {
      assert WellFormed(chunks[i], maxBytes);
    }
    forall x, y | x in chunks && y in chunks && x.start == y.start ensures x == y {
      var i :| 0 <= i < |chunks| && chunks[i] == x;
      var j :| 0 <= j < |chunks| && chunks[j] == y;
    }
  }

  /** The contract of ChunkText leaves no choice: a text has one chunking. */
  lemma ChunksDetermined(text: Bytes, snapshot: Snapshot, parserVersion: string, maxBytes: int, a: seq<Chunk>, b: seq<Chunk>)
    requires IsChunking(text, snapshot, parserVersion, maxBytes, a) && IsChunking(text, snapshot, parserVersion, maxBytes, b)
    ensures a == b
  {
    forall c ensures c in a <==> c in b {
      if c in a { ChunkOccurs(text, snapshot, parserVersion, maxBytes, a, b, c); }
      if c in b { ChunkOccurs(text, snapshot, parserVersion, maxBytes, b, a, c); }
    }
    hide Content, AllPieces, From, Placed;
    InOrder(a, maxBytes, 0, |text|);
    InOrder(b, maxBytes, 0, |text|);
    DistinctPermutation(a, b);
    assert TotalPreorder(StartLeq);
    SortedUnique(a, b, StartLeq);
  }
}
