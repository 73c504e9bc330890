/** Deterministic chunks of UTF-8 text (internal/knowledge/knowledge.go, ChunkText), byte by byte. */
module Chunking {
  import opened Text
  import opened Layout
  import opened Tiling
  import opened Sorting
  import U = Utf8

  datatype Snapshot = Snapshot(id: int, projectID: int, sourceID: int, observedAt: int, current: bool)

  datatype Chunk = Chunk(id: int, projectID: int, sourceID: int, snapshotID: int, heading: Bytes, text: Bytes,
                         start: int, end: int, parserVersion: string, observedAt: int, current: bool)

  datatype Error = ErrInvalid

  // ----- content -----

  /** The texts one after another, white space deleted. */
  function Content(texts: seq<Bytes>): (r: Bytes) {
    if texts == [] then [] else Content(texts[..|texts| - 1]) + U.Strip(texts[|texts| - 1])
  }

  lemma ContentAppend(texts: seq<Bytes>, t: Bytes)
    ensures Content(texts + [t]) == Content(texts) + U.Strip(t)
  {
    assert (texts + [t])[..|texts|] == texts;
  }

  lemma {:induction false} ContentConcat(a: seq<Bytes>, b: seq<Bytes>)
    ensures Content(a + b) == Content(a) + Content(b)
  {
    if b == [] {
      assert a + b == a;
    } else {
      hide *;
      var front, last := b[..|b| - 1], b[|b| - 1];
      ContentConcat(a, front);
      ContentAppend(a + front, last);
      ContentAppend(front, last);
      assert a + b == (a + front) + [last] && b == front + [last];
      Associative(Content(a), Content(front), U.Strip(last));
    }
  }

  /** The lines that are not headings, in order. */
  function BodyLines(lines: seq<Bytes>): (r: seq<Bytes>) {
    if lines == [] then []
    else BodyLines(lines[..|lines| - 1]) + if IsHeading(lines[|lines| - 1]) then [] else [lines[|lines| - 1]]
  }

  lemma BodyLinesAppend(lines: seq<Bytes>, line: Bytes)
    ensures BodyLines(lines + [line]) == BodyLines(lines) + if IsHeading(line) then [] else [line]
    ensures Extent(lines + [line]) == Extent(lines) + |line| + 1
    ensures Content(BodyLines(lines + [line])) == Content(BodyLines(lines)) + if IsHeading(line) then [] else U.Strip(line)
  {
    assert (lines + [line])[..|lines|] == lines;
    if IsHeading(line) {
      assert BodyLines(lines) + [] == BodyLines(lines) && Content(BodyLines(lines)) + [] == Content(BodyLines(lines));
    } else {
      ContentAppend(BodyLines(lines), line);
    }
  }

  lemma Associative<T>(a: seq<T>, b: seq<T>, c: seq<T>)
    ensures (a + b) + c == a + (b + c)
  {
  }

  // ----- sections -----

  datatype Section = Section(heading: Bytes, body: Bytes, offset: nat)

  function Bodies(sections: seq<Section>): (r: seq<Bytes>)
    ensures |r| == |sections|
  {
    seq(|sections|, i requires 0 <= i < |sections| => sections[i].body)
  }

  /** Sections follow each other without overlap and end before the limit. */
  ghost predicate Laid(sections: seq<Section>, limit: int) {
    && (forall i :: 0 <= i < |sections| ==> U.Valid(sections[i].body) && sections[i].offset + |sections[i].body| <= limit)
    && (forall i, j :: 0 <= i < j < |sections| ==> sections[i].offset + |sections[i].body| <= sections[j].offset)
  }

  /** One more line of the section under construction. */
  function Extend(body: Bytes, line: Bytes): (r: Bytes) { if body != [] then body + [NEWLINE] + line else line }

  lemma ExtendKeeps(body: Bytes, line: Bytes)
    requires U.Valid(body) && U.Valid(line)
    ensures U.Valid(Extend(body, line))
    ensures U.Strip(Extend(body, line)) == U.Strip(body) + U.Strip(line)
  {
    if body != [] {
      var nl: Bytes := [NEWLINE];
      assert U.Width(nl) == 1 && nl[1..] == [] && U.Valid(nl) && U.SpaceWidth(nl) == 1;
      U.ValidConcat(body, nl);
      U.ValidConcat(body + nl, line);
      if line != [] { U.ValidStarts(line); }
      U.StripConcat(body + nl, line);
      U.StripConcat(body, nl);
      U.StripSpace(nl);
    }
  }

  /** What the first loop of ChunkText knows after some lines. */
  ghost predicate Grouped(lines: seq<Bytes>, sections: seq<Section>, current: Section, offset: nat) {
    && offset == Extent(lines) && U.Valid(current.body)
    && (if lines == [] then current.offset == 0 && current.body == [] else current.offset + |current.body| + 1 <= offset)
    && Laid(sections, current.offset)
    && Content(Bodies(sections)) + U.Strip(current.body) == Content(BodyLines(lines))
  }

  // ----- the sections are those of the heading lines -----

  /** The section of heading line k: its heading, its beginning and, white space around it aside, its text. */
  ghost predicate SectionAt(text: Bytes, lines: seq<Bytes>, section: Section, k: int) {
    && HeadsSection(lines, k) && section.heading == HeadingAt(lines, k) && section.offset == HeadStart(lines, k)
    && U.Trim(section.body) == SectionBody(text, lines, k)
  }

  ghost predicate Located(text: Bytes, lines: seq<Bytes>, section: Section) { exists k :: SectionAt(text, lines, section, k) }

  ghost predicate Listed(text: Bytes, lines: seq<Bytes>, sections: seq<Section>, k: int) {
    exists i :: 0 <= i < |sections| && SectionAt(text, lines, sections[i], k)
  }

  /** The open section started at the last heading line and reaches to the end of the lines so far. */
  ghost predicate OpenAt(text: Bytes, lines: seq<Bytes>, current: Section, k: int) {
    && Titled(lines, current.heading, k) && current.offset == HeadStart(lines, k)
    && (forall j :: k < j < |lines| ==> !IsHeading(lines[j]))
    && Reaches(text, BelowHead(lines, k), Extent(lines), current.body)
  }

  /** The body, behind newlines at most, takes up the text from h to just before the end of the last line read. */
  ghost predicate Reaches(text: Bytes, h: nat, end: nat, body: Bytes) {
    if body != [] then CopiedAt(text, h, body, end - 1 - |body|)
    else h <= end && forall x :: h <= x < end && x < |text| ==> text[x] == NEWLINE
  }

  ghost predicate LocatedBefore(text: Bytes, lines: seq<Bytes>, section: Section, last: int) {
    exists k :: k < last && SectionAt(text, lines, section, k)
  }

  /** The closed sections are sections of earlier heading lines; those that are missing have no text. */
  ghost predicate Closed(text: Bytes, lines: seq<Bytes>, sections: seq<Section>, last: int) {
    && (forall i :: 0 <= i < |sections| ==> LocatedBefore(text, lines, sections[i], last))
    && (forall k :: k < last && HeadsSection(lines, k) && SectionBody(text, lines, k) != [] ==> Listed(text, lines, sections, k))
  }

  ghost predicate Placing(text: Bytes, lines: seq<Bytes>, sections: seq<Section>, current: Section) {
    exists k :: OpenAt(text, lines, current, k) && Closed(text, lines, sections, k)
  }

  lemma PlacingNothing(text: Bytes)
    ensures Placing(text, [], [], Section([], [], 0))
  {
    var none: seq<Bytes> := [];
    assert none[..0] == none;
    assert OpenAt(text, [], Section([], [], 0), -1);
  }

  /** Later lines do not touch what a heading line has closed. */
  lemma ClosedLater(text: Bytes, lines: seq<Bytes>, line: Bytes, sections: seq<Section>, last: int)
    requires Closed(text, lines, sections, last) && HeadsSection(lines, last)
    ensures Closed(text, lines + [line], sections, last)
  {
    hide IsHeading, SectionAt, SectionBody, Listed, LocatedBefore;
    forall i | 0 <= i < |sections| ensures LocatedBefore(text, lines + [line], sections[i], last) {
      LocatedLater(text, lines, line, sections[i], last);
    }
    forall k | k < last && HeadsSection(lines + [line], k) && SectionBody(text, lines + [line], k) != []
      ensures Listed(text, lines + [line], sections, k)
    {
      assert k >= 0 ==> lines[k] == (lines + [line])[k];
      SameBody(text, lines, line, k, last);
      assert Listed(text, lines, sections, k);
      ListedLater(text, lines, line, sections, k, last);
    }
  }

  lemma SameBody(text: Bytes, lines: seq<Bytes>, line: Bytes, k: int, last: int)
    requires k < last && HeadsSection(lines, last) && HeadsSection(lines, k)
    ensures NextHead(lines, k) <= last
    ensures HeadsSection(lines + [line], k) && SectionBody(text, lines + [line], k) == SectionBody(text, lines, k)
    ensures HeadingAt(lines + [line], k) == HeadingAt(lines, k) && HeadStart(lines + [line], k) == HeadStart(lines, k)
  {
    hide IsHeading, HeadingOf, SectionText, HeadStart, HeadingAt;
    assert NextHead(lines, k) <= last;
    SectionStays(text, lines, line, k);
  }

  lemma SameSection(text: Bytes, lines: seq<Bytes>, line: Bytes, section: Section, k: int, last: int)
    requires k < last && HeadsSection(lines, last) && SectionAt(text, lines, section, k)
    ensures SectionAt(text, lines + [line], section, k)
  {
    hide IsHeading, SectionBody, HeadStart, HeadingAt;
    SameBody(text, lines, line, k, last);
  }

  lemma LocatedLater(text: Bytes, lines: seq<Bytes>, line: Bytes, section: Section, last: int)
    requires LocatedBefore(text, lines, section, last) && HeadsSection(lines, last)
    ensures LocatedBefore(text, lines + [line], section, last)
  {
    hide SectionAt, IsHeading;
    var k :| k < last && SectionAt(text, lines, section, k);
    SameSection(text, lines, line, section, k, last);
  }

  lemma ListedLater(text: Bytes, lines: seq<Bytes>, line: Bytes, sections: seq<Section>, k: int, last: int)
    requires Listed(text, lines, sections, k) && k < last && HeadsSection(lines, last)
    ensures Listed(text, lines + [line], sections, k)
  {
    hide SectionAt, IsHeading;
    var i :| 0 <= i < |sections| && SectionAt(text, lines, sections[i], k);
    SameSection(text, lines, line, sections[i], k, last);
  }

  /** The text of the section that is open when its last line has been read. */
  lemma OpenText(text: Bytes, lines: seq<Bytes>, current: Section, k: int, all: seq<Bytes>)
    requires OpenAt(text, lines, current, k) && lines <= all && (lines == all || IsHeading(all[|lines|]))
    ensures SectionAt(text, all, current, k)
  {
    hide IsHeading, HeadingOf, Reaches, Extent, HeadStart, BelowHead, HeadingAt, SectionText, U.Trim;
    Prefix(lines, all, k);
    LastOpen(lines, all, k);
    ReachesText(text, BelowHead(lines, k), Extent(lines), current.body);
    TextUpTo(text, all, k, |lines|);
  }

  lemma Prefix(lines: seq<Bytes>, all: seq<Bytes>, k: int)
    requires lines <= all && -1 <= k < |lines|
    ensures HeadStart(all, k) == HeadStart(lines, k) && BelowHead(all, k) == BelowHead(lines, k)
    ensures HeadingAt(all, k) == HeadingAt(lines, k) && (HeadsSection(lines, k) <==> HeadsSection(all, k))
    ensures all[..|lines|] == lines
  {
    hide IsHeading, HeadingOf, Extent;
    assert k >= 0 ==> all[..k] == lines[..k] && all[k] == lines[k];
    assert all[..k + 1] == lines[..k + 1];
  }

  lemma LastOpen(lines: seq<Bytes>, all: seq<Bytes>, k: int)
    requires lines <= all && (lines == all || IsHeading(all[|lines|])) && -1 <= k < |lines|
    requires forall j :: k < j < |lines| ==> !IsHeading(lines[j])
    ensures NextHead(all, k) == |lines|
  {
    hide IsHeading;
    forall j | k < j < |lines| ensures !IsHeading(all[j]) { assert all[j] == lines[j]; }
    NextHeadIs(all, k, |lines|);
  }

  lemma TextUpTo(text: Bytes, lines: seq<Bytes>, k: int, n: nat)
    requires -1 <= k < |lines| && NextHead(lines, k) == n
    ensures var from, to := BelowHead(lines, k), Extent(lines[..n]) - 1;
            SectionText(text, lines, k) == if from <= to <= |text| then text[from..to] else []
  {
  }

  lemma ReachesText(text: Bytes, h: nat, end: nat, body: Bytes)
    requires Reaches(text, h, end, body)
    ensures U.Trim(if h <= end - 1 <= |text| then text[h..end - 1] else []) == U.Trim(body)
  {
    var to := end - 1;
    if body != [] {
      var b := to - |body|;
      assert text[h..to] == text[h..b] + body;
      TrimNewlines(text[h..b], body);
    } else if h <= to <= |text| {
      assert text[h..to] + [] == text[h..to];
      TrimNewlines(text[h..to], []);
    }
  }

  lemma PlacingHeading(text: Bytes, lines: seq<Bytes>, line: Bytes, sections: seq<Section>, current: Section)
    requires Placing(text, lines, sections, current) && IsHeading(line)
    ensures Placing(text, lines + [line], if current.body != [] then sections + [current] else sections,
                    Section(HeadingOf(line), [], Extent(lines)))
  {
    hide IsHeading, HeadingOf, OpenAt, Closed;
    var k :| OpenAt(text, lines, current, k) && Closed(text, lines, sections, k);
    OpenHeading(text, lines, line);
    CloseCurrent(text, lines, line, sections, current, k);
  }

  lemma CloseCurrent(text: Bytes, lines: seq<Bytes>, line: Bytes, sections: seq<Section>, current: Section, k: int)
    requires OpenAt(text, lines, current, k) && Closed(text, lines, sections, k) && IsHeading(line)
    ensures Closed(text, lines + [line], if current.body != [] then sections + [current] else sections, |lines|)
  {
    var all := lines + [line];
    OpenHeads(text, lines, current, k);
    OpenText(text, lines, current, k, all);
    hide IsHeading, HeadingOf, SectionAt, Closed, Reaches, SectionBody;
    ClosedLater(text, lines, line, sections, k);
    forall j | k < j < |lines| ensures !HeadsSection(all, j) { assert all[j] == lines[j]; }
    CloseOne(text, all, sections, current, k, |lines|);
  }

  /** One section more, or none when it has no text. */
  lemma CloseOne(text: Bytes, lines: seq<Bytes>, sections: seq<Section>, current: Section, k: int, last: int)
    requires Closed(text, lines, sections, k) && SectionAt(text, lines, current, k) && k < last
    requires forall j :: k < j < last ==> !HeadsSection(lines, j)
    ensures Closed(text, lines, sections + [current], last)
    ensures current.body == [] ==> Closed(text, lines, sections, last)
  {
    EmptyBody(text, lines, current, k);
    hide IsHeading, SectionAt, SectionBody, Listed, LocatedBefore;
    var longer := sections + [current];
    forall i | 0 <= i < |longer| ensures LocatedBefore(text, lines, longer[i], last) {
      NowLocated(text, lines, longer[i], k, last);
    }
    forall i | 0 <= i < |sections| ensures LocatedBefore(text, lines, sections[i], last) {
      NowLocated(text, lines, sections[i], k, last);
    }
    forall m | m < last && HeadsSection(lines, m) && SectionBody(text, lines, m) != []
      ensures Listed(text, lines, longer, m)
      ensures current.body == [] ==> Listed(text, lines, sections, m)
    {
      if m < k { assert Listed(text, lines, sections, m); } else { assert m == k; }
      NowListed(text, lines, sections, current, k, m);
    }
  }

  lemma EmptyBody(text: Bytes, lines: seq<Bytes>, current: Section, k: int)
    requires SectionAt(text, lines, current, k)
    ensures current.body == [] ==> SectionBody(text, lines, k) == []
  {
    TrimNothing();
  }

  lemma NowLocated(text: Bytes, lines: seq<Bytes>, section: Section, k: int, last: int)
    requires k < last && (LocatedBefore(text, lines, section, k) || SectionAt(text, lines, section, k))
    ensures LocatedBefore(text, lines, section, last)
  {
    hide SectionAt;
    if LocatedBefore(text, lines, section, k) {
      var m :| m < k && SectionAt(text, lines, section, m);
      assert m < last;
    }
  }

  lemma NowListed(text: Bytes, lines: seq<Bytes>, sections: seq<Section>, current: Section, k: int, m: int)
    requires Listed(text, lines, sections, m) || (m == k && SectionAt(text, lines, current, k))
    ensures Listed(text, lines, sections + [current], m)
  {
    hide SectionAt;
    var longer := sections + [current];
    if Listed(text, lines, sections, m) {
      var i :| 0 <= i < |sections| && SectionAt(text, lines, sections[i], m);
      assert longer[i] == sections[i];
    } else {
      assert longer[|sections|] == current;
    }
  }

  lemma TrimNothing()
    ensures U.Trim([]) == []
  {
  }

  lemma OpenHeading(text: Bytes, lines: seq<Bytes>, line: Bytes)
    requires IsHeading(line)
    ensures OpenAt(text, lines + [line], Section(HeadingOf(line), [], Extent(lines)), |lines|)
  {
    hide IsHeading, HeadingOf, Extent, CopiedAt;
    assert (lines + [line])[..|lines|] == lines && (lines + [line])[..|lines| + 1] == lines + [line];
  }

  lemma OpenBody(text: Bytes, lines: seq<Bytes>, line: Bytes, current: Section, k: int)
    requires OpenAt(text, lines, current, k) && !IsHeading(line) && StandsAt(text, line, Extent(lines))
    ensures OpenAt(text, lines + [line], current.(body := Extend(current.body, line)), k)
  {
    hide IsHeading, HeadingOf, HeadStart, HeadingAt, BelowHead, Extent, Reaches, Extend, StandsAt;
    PositionsStay(lines, line, current.heading, k);
    ExtentAppend(lines, line);
    ReachesFurther(text, BelowHead(lines, k), Extent(lines), current.body, line);
  }

  lemma ReachesFurther(text: Bytes, h: nat, end: nat, body: Bytes, line: Bytes)
    requires Reaches(text, h, end, body) && StandsAt(text, line, end)
    ensures Reaches(text, h, end + |line| + 1, Extend(body, line))
  {
    if body != [] { Joins(text, body, line, end - 1 - |body|); }
  }

  /** A body and the line after the newline that ends it stand in the text as one. */
  lemma Joins(text: Bytes, body: Bytes, line: Bytes, b: nat)
    requires StandsAt(text, body, b) && StandsAt(text, line, b + |body| + 1)
    ensures StandsAt(text, body + [NEWLINE] + line, b)
  {
    var m := b + |body|;
    assert text[b..m + 1 + |line|] == text[b..m] + [text[m]] + text[m + 1..m + 1 + |line|];
  }

  lemma PlacingBodyLine(text: Bytes, lines: seq<Bytes>, line: Bytes, sections: seq<Section>, current: Section)
    requires Placing(text, lines, sections, current) && !IsHeading(line) && StandsAt(text, line, Extent(lines))
    ensures Placing(text, lines + [line], sections, current.(body := Extend(current.body, line)))
  {
    hide IsHeading, OpenAt, Closed, Extend, StandsAt;
    var k :| OpenAt(text, lines, current, k) && Closed(text, lines, sections, k);
    OpenBody(text, lines, line, current, k);
    OpenHeads(text, lines, current, k);
    ClosedLater(text, lines, line, sections, k);
  }

  lemma OpenHeads(text: Bytes, lines: seq<Bytes>, current: Section, k: int)
    requires OpenAt(text, lines, current, k)
    ensures HeadsSection(lines, k)
  {
  }

  lemma BodiesPrefix(sections: seq<Section>, i: nat)
    requires i < |sections|
    ensures Content(Bodies(sections[..i + 1])) == Content(Bodies(sections[..i])) + U.Strip(sections[i].body)
  {
    assert Bodies(sections[..i + 1]) == Bodies(sections[..i]) + [sections[i].body];
    ContentAppend(Bodies(sections[..i]), sections[i].body);
  }

  lemma PushSection(sections: seq<Section>, current: Section, limit: int)
    requires Laid(sections, current.offset) && U.Valid(current.body) && current.offset + |current.body| <= limit
    ensures Laid(sections + [current], limit)
    ensures Content(Bodies(sections + [current])) == Content(Bodies(sections)) + U.Strip(current.body)
  {
    assert Bodies(sections + [current]) == Bodies(sections) + [current.body];
    ContentAppend(Bodies(sections), current.body);
  }

  lemma AfterHeading(lines: seq<Bytes>, line: Bytes, sections: seq<Section>, current: Section, offset: nat)
    requires Grouped(lines, sections, current, offset) && IsHeading(line)
    ensures Grouped(lines + [line], if current.body != [] then sections + [current] else sections,
                    Section(HeadingOf(line), [], offset), offset + |line| + 1)
  {
    hide U.Valid, Content, BodyLines, HeadingOf, IsHeading;
    BodyLinesAppend(lines, line);
    assert Content(BodyLines(lines)) + [] == Content(BodyLines(lines));
    StripNothing();
    BodyValid();
    if current.body != [] { PushSection(sections, current, offset); }
  }

  lemma BodyValid()
    ensures U.Valid([])
  {
  }

  lemma AfterBodyLine(lines: seq<Bytes>, line: Bytes, sections: seq<Section>, current: Section, offset: nat)
    requires Grouped(lines, sections, current, offset) && !IsHeading(line) && U.Valid(line)
    ensures Grouped(lines + [line], sections, current.(body := Extend(current.body, line)), offset + |line| + 1)
  {
    BodyLinesAppend(lines, line);
    ExtendKeeps(current.body, line);
    Associative(Content(Bodies(sections)), U.Strip(current.body), U.Strip(line));
  }

  lemma OpenBounds(lines: seq<Bytes>, sections: seq<Section>, current: Section, offset: nat)
    requires Grouped(lines, sections, current, offset)
    ensures offset == Extent(lines) && current.offset + |current.body| <= Extent(lines)
  {
  }

  /** One line of the first loop: a heading opens a section, any other line extends the open one. */
  method TakeLine(ghost text: Bytes, ghost lines: seq<Bytes>, line: Bytes, sections: seq<Section>, current: Section, offset: nat)
    returns (sections': seq<Section>, current': Section)
    requires Grouped(lines, sections, current, offset) && U.Valid(line)
    requires Placing(text, lines, sections, current) && StandsAt(text, line, Extent(lines))
    ensures Grouped(lines + [line], sections', current', offset + |line| + 1)
    ensures Placing(text, lines + [line], sections', current')
  {
    sections', current' := sections, current;
    OpenBounds(lines, sections, current, offset);
    hide *;
    if IsHeading(line) {
      AfterHeading(lines, line, sections, current, offset);
      PlacingHeading(text, lines, line, sections, current);
      if current.body != [] { sections' := sections + [current]; }
      current' := Section(HeadingOf(line), [], offset);
    } else {
      AfterBodyLine(lines, line, sections, current, offset);
      PlacingBodyLine(text, lines, line, sections, current);
      current' := current.(body := Extend(current.body, line));
    }
  }

  /** The first loop of ChunkText: body lines grouped under their headings. */
  method Sections(ghost text: Bytes, lines: seq<Bytes>) returns (sections: seq<Section>)
    requires lines != [] && forall i :: 0 <= i < |lines| ==> U.Valid(lines[i])
    requires forall i :: 0 <= i < |lines| ==> StandsAt(text, lines[i], Extent(lines[..i]))
    ensures Laid(sections, Extent(lines) - 1)
    ensures Content(Bodies(sections)) == Content(BodyLines(lines))
    ensures AllSections(text, lines, sections)
  {
    hide *;
    sections := [];
    NothingGrouped();
    PlacingNothing(text);
    var current, offset: nat := Section([], [], 0), 0;
    ghost var seen: seq<Bytes> := [];
    for i := 0 to |lines|
      invariant seen == lines[..i] && Grouped(seen, sections, current, offset) && Placing(text, seen, sections, current)
    {
      sections, current := TakeLine(text, seen, lines[i], sections, current, offset);
      offset := offset + |lines[i]| + 1;
      seen := seen + [lines[i]];
    }
    assert seen == lines;
    CloseSections(lines, sections, current, offset);
    ClosePlacing(text, lines, sections, current);
    if current.body != [] || current.heading != [] { sections := sections + [current]; }
  }

  lemma NothingGrouped()
    ensures Grouped([], [], Section([], [], 0), 0)
  {
  }

  /** Every section is that of a heading line, and every heading line with text below it has its section. */
  ghost predicate AllSections(text: Bytes, lines: seq<Bytes>, sections: seq<Section>) {
    && (forall i :: 0 <= i < |sections| ==> Located(text, lines, sections[i]))
    && (forall k :: HeadsSection(lines, k) && SectionBody(text, lines, k) != [] ==> Listed(text, lines, sections, k))
  }

  lemma ClosePlacing(text: Bytes, lines: seq<Bytes>, sections: seq<Section>, current: Section)
    requires Placing(text, lines, sections, current)
    ensures AllSections(text, lines, if current.body != [] || current.heading != [] then sections + [current] else sections)
  {
    var k :| OpenAt(text, lines, current, k) && Closed(text, lines, sections, k);
    OpenText(text, lines, current, k, lines);
    OpenHeads(text, lines, current, k);
    hide IsHeading, HeadingOf, SectionAt, Reaches, SectionBody, Listed, Closed;
    CloseOne(text, lines, sections, current, k, |lines|);
    AllClosed(text, lines, if current.body != [] || current.heading != [] then sections + [current] else sections);
  }

  lemma AllClosed(text: Bytes, lines: seq<Bytes>, sections: seq<Section>)
    requires Closed(text, lines, sections, |lines|)
    ensures AllSections(text, lines, sections)
  {
    hide SectionAt, SectionBody, Listed, IsHeading;
    forall i | 0 <= i < |sections| ensures Located(text, lines, sections[i]) {
      var k :| k < |lines| && SectionAt(text, lines, sections[i], k);
    }
  }

  /** The section left open at the end is kept unless it is empty in both parts. */
  lemma CloseSections(lines: seq<Bytes>, sections: seq<Section>, current: Section, offset: nat)
    requires lines != [] && Grouped(lines, sections, current, offset)
    ensures var all := if current.body != [] || current.heading != [] then sections + [current] else sections;
            Laid(all, Extent(lines) - 1) && Content(Bodies(all)) == Content(BodyLines(lines))
  {
    if current.body != [] || current.heading != [] {
      PushSection(sections, current, offset - 1);
    } else {
      assert Content(Bodies(sections)) + [] == Content(Bodies(sections));
    }
  }

  // ----- chunks -----

  function Texts(chunks: seq<Chunk>): (r: seq<Bytes>)
    ensures |r| == |chunks|
  {
    seq(|chunks|, i requires 0 <= i < |chunks| => chunks[i].text)
  }

  /** Nonempty valid text of bounded size, without white space at its ends, and a nonempty interval. */
  predicate WellFormed(c: Chunk, maxBytes: int) {
    U.Valid(c.text) && 0 < |c.text| <= maxBytes && U.SpaceWidth(c.text) == 0 && U.SpaceTail(c.text) == 0 && 0 <= c.start < c.end
  }

  /** The chunk is not yet numbered and carries the provenance of its snapshot. */
  predicate From(c: Chunk, snapshot: Snapshot, parserVersion: string) {
    && c.id == 0 && c.projectID == snapshot.projectID && c.sourceID == snapshot.sourceID && c.snapshotID == snapshot.id
    && c.parserVersion == parserVersion && c.observedAt == snapshot.observedAt && c.current == snapshot.current
  }

  /** Chunks in order, disjoint, inside [low, high]. */
  ghost predicate Placed(chunks: seq<Chunk>, maxBytes: int, low: int, high: int) {
    && (forall i :: 0 <= i < |chunks| ==> WellFormed(chunks[i], maxBytes) && low <= chunks[i].start && chunks[i].end <= high)
    && (forall i, j :: 0 <= i < j < |chunks| ==> chunks[i].end <= chunks[j].start)
  }

  /** The chunk is the i-th part of a body under a heading; its offsets count from the beginning of the section. */
  predicate PieceOf(heading: Bytes, offset: int, body: Bytes, cuts: seq<int>, i: int, c: Chunk) {
    && 0 <= i < |cuts| - 1 && c.heading == heading && c.start == offset + cuts[i] && c.end == offset + cuts[i + 1]
    && c.text == PartText(body, cuts, i)
  }

  ghost predicate SomePiece(heading: Bytes, offset: int, body: Bytes, cuts: seq<int>, c: Chunk) {
    exists i :: PieceOf(heading, offset, body, cuts, i, c)
  }

  ghost predicate HasPiece(heading: Bytes, offset: int, body: Bytes, cuts: seq<int>, i: int, chunks: seq<Chunk>) {
    exists j :: 0 <= j < |chunks| && PieceOf(heading, offset, body, cuts, i, chunks[j])
  }

  /** The chunks are the parts that are not blank, all of them. */
  ghost predicate Exact(heading: Bytes, offset: int, body: Bytes, cuts: seq<int>, chunks: seq<Chunk>) {
    && (forall j :: 0 <= j < |chunks| ==> SomePiece(heading, offset, body, cuts, chunks[j]))
    && (forall i :: 0 <= i < |cuts| - 1 && PartText(body, cuts, i) != [] ==> HasPiece(heading, offset, body, cuts, i, chunks))
  }

  ghost predicate Tiles(section: Section, maxBytes: int, chunks: seq<Chunk>) {
    exists cuts :: IsTiling(U.Trim(section.body), maxBytes, cuts)
                   && Exact(section.heading, section.offset, U.Trim(section.body), cuts, chunks)
  }

  lemma ExactNothing(heading: Bytes, offset: int, body: Bytes, maxBytes: int)
    ensures Exact(heading, offset, body, [0], []) && Steps(body, maxBytes, [0])
  {
  }

  /** Further cuts leave the pieces as they are. */
  lemma PieceStays(heading: Bytes, offset: int, body: Bytes, cuts: seq<int>, to: int, i: int, c: Chunk)
    requires 0 <= i < |cuts| - 1
    ensures PartText(body, cuts + [to], i) == PartText(body, cuts, i)
    ensures PieceOf(heading, offset, body, cuts + [to], i, c) <==> PieceOf(heading, offset, body, cuts, i, c)
  {
    hide U.Trim;
  }

  /** One cut more; the part in front of it is a chunk unless it is blank. */
  lemma ExactNext(heading: Bytes, offset: int, body: Bytes, cuts: seq<int>, to: int, chunks: seq<Chunk>, more: seq<Chunk>)
    requires cuts != [] && Exact(heading, offset, body, cuts, chunks)
    requires if PartText(body, cuts + [to], |cuts| - 1) == [] then more == []
             else |more| == 1 && PieceOf(heading, offset, body, cuts + [to], |cuts| - 1, more[0])
    ensures Exact(heading, offset, body, cuts + [to], chunks + more)
  {
    hide PieceOf, PartText;
    var cuts', all := cuts + [to], chunks + more;
    forall j | 0 <= j < |all| ensures SomePiece(heading, offset, body, cuts', all[j]) {
      if j < |chunks| {
        var i :| PieceOf(heading, offset, body, cuts, i, chunks[j]);
        PieceRange(heading, offset, body, cuts, i, chunks[j]);
        PieceStays(heading, offset, body, cuts, to, i, chunks[j]);
      }
    }
    forall i | 0 <= i < |cuts'| - 1 && PartText(body, cuts', i) != [] ensures HasPiece(heading, offset, body, cuts', i, all) {
      if i < |cuts| - 1 {
        OldPiece(heading, offset, body, cuts, to, i, chunks);
        var j :| 0 <= j < |chunks| && PieceOf(heading, offset, body, cuts', i, chunks[j]);
        assert all[j] == chunks[j];
      } else {
        assert all[|chunks|] == more[0];
      }
    }
  }

  lemma PieceRange(heading: Bytes, offset: int, body: Bytes, cuts: seq<int>, i: int, c: Chunk)
    requires PieceOf(heading, offset, body, cuts, i, c)
    ensures 0 <= i < |cuts| - 1
  {
  }

  lemma OldPiece(heading: Bytes, offset: int, body: Bytes, cuts: seq<int>, to: int, i: int, chunks: seq<Chunk>)
    requires 0 <= i < |cuts| - 1 && Exact(heading, offset, body, cuts, chunks) && PartText(body, cuts + [to], i) != []
    ensures HasPiece(heading, offset, body, cuts + [to], i, chunks)
  {
    hide PieceOf, PartText;
    PieceStays(heading, offset, body, cuts, to, i, Chunk(0, 0, 0, 0, [], [], 0, 0, "", 0, false));
    var j :| 0 <= j < |chunks| && PieceOf(heading, offset, body, cuts, i, chunks[j]);
    PieceStays(heading, offset, body, cuts, to, i, chunks[j]);
  }

  // ----- the pieces of a text -----

  /** The chunk is the i-th part of the text of the section of heading line k. */
  ghost predicate Piece(text: Bytes, lines: seq<Bytes>, maxBytes: int, k: int, cuts: seq<int>, i: int, c: Chunk) {
    && HeadsSection(lines, k) && IsTiling(SectionBody(text, lines, k), maxBytes, cuts)
    && PieceOf(HeadingAt(lines, k), HeadStart(lines, k), SectionBody(text, lines, k), cuts, i, c)
  }

  ghost predicate IsPiece(text: Bytes, lines: seq<Bytes>, maxBytes: int, c: Chunk) {
    exists k, cuts, i :: Piece(text, lines, maxBytes, k, cuts, i, c)
  }

  ghost predicate HasPart(text: Bytes, lines: seq<Bytes>, maxBytes: int, k: int, cuts: seq<int>, i: int, chunks: seq<Chunk>) {
    exists j :: 0 <= j < |chunks| && Piece(text, lines, maxBytes, k, cuts, i, chunks[j])
  }

  /** No part of the section that is not blank is missing. */
  ghost predicate Present(text: Bytes, lines: seq<Bytes>, maxBytes: int, chunks: seq<Chunk>, k: int)
    requires HeadsSection(lines, k)
  {
    forall cuts, i ::
      IsTiling(SectionBody(text, lines, k), maxBytes, cuts) && PartText(SectionBody(text, lines, k), cuts, i) != [] ==>
        HasPart(text, lines, maxBytes, k, cuts, i, chunks)
  }

  lemma PiecesOfSection(text: Bytes, lines: seq<Bytes>, maxBytes: int, section: Section, k: int, chunks: seq<Chunk>)
    requires SectionAt(text, lines, section, k) && Tiles(section, maxBytes, chunks)
    ensures forall j :: 0 <= j < |chunks| ==> IsPiece(text, lines, maxBytes, chunks[j])
    ensures Present(text, lines, maxBytes, chunks, k)
  {
    hide PieceOf, PartText, IsTiling, SectionBody, HeadingAt, HeadStart, IsHeading;
    var heading, offset, body := section.heading, section.offset, SectionBody(text, lines, k);
    var cuts :| IsTiling(body, maxBytes, cuts) && Exact(heading, offset, body, cuts, chunks);
    forall j | 0 <= j < |chunks| ensures IsPiece(text, lines, maxBytes, chunks[j]) {
      assert SomePiece(heading, offset, body, cuts, chunks[j]);
      var i :| PieceOf(heading, offset, body, cuts, i, chunks[j]);
      assert Piece(text, lines, maxBytes, k, cuts, i, chunks[j]);
    }
    forall other, i | IsTiling(body, maxBytes, other) && PartText(body, other, i) != []
      ensures HasPart(text, lines, maxBytes, k, other, i, chunks)
    {
      TilingUnique(body, maxBytes, cuts, other);
      PartRange(body, cuts, i);
      assert HasPiece(heading, offset, body, cuts, i, chunks);
      var j :| 0 <= j < |chunks| && PieceOf(heading, offset, body, cuts, i, chunks[j]);
      assert Piece(text, lines, maxBytes, k, cuts, i, chunks[j]);
    }
  }

  lemma PartRange(body: Bytes, cuts: seq<int>, i: int)
    requires PartText(body, cuts, i) != []
    ensures 0 <= i < |cuts| - 1 && 0 <= cuts[i] <= cuts[i + 1] <= |body|
  {
  }

  lemma PresentMore(text: Bytes, lines: seq<Bytes>, maxBytes: int, chunks: seq<Chunk>, more: seq<Chunk>, k: int)
    requires HeadsSection(lines, k) && (Present(text, lines, maxBytes, chunks, k) || Present(text, lines, maxBytes, more, k))
    ensures Present(text, lines, maxBytes, chunks + more, k)
  {
    hide Piece, PartText, IsTiling, SectionBody, IsHeading;
    var body, all := SectionBody(text, lines, k), chunks + more;
    forall cuts, i | IsTiling(body, maxBytes, cuts) && PartText(body, cuts, i) != []
      ensures HasPart(text, lines, maxBytes, k, cuts, i, all)
    {
      if HasPart(text, lines, maxBytes, k, cuts, i, chunks) {
        var j :| 0 <= j < |chunks| && Piece(text, lines, maxBytes, k, cuts, i, chunks[j]);
        assert all[j] == chunks[j];
      } else {
        var j :| 0 <= j < |more| && Piece(text, lines, maxBytes, k, cuts, i, more[j]);
        assert all[|chunks| + j] == more[j];
      }
    }
  }

  /** The first sections have all their parts among the chunks, and the chunks are parts. */
  ghost predicate Gathered(text: Bytes, lines: seq<Bytes>, maxBytes: int, sections: seq<Section>, chunks: seq<Chunk>) {
    && (forall j :: 0 <= j < |chunks| ==> IsPiece(text, lines, maxBytes, chunks[j]))
    && (forall s, k :: 0 <= s < |sections| && SectionAt(text, lines, sections[s], k) ==> Present(text, lines, maxBytes, chunks, k))
  }

  lemma GatherMore(text: Bytes, lines: seq<Bytes>, maxBytes: int, sections: seq<Section>, section: Section, chunks: seq<Chunk>, more: seq<Chunk>)
    requires Gathered(text, lines, maxBytes, sections, chunks) && Located(text, lines, section) && Tiles(section, maxBytes, more)
    ensures Gathered(text, lines, maxBytes, sections + [section], chunks + more)
  {
    hide SectionAt, Tiles, IsPiece, Present;
    var all := chunks + more;
    var k :| SectionAt(text, lines, section, k);
    PiecesOfSection(text, lines, maxBytes, section, k, more);
    assert forall j :: 0 <= j < |all| ==> all[j] == if j < |chunks| then chunks[j] else more[j - |chunks|];
    forall s, k | 0 <= s < |sections| + 1 && SectionAt(text, lines, (sections + [section])[s], k)
      ensures HeadsSection(lines, k) && Present(text, lines, maxBytes, all, k)
    {
      AtHead(text, lines, (sections + [section])[s], k);
      if s == |sections| { PiecesOfSection(text, lines, maxBytes, section, k, more); }
      PresentMore(text, lines, maxBytes, chunks, more, k);
    }
  }

  lemma AtHead(text: Bytes, lines: seq<Bytes>, section: Section, k: int)
    requires SectionAt(text, lines, section, k)
    ensures HeadsSection(lines, k)
  {
  }

  lemma GatherNothing(text: Bytes, lines: seq<Bytes>, maxBytes: int)
    ensures Gathered(text, lines, maxBytes, [], [])
  {
  }

  /** Every section that has text is among the sections, and the others have no parts. */
  lemma GatherAll(text: Bytes, lines: seq<Bytes>, maxBytes: int, sections: seq<Section>, chunks: seq<Chunk>)
    requires AllSections(text, lines, sections) && Gathered(text, lines, maxBytes, sections, chunks)
    ensures AllPieces(text, lines, maxBytes, chunks)
  {
    hide SectionAt, IsPiece, IsHeading, SectionBody, Present;
    forall k | HeadsSection(lines, k) ensures Present(text, lines, maxBytes, chunks, k) {
      if SectionBody(text, lines, k) != [] {
        var s :| 0 <= s < |sections| && SectionAt(text, lines, sections[s], k);
      } else {
        NoParts(text, lines, maxBytes, chunks, k);
      }
    }
  }

  lemma NoParts(text: Bytes, lines: seq<Bytes>, maxBytes: int, chunks: seq<Chunk>, k: int)
    requires HeadsSection(lines, k) && SectionBody(text, lines, k) == []
    ensures Present(text, lines, maxBytes, chunks, k)
  {
    TrimNothing();
  }

  /** The chunks are the parts of all sections that are not blank. */
  ghost predicate AllPieces(text: Bytes, lines: seq<Bytes>, maxBytes: int, chunks: seq<Chunk>) {
    && (forall j :: 0 <= j < |chunks| ==> IsPiece(text, lines, maxBytes, chunks[j]))
    && (forall k :: HeadsSection(lines, k) ==> Present(text, lines, maxBytes, chunks, k))
  }

  lemma PlaceOne(chunks: seq<Chunk>, c: Chunk, maxBytes: int, low: int, middle: int, high: int)
    requires Placed(chunks, maxBytes, low, middle) && WellFormed(c, maxBytes) && low <= middle <= c.start && c.end <= high
    ensures Placed(chunks + [c], maxBytes, low, high)
    ensures Content(Texts(chunks + [c])) == Content(Texts(chunks)) + U.Strip(c.text)
  {
    hide U.Valid, U.Strip, Content;
    assert Texts(chunks + [c]) == Texts(chunks) + [c.text];
    ContentAppend(Texts(chunks), c.text);
  }

  lemma PlaceMany(chunks: seq<Chunk>, more: seq<Chunk>, maxBytes: int, low: int, reached: int, middle: int, high: int)
    requires Placed(chunks, maxBytes, low, reached) && Placed(more, maxBytes, middle, high) && low <= reached <= middle <= high
    ensures Placed(chunks + more, maxBytes, low, high)
    ensures Content(Texts(chunks + more)) == Content(Texts(chunks)) + Content(Texts(more))
  {
    hide U.Valid, Content;
    assert Texts(chunks + more) == Texts(chunks) + Texts(more);
    ContentConcat(Texts(chunks), Texts(more));
  }

  /** The rune-safe end of the next part: as far as allowed, then back to a start byte. It always advances,
      so the no-progress error of the source is unreachable. */
  method PartEnd(body: Bytes, consumed: nat, maxBytes: int) returns (end: nat)
    requires U.Valid(body) && consumed < |body| && maxBytes >= 64
    ensures consumed < end <= |body| && end - consumed <= maxBytes
    ensures end == |body| || U.RuneStart(body[end])
    ensures IsNextCut(body, consumed, end, maxBytes)
    ensures end == |body| || consumed + maxBytes < |body|
    ensures forall x :: end < x < |body| && x <= consumed + maxBytes ==> 0x80 <= body[x] <= 0xBF
  {
    end := if |body| < consumed + maxBytes then |body| else consumed + maxBytes;
    if end == |body| {
      CutBytes(body, consumed, end, maxBytes);
      return;
    }
    ghost var j := U.StartNearby(body, end);
    while end < |body| && end > consumed && !U.RuneStart(body[end])
      invariant consumed < j <= end < |body| && end - consumed <= maxBytes
      invariant forall x :: end < x <= |body| && x - consumed <= maxBytes ==> InsideCharacter(body, x)
      decreases end
    {
      end := end - 1;
    }
    CutBytes(body, consumed, end, maxBytes);
  }

  lemma Part(body: Bytes, consumed: nat, end: nat)
    requires U.Valid(body) && consumed < end <= |body|
    requires U.RuneStart(body[consumed]) && (end == |body| || U.RuneStart(body[end]))
    ensures U.Valid(body[consumed..end]) && U.Valid(body[end..])
    ensures U.Strip(body[consumed..]) == U.Strip(body[consumed..end]) + U.Strip(body[end..])
  {
    hide *;
    U.ValidCut(body, consumed);
    var rest := body[consumed..];
    assert end < |body| ==> rest[end - consumed] == body[end];
    U.ValidCut(rest, end - consumed);
    var part, tail := body[consumed..end], body[end..];
    assert rest[..end - consumed] == part && rest[end - consumed..] == tail;
    U.StripConcat(part, tail);
    assert rest == part + tail;
  }

  /** The chunks so far and the rest of the body hold the whole body. */
  ghost predicate Consumed(body: Bytes, consumed: nat, chunks: seq<Chunk>, maxBytes: int, offset: int) {
    && consumed <= |body| && (consumed < |body| ==> U.RuneStart(body[consumed]))
    && Placed(chunks, maxBytes, offset, offset + consumed)
    && Content(Texts(chunks)) + U.Strip(body[consumed..]) == U.Strip(body)
  }

  lemma StripNothing()
    ensures U.Strip([]) == []
  {
  }

  lemma SkipPart(body: Bytes, consumed: nat, end: nat, chunks: seq<Chunk>, maxBytes: int, offset: int)
    requires U.Valid(body) && consumed < end <= |body| && (end == |body| || U.RuneStart(body[end]))
    requires Consumed(body, consumed, chunks, maxBytes, offset) && U.Trim(body[consumed..end]) == []
    ensures Consumed(body, end, chunks, maxBytes, offset)
  {
    hide U.Valid, U.Strip, U.Trim, Content;
    Part(body, consumed, end);
    U.TrimKeeps(body[consumed..end]);
    StripNothing();
    assert U.Strip(body[consumed..]) == U.Strip(body[end..]);
  }

  lemma TakePart(body: Bytes, consumed: nat, end: nat, chunks: seq<Chunk>, c: Chunk, maxBytes: int, offset: nat)
    requires U.Valid(body) && consumed < end <= |body| && (end == |body| || U.RuneStart(body[end])) && end - consumed <= maxBytes
    requires Consumed(body, consumed, chunks, maxBytes, offset)
    requires c.text == U.Trim(body[consumed..end]) != [] && c.start == offset + consumed && c.end == offset + end
    ensures Consumed(body, end, chunks + [c], maxBytes, offset)
  {
    hide U.Valid, U.Strip, U.Trim, Content;
    Part(body, consumed, end);
    U.TrimKeeps(body[consumed..end]);
    U.TrimThorough(body[consumed..end]);
    PlaceOne(chunks, c, maxBytes, offset, offset + consumed, offset + end);
    Associative(Content(Texts(chunks)), U.Strip(c.text), U.Strip(body[end..]));
  }

  /** The chunks of one section. */
  method ChunkSection(section: Section, snapshot: Snapshot, parserVersion: string, maxBytes: int) returns (chunks: seq<Chunk>)
    requires U.Valid(section.body) && maxBytes >= 64
    ensures Placed(chunks, maxBytes, section.offset, section.offset + |section.body|)
    ensures Content(Texts(chunks)) == U.Strip(section.body)
    ensures forall i :: 0 <= i < |chunks| ==> From(chunks[i], snapshot, parserVersion)
    ensures Tiles(section, maxBytes, chunks)
  {
    hide *;
    var body := U.Trim(section.body);
    U.TrimKeeps(section.body);
    chunks := [];
    var consumed: nat := 0;
    ghost var cuts: seq<int> := [0];
    ExactNothing(section.heading, section.offset, body, maxBytes);
    BodyStart(body, maxBytes, section.offset);
    while consumed < |body|
      invariant Consumed(body, consumed, chunks, maxBytes, section.offset)
      invariant forall i :: 0 <= i < |chunks| ==> From(chunks[i], snapshot, parserVersion)
      invariant cuts != [] && cuts[|cuts| - 1] == consumed && Steps(body, maxBytes, cuts)
      invariant Exact(section.heading, section.offset, body, cuts, chunks)
    {
      var end := PartEnd(body, consumed, maxBytes);
      var part := U.Trim(body[consumed..end]);
      if part != [] {
        var c := Chunk(0, snapshot.projectID, snapshot.sourceID, snapshot.id, section.heading, part,
                       section.offset + consumed, section.offset + end, parserVersion, snapshot.observedAt, snapshot.current);
        TakePart(body, consumed, end, chunks, c, maxBytes, section.offset);
        FreshChunk(c, snapshot, parserVersion);
        PartTaken(section, body, cuts, end, part, c);
        ExactNext(section.heading, section.offset, body, cuts, end, chunks, [c]);
        chunks := chunks + [c];
      } else {
        SkipPart(body, consumed, end, chunks, maxBytes, section.offset);
        PartSkipped(body, cuts, end, part);
        ExactNext(section.heading, section.offset, body, cuts, end, chunks, []);
        assert chunks + [] == chunks;
      }
      AddCut(body, maxBytes, cuts, end);
      cuts := cuts + [end];
      consumed := end;
    }
    BodyEnd(body, consumed, chunks, maxBytes, section.offset, section.offset + |section.body|);
    SectionTiled(section, maxBytes, cuts, chunks);
  }

  lemma PartTaken(section: Section, body: Bytes, cuts: seq<int>, end: int, part: Bytes, c: Chunk)
    requires cuts != [] && 0 <= cuts[|cuts| - 1] <= end <= |body| && part == U.Trim(body[cuts[|cuts| - 1]..end]) != []
    requires c.heading == section.heading && c.text == part
    requires c.start == section.offset + cuts[|cuts| - 1] && c.end == section.offset + end
    ensures PartText(body, cuts + [end], |cuts| - 1) != []
    ensures PieceOf(section.heading, section.offset, body, cuts + [end], |cuts| - 1, c)
  {
    hide U.Trim;
  }

  lemma PartSkipped(body: Bytes, cuts: seq<int>, end: int, part: Bytes)
    requires cuts != [] && 0 <= cuts[|cuts| - 1] <= end <= |body| && part == U.Trim(body[cuts[|cuts| - 1]..end]) == []
    ensures PartText(body, cuts + [end], |cuts| - 1) == []
  {
    hide U.Trim;
  }

  lemma SectionTiled(section: Section, maxBytes: int, cuts: seq<int>, chunks: seq<Chunk>)
    requires var body := U.Trim(section.body);
             && Steps(body, maxBytes, cuts) && cuts[|cuts| - 1] >= |body|
             && Exact(section.heading, section.offset, body, cuts, chunks)
    ensures Tiles(section, maxBytes, chunks)
  {
    hide U.Trim, Exact;
    var body := U.Trim(section.body);
    if |cuts| > 1 { assert Joint(body, cuts, |cuts| - 2, maxBytes); }
    assert IsTiling(body, maxBytes, cuts);
  }

  lemma FreshChunk(c: Chunk, snapshot: Snapshot, parserVersion: string)
    requires c == Chunk(0, snapshot.projectID, snapshot.sourceID, snapshot.id, c.heading, c.text, c.start, c.end,
                        parserVersion, snapshot.observedAt, snapshot.current)
    ensures From(c, snapshot, parserVersion)
  {
  }

  lemma NothingPlaced(maxBytes: int)
    ensures Placed([], maxBytes, 0, 0) && Content(Texts([])) == [] && Content(Bodies([])) == []
  {
  }

  lemma BodyStart(body: Bytes, maxBytes: int, offset: int)
    requires U.Valid(body)
    ensures Consumed(body, 0, [], maxBytes, offset)
  {
    if body != [] { U.ValidStarts(body); }
    assert body[0..] == body;
  }

  lemma BodyEnd(body: Bytes, consumed: nat, chunks: seq<Chunk>, maxBytes: int, offset: int, limit: int)
    requires Consumed(body, consumed, chunks, maxBytes, offset) && consumed >= |body| && offset + |body| <= limit
    ensures Placed(chunks, maxBytes, offset, limit)
    ensures Content(Texts(chunks)) == U.Strip(body)
  {
    hide U.Valid, Content;
    assert body[|body|..] == [] && Content(Texts(chunks)) + [] == Content(Texts(chunks));
  }

  lemma NextSection(sections: seq<Section>, i: nat, reached: int, limit: int)
    requires i < |sections| && Laid(sections, limit) && reached <= sections[i].offset
    ensures U.Valid(sections[i].body) && sections[i].offset + |sections[i].body| <= limit
    ensures i + 1 < |sections| ==> sections[i].offset + |sections[i].body| <= sections[i + 1].offset
  {
  }

  /** The second loop of ChunkText. */
  method ChunkSections(sections: seq<Section>, snapshot: Snapshot, parserVersion: string, maxBytes: int,
                       ghost limit: nat, ghost text: Bytes, ghost lines: seq<Bytes>)
    returns (chunks: seq<Chunk>)
    requires Laid(sections, limit) && maxBytes >= 64
    requires AllSections(text, lines, sections)
    ensures Placed(chunks, maxBytes, 0, limit)
    ensures Content(Texts(chunks)) == Content(Bodies(sections))
    ensures forall k :: 0 <= k < |chunks| ==> From(chunks[k], snapshot, parserVersion)
    ensures AllPieces(text, lines, maxBytes, chunks)
  {
    hide *;
    chunks := [];
    ghost var reached := 0;
    NothingPlaced(maxBytes);
    GatherNothing(text, lines, maxBytes);
    assert sections[..0] == [];
    for i := 0 to |sections|
      invariant 0 <= reached <= limit && (i < |sections| ==> reached <= sections[i].offset)
      invariant Placed(chunks, maxBytes, 0, reached)
      invariant Content(Texts(chunks)) == Content(Bodies(sections[..i]))
      invariant forall k :: 0 <= k < |chunks| ==> From(chunks[k], snapshot, parserVersion)
      invariant Gathered(text, lines, maxBytes, sections[..i], chunks)
    {
      NextSection(sections, i, reached, limit);
      var more := ChunkSection(sections[i], snapshot, parserVersion, maxBytes);
      ghost var low, high := sections[i].offset, sections[i].offset + |sections[i].body|;
      PlaceMany(chunks, more, maxBytes, 0, reached, low, high);
      LocatedAt(text, lines, sections, i);
      GatherMore(text, lines, maxBytes, sections[..i], sections[i], chunks, more);
      assert sections[..i] + [sections[i]] == sections[..i + 1];
      BodiesPrefix(sections, i);
      chunks := chunks + more;
      reached := high;
    }
    assert sections[..|sections|] == sections;
    PlaceWider(chunks, maxBytes, 0, reached, limit);
    GatherAll(text, lines, maxBytes, sections, chunks);
  }

  lemma LocatedAt(text: Bytes, lines: seq<Bytes>, sections: seq<Section>, i: nat)
    requires AllSections(text, lines, sections) && i < |sections|
    ensures Located(text, lines, sections[i])
  {
    hide SectionAt;
  }

  lemma PlaceWider(chunks: seq<Chunk>, maxBytes: int, low: int, high: int, limit: int)
    requires Placed(chunks, maxBytes, low, high) && high <= limit
    ensures Placed(chunks, maxBytes, low, limit)
  {
  }

  /** The chunks hold the text of all lines that are not headings, white space aside, in order, without loss or
      repetition, in disjoint increasing intervals of the input; each quotes the input, at a distance fixed for its
      section, and is as long as the limit allows unless it ends the section. */
  ghost predicate IsChunking(text: Bytes, snapshot: Snapshot, parserVersion: string, maxBytes: int, chunks: seq<Chunk>) {
    && Placed(chunks, maxBytes, 0, |text|)
    && Content(Texts(chunks)) == Content(BodyLines(Lines(text)))
    && (forall i :: 0 <= i < |chunks| ==> From(chunks[i], snapshot, parserVersion))
    && AllPieces(text, Lines(text), maxBytes, chunks)
  }

  lemma Provenance(chunks: seq<Chunk>, snapshot: Snapshot, parserVersion: string)
    requires forall i :: 0 <= i < |chunks| ==> From(chunks[i], snapshot, parserVersion)
    ensures forall i :: 0 <= i < |chunks| ==>
              var c := chunks[i];
              && c.id == 0 && c.projectID == snapshot.projectID && c.sourceID == snapshot.sourceID && c.snapshotID == snapshot.id
              && c.parserVersion == parserVersion && c.observedAt == snapshot.observedAt && c.current == snapshot.current
  {
  }

  lemma Chunked(text: Bytes, snapshot: Snapshot, parserVersion: string, maxBytes: int, chunks: seq<Chunk>)
    requires Placed(chunks, maxBytes, 0, |text|) && Content(Texts(chunks)) == Content(BodyLines(Lines(text)))
    requires forall i :: 0 <= i < |chunks| ==> From(chunks[i], snapshot, parserVersion)
    requires AllPieces(text, Lines(text), maxBytes, chunks)
    ensures IsChunking(text, snapshot, parserVersion, maxBytes, chunks)
  {
    hide Placed, Content, AllPieces, From, Lines, BodyLines;
  }

  /** `ChunkText` succeeds exactly on valid input. */
  method ChunkText(snapshot: Snapshot, text: Bytes, parserVersion: string, maxBytes: int) returns (r: Result<seq<Chunk>, Error>)
    ensures r.Ok? <==> snapshot.id > 0 && U.Valid(text) && !Blank(parserVersion) && maxBytes >= 64
    ensures r.Ok? ==> IsChunking(text, snapshot, parserVersion, maxBytes, r.value)
    ensures r.Ok? ==> forall i :: 0 <= i < |r.value| ==>
              var c := r.value[i];
              && c.id == 0 && c.projectID == snapshot.projectID && c.sourceID == snapshot.sourceID && c.snapshotID == snapshot.id
              && c.parserVersion == parserVersion && c.observedAt == snapshot.observedAt && c.current == snapshot.current
  {
    if snapshot.id <= 0 || !U.Valid(text) || Blank(parserVersion) || maxBytes < 64 { return Err(ErrInvalid); }
    LinesOf(text);
    forall i | 0 <= i < |Lines(text)| ensures StandsAt(text, Lines(text)[i], Extent(Lines(text)[..i])) { LineStands(text, i); }
    hide *;
    var sections := Sections(text, Lines(text));
    var chunks := ChunkSections(sections, snapshot, parserVersion, maxBytes, |text|, text, Lines(text));
    Chunked(text, snapshot, parserVersion, maxBytes, chunks);
    Provenance(chunks, snapshot, parserVersion);
    return Ok(chunks);
  }

  /** The texts one after another. */
  function Joined(texts: seq<Bytes>): (r: Bytes) {
    if texts == [] then [] else Joined(texts[..|texts| - 1]) + texts[|texts| - 1]
  }

  /** Valid texts may be concatenated first and stripped afterwards. */
  lemma {:induction false} ContentIsStrippedJoin(texts: seq<Bytes>)
    requires forall i :: 0 <= i < |texts| ==> U.Valid(texts[i])
    ensures Content(texts) == U.Strip(Joined(texts))
  {
    if texts != [] {
      var front, last := texts[..|texts| - 1], texts[|texts| - 1];
      ContentIsStrippedJoin(front);
      if last != [] { U.ValidStarts(last); }
      U.StripConcat(Joined(front), last);
    }
  }
}
