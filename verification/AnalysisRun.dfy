/** The lifecycle of an analysis run against its persistence validator (internal/analysis/run.go).
    JSON decoding is an arbitrary partial function under which the empty text is not JSON. */
module AnalysisRun {
  import opened Text
  import opened Citations

  datatype State = Queued | Running | Succeeded | Failed | Cancelled

  datatype Claim = Claim(text: string, citations: seq<Citation>)

  datatype Output = Output(summary: string, claims: seq<Claim>)

  datatype Decoded = NotJson | OtherShape | Decoded(output: Output)

  datatype Usage = Usage(inputTokens: int, outputTokens: int, cost: real) {
    predicate Valid() { inputTokens >= 0 && outputTokens >= 0 && cost >= 0.0 }
  }

  /** Instant 0 is the unset time. */
  datatype Run = Run(id: int, seriesID: int, projectID: int, parentRunID: Option<int>, kind: string, state: State,
                     promptVersion: string, schemaVersion: string, retrievalVersion: string, provider: string, model: string,
                     language: string, requestedBy: int, reason: string, cutoff: int, createdAt: int,
                     startedAt: Option<int>, finishedAt: Option<int>, output: string, evidence: seq<Citation>,
                     usage: Usage, failureCode: string)

  datatype Error = ErrInvalidRun | ErrSchema | ErrEvidence

  predicate Identified(r: Run) {
    && r.id > 0 && r.seriesID > 0 && r.projectID > 0 && !Blank(r.kind) && !Blank(r.promptVersion) && !Blank(r.schemaVersion)
    && !Blank(r.retrievalVersion) && !Blank(r.provider) && !Blank(r.model) && !Blank(r.language) && r.requestedBy > 0
    && r.cutoff != 0 && r.createdAt != 0
  }

  // ----- evidence -----

  /** First occurrences, in order. */
  function Dedupe(cs: seq<Citation>): (r: seq<Citation>)
    ensures forall c :: c in r <==> c in cs
  {
    if cs == [] then []
    else
      var front, last := Dedupe(cs[..|cs| - 1]), cs[|cs| - 1];
      assert cs == cs[..|cs| - 1] + [last];
      if last in front then front else front + [last]
  }

  function AllCitations(claims: seq<Claim>): (r: seq<Citation>) {
    if claims == [] then [] else AllCitations(claims[..|claims| - 1]) + claims[|claims| - 1].citations
  }

  predicate Accessible(c: Citation, accessible: map<int, Citation>) { c.chunkID in accessible && accessible[c.chunkID] == c }

  predicate Supported(claim: Claim, accessible: map<int, Citation>) {
    !Blank(claim.text) && claim.citations != [] && forall c :: c in claim.citations ==> Accessible(c, accessible)
  }

  /** What `validateOutput` decides, without its loops. */
  function Derive(decode: string -> Decoded, raw: string, accessible: map<int, Citation>): (r: Result<seq<Citation>, Error>) {
    match decode(raw)
    case Decoded(output) =>
      if Blank(output.summary) || output.claims == [] then Err(ErrSchema)
      else if forall claim :: claim in output.claims ==> Supported(claim, accessible) then Ok(Dedupe(AllCitations(output.claims)))
      else Err(ErrEvidence)
    case _ => Err(ErrSchema)
  }

  lemma DedupeAppend(cs: seq<Citation>, c: Citation)
    ensures Dedupe(cs + [c]) == if c in Dedupe(cs) then Dedupe(cs) else Dedupe(cs) + [c]
  {
    assert (cs + [c])[..|cs|] == cs;
  }

  /** The inner loop over the citations of one claim. */
  method AddCitations(claim: Claim, accessible: map<int, Citation>, evidence: seq<Citation>, ghost earlier: seq<Citation>)
    returns (ok: bool, extended: seq<Citation>)
    requires evidence == Dedupe(earlier)
    ensures ok <==> Supported(claim, accessible)
    ensures ok ==> extended == Dedupe(earlier + claim.citations)
  {
    hide Dedupe, Blank;
    extended := evidence;
    if Blank(claim.text) || claim.citations == [] { return false, evidence; }
    var cs := claim.citations;
    ghost var done: seq<Citation> := [];
    assert earlier + [] == earlier;
    for i := 0 to |cs|
      invariant done == cs[..i] && forall k :: 0 <= k < i ==> Accessible(cs[k], accessible)
      invariant extended == Dedupe(earlier + done)
    {
      if !(cs[i].chunkID in accessible) || accessible[cs[i].chunkID] != cs[i] {
        assert cs[i] in claim.citations;
        return false, evidence;
      }
      DedupeAppend(earlier + done, cs[i]);
      assert earlier + done + [cs[i]] == earlier + (done + [cs[i]]);
      if cs[i] !in extended { extended := extended + [cs[i]]; }
      done := done + [cs[i]];
    }
    assert done == cs;
    return true, extended;
  }

  lemma NoCitations()
    ensures Dedupe(AllCitations([])) == []
  {
  }

  method ValidateOutput(decode: string -> Decoded, raw: string, accessible: map<int, Citation>) returns (r: Result<seq<Citation>, Error>)
    ensures r == Derive(decode, raw, accessible)
  {
    hide Blank, Dedupe, Supported;
    NoCitations();
    var decoded := decode(raw);
    if !decoded.Decoded? || Blank(decoded.output.summary) || decoded.output.claims == [] { return Err(ErrSchema); }
    var claims, evidence := decoded.output.claims, [];
    for i := 0 to |claims|
      invariant forall k :: 0 <= k < i ==> Supported(claims[k], accessible)
      invariant evidence == Dedupe(AllCitations(claims[..i]))
    {
      var ok, extended := AddCitations(claims[i], accessible, evidence, AllCitations(claims[..i]));
      if !ok {
        assert claims[i] in claims;
        return Err(ErrEvidence);
      }
      assert claims[..i + 1][..i] == claims[..i];
      evidence := extended;
    }
    assert claims[..|claims|] == claims;
    return Ok(evidence);
  }

  // ----- re-deriving the evidence from itself -----

  predicate OnePerChunk(cs: seq<Citation>) { forall c, d :: c in cs && d in cs && c.chunkID == d.chunkID ==> c == d }

  function Index(cs: seq<Citation>): (m: map<int, Citation>)
    ensures forall id :: id in m ==> m[id] in cs && m[id].chunkID == id
    ensures forall c :: c in cs ==> c.chunkID in m
  {
    if cs == [] then map[]
    else
      assert cs == cs[..|cs| - 1] + [cs[|cs| - 1]];
      Index(cs[..|cs| - 1])[cs[|cs| - 1].chunkID := cs[|cs| - 1]]
  }

  lemma {:induction false} CitationsOfClaims(claims: seq<Claim>)
    ensures forall c :: c in AllCitations(claims) <==> exists claim :: claim in claims && c in claim.citations
  {
    if claims != [] {
      var front, last := claims[..|claims| - 1], claims[|claims| - 1];
      CitationsOfClaims(front);
      assert claims == front + [last];
    }
  }

  /** Accepted evidence holds one citation per chunk, and validating the same output against nothing but that
      evidence reproduces it exactly. */
  lemma EvidenceReproduced(decode: string -> Decoded, raw: string, accessible: map<int, Citation>)
    requires Derive(decode, raw, accessible).Ok?
    ensures var evidence := Derive(decode, raw, accessible).value;
            && evidence != [] && OnePerChunk(evidence)
            && (forall c :: c in evidence ==> Accessible(c, accessible))
            && Derive(decode, raw, Index(evidence)) == Ok(evidence)
  {
    var claims := decode(raw).output.claims;
    var evidence := Dedupe(AllCitations(claims));
    CitationsOfClaims(claims);
    forall c | c in evidence ensures Accessible(c, accessible) {
      var claim :| claim in claims && c in claim.citations;
      assert Supported(claim, accessible);
    }
    assert OnePerChunk(evidence);
    forall claim | claim in claims ensures Supported(claim, Index(evidence)) {
      assert Supported(claim, accessible);
      forall c | c in claim.citations ensures Accessible(c, Index(evidence)) {
        assert c in AllCitations(claims) && c in evidence;
      }
    }
    assert claims[0] in claims && Supported(claims[0], accessible);
    assert claims[0].citations[0] in AllCitations(claims);
  }

  // ----- the lifecycle -----

  function NewRun(value: Run): (r: Result<Run, Error>) {
    if !Identified(value) then Err(ErrInvalidRun)
    else Ok(value.(provider := TrimSpace(value.provider), model := TrimSpace(value.model), language := TrimSpace(value.language),
                   reason := TrimSpace(value.reason), state := Queued, output := "", evidence := []))
  }

  datatype Step =
    | Start(now: int)
    | Succeed(raw: string, accessible: map<int, Citation>, usage: Usage, now: int)
    | Fail(code: string, now: int)
    | Cancel(now: int)

  function Apply(decode: string -> Decoded, run: Run, step: Step): (r: Result<Run, Error>) {
    match step
    case Start(now) =>
      if run.state != Queued || now < run.createdAt then Err(ErrInvalidRun)
      else Ok(run.(state := Running, startedAt := Some(now)))
    case Succeed(raw, accessible, usage, now) =>
      if run.state != Running || run.startedAt.None? || now < run.startedAt.value || decode(raw).NotJson? then Err(ErrSchema)
      else
        (match Derive(decode, raw, accessible)
         case Err(e) => Err(e)
         case Ok(evidence) =>
           if !usage.Valid() then Err(ErrInvalidRun)
           else Ok(run.(state := Succeeded, finishedAt := Some(now), output := raw, evidence := evidence, usage := usage)))
    case Fail(code, now) =>
      if run.state != Running || Blank(code) || run.startedAt.None? || now < run.startedAt.value then Err(ErrInvalidRun)
      else Ok(run.(state := Failed, finishedAt := Some(now), failureCode := TrimSpace(code)))
    case Cancel(now) =>
      if run.state != Running || run.startedAt.None? || now < run.startedAt.value then Err(ErrInvalidRun)
      else Ok(run.(state := Cancelled, finishedAt := Some(now)))
  }

  /** A run is accepted with identity, versions, model, language, requester and times, and starts with nothing done. */
  lemma NewRunEffects(value: Run)
    ensures NewRun(value).Ok? <==>
            && value.id > 0 && value.seriesID > 0 && value.projectID > 0 && value.requestedBy > 0
            && value.cutoff != 0 && value.createdAt != 0
            && !Blank(value.kind) && !Blank(value.promptVersion) && !Blank(value.schemaVersion) && !Blank(value.retrievalVersion)
            && !Blank(value.provider) && !Blank(value.model) && !Blank(value.language)
    ensures NewRun(value).Ok? ==>
              var r := NewRun(value).value;
              && r.state == Queued && r.output == "" && r.evidence == []
              && r.provider == TrimSpace(value.provider) && r.model == TrimSpace(value.model)
              && r.language == TrimSpace(value.language) && r.reason == TrimSpace(value.reason)
              && r.(state := value.state, output := value.output, evidence := value.evidence, provider := value.provider,
                    model := value.model, language := value.language, reason := value.reason) == value
  {
    hide Blank, TrimSpace;
  }

  /** When each step succeeds and what it records; everything else stays. */
  lemma StepEffects(decode: string -> Decoded, run: Run, step: Step)
    ensures Apply(decode, run, step).Ok? <==>
            match step
            case Start(now) => run.state == Queued && run.createdAt <= now
            case Succeed(raw, accessible, usage, now) =>
              && run.state == Running && run.startedAt.Some? && run.startedAt.value <= now && Derive(decode, raw, accessible).Ok?
              && usage.inputTokens >= 0 && usage.outputTokens >= 0 && usage.cost >= 0.0
            case Fail(code, now) => run.state == Running && run.startedAt.Some? && run.startedAt.value <= now && !Blank(code)
            case Cancel(now) => run.state == Running && run.startedAt.Some? && run.startedAt.value <= now
    ensures Apply(decode, run, step).Ok? ==>
              var after := Apply(decode, run, step).value;
              match step
              case Start(now) => after == run.(state := Running, startedAt := Some(now))
              case Succeed(raw, accessible, usage, now) =>
                && after.state == Succeeded && after.finishedAt == Some(now) && after.output == raw && after.usage == usage
                && Ok(after.evidence) == Derive(decode, raw, accessible)
                && after.(state := run.state, finishedAt := run.finishedAt, output := run.output, evidence := run.evidence, usage := run.usage) == run
              case Fail(code, now) => after == run.(state := Failed, finishedAt := Some(now), failureCode := TrimSpace(code))
              case Cancel(now) => after == run.(state := Cancelled, finishedAt := Some(now))
  {
    hide Blank, TrimSpace, Dedupe;
  }

  /** Output is accepted with a summary and claims that each say something and cite, and cite only what is accessible;
      the evidence is what the claims cite, each citation once, in the order of first mention. */
  lemma DeriveEffects(decode: string -> Decoded, raw: string, accessible: map<int, Citation>)
    ensures Derive(decode, raw, accessible).Ok? <==>
            && decode(raw).Decoded? && !Blank(decode(raw).output.summary) && decode(raw).output.claims != []
            && forall claim :: claim in decode(raw).output.claims ==>
                 && !Blank(claim.text) && claim.citations != []
                 && forall c :: c in claim.citations ==> c.chunkID in accessible && accessible[c.chunkID] == c
    ensures Derive(decode, raw, accessible) == Err(ErrSchema) <==>
            !decode(raw).Decoded? || Blank(decode(raw).output.summary) || decode(raw).output.claims == []
    ensures Derive(decode, raw, accessible) != Err(ErrInvalidRun)
    ensures Derive(decode, raw, accessible).Ok? ==>
              var evidence := Derive(decode, raw, accessible).value;
              && (forall c :: c in evidence <==> exists claim :: claim in decode(raw).output.claims && c in claim.citations)
              && (forall i, j :: 0 <= i < j < |evidence| ==> evidence[i] != evidence[j])
  {
    hide Blank;
    if decode(raw).Decoded? {
      CitationsOfClaims(decode(raw).output.claims);
      DedupeDistinct(AllCitations(decode(raw).output.claims));
    }
  }

  lemma {:induction false} DedupeDistinct(cs: seq<Citation>)
    ensures forall i, j :: 0 <= i < j < |Dedupe(cs)| ==> Dedupe(cs)[i] != Dedupe(cs)[j]
  {
    if cs != [] {
      DedupeDistinct(cs[..|cs| - 1]);
    }
  }

  /** Where a citation is first mentioned. */
  function FirstAt(cs: seq<Citation>, c: Citation): (i: nat)
    requires c in cs
    ensures i < |cs| && cs[i] == c && forall k :: 0 <= k < i ==> cs[k] != c
  {
    if cs[0] == c then 0 else 1 + FirstAt(cs[1..], c)
  }

  lemma FirstAtUnique(cs: seq<Citation>, c: Citation, i: nat)
    requires i < |cs| && cs[i] == c && forall k :: 0 <= k < i ==> cs[k] != c
    ensures FirstAt(cs, c) == i
  {
  }

  /** Evidence is in the order of first mention. */
  lemma {:induction false} DedupeOrder(cs: seq<Citation>, i: nat, j: nat)
    requires i < j < |Dedupe(cs)|
    ensures Dedupe(cs)[i] in cs && Dedupe(cs)[j] in cs && FirstAt(cs, Dedupe(cs)[i]) < FirstAt(cs, Dedupe(cs)[j])
  {
    var n := |cs| - 1;
    var front, d := cs[..n], Dedupe(cs);
    assert cs == front + [cs[n]];
    assert d[i] in d && d[j] in d;
    if j < |Dedupe(front)| {
      DedupeOrder(front, i, j);
      FirstInFront(cs, d[j]);
    } else {
      assert d[j] == cs[n] && forall k :: 0 <= k < n ==> cs[k] == front[k] && front[k] in front;
      FirstAtUnique(cs, d[j], n);
    }
    assert d[i] in front;
    FirstInFront(cs, d[i]);
  }

  lemma FirstInFront(cs: seq<Citation>, c: Citation)
    requires cs != [] && c in cs[..|cs| - 1]
    ensures c in cs && FirstAt(cs, c) == FirstAt(cs[..|cs| - 1], c)
  {
    var front := cs[..|cs| - 1];
    var k := FirstAt(front, c);
    assert forall m :: 0 <= m <= k ==> cs[m] == front[m];
    FirstAtUnique(cs, c, k);
  }

  predicate ParentValid(r: Run) { r.parentRunID.Some? ==> r.parentRunID.value > 0 && r.parentRunID.value != r.id }

  predicate TimesOrdered(r: Run) {
    && (r.startedAt.Some? ==> r.createdAt <= r.startedAt.value)
    && (r.finishedAt.Some? ==> r.startedAt.Some? && r.startedAt.value <= r.finishedAt.value)
  }

  /** What `ValidateForPersistence` decides, without its loop. */
  predicate Persistable(decode: string -> Decoded, r: Run) {
    && Identified(r) && ParentValid(r) && r.usage.Valid() && TimesOrdered(r)
    && match r.state
       case Queued => r.startedAt.None? && r.finishedAt.None? && r.output == "" && r.evidence == [] && r.failureCode == ""
       case Running => r.startedAt.Some? && r.finishedAt.None? && r.output == "" && r.evidence == [] && r.failureCode == ""
       case Succeeded =>
         && r.startedAt.Some? && r.finishedAt.Some? && r.output != "" && r.evidence != [] && r.failureCode == ""
         && (forall c :: c in r.evidence ==> WellFormed(c)) && OnePerChunk(r.evidence)
         && Derive(decode, r.output, Index(r.evidence)) == Ok(r.evidence)
       case Failed => r.startedAt.Some? && r.finishedAt.Some? && r.output == "" && r.evidence == [] && !Blank(r.failureCode)
       case Cancelled => r.startedAt.Some? && r.finishedAt.Some? && r.output == "" && r.evidence == [] && r.failureCode == ""
  }

  /** What the validator asks, spelled out. */
  lemma PersistableIs(decode: string -> Decoded, r: Run)
    ensures Persistable(decode, r) <==>
            && r.id > 0 && r.seriesID > 0 && r.projectID > 0 && r.requestedBy > 0 && r.cutoff != 0 && r.createdAt != 0
            && !Blank(r.kind) && !Blank(r.promptVersion) && !Blank(r.schemaVersion) && !Blank(r.retrievalVersion)
            && !Blank(r.provider) && !Blank(r.model) && !Blank(r.language)
            && (r.parentRunID.Some? ==> 0 < r.parentRunID.value != r.id)
            && r.usage.inputTokens >= 0 && r.usage.outputTokens >= 0 && r.usage.cost >= 0.0
            && (r.state != Queued <==> r.startedAt.Some?) && (r.startedAt.Some? ==> r.createdAt <= r.startedAt.value)
            && (r.state in {Succeeded, Failed, Cancelled} <==> r.finishedAt.Some?)
            && (r.startedAt.Some? && r.finishedAt.Some? ==> r.startedAt.value <= r.finishedAt.value)
            && (r.state == Failed ==> !Blank(r.failureCode)) && (r.state != Failed ==> r.failureCode == "")
            && (r.state != Succeeded ==> r.output == "" && r.evidence == [])
            && (r.state == Succeeded ==>
                  && r.output != "" && r.evidence != []
                  && (forall c :: c in r.evidence ==> c.snapshotID > 0 && c.chunkID > 0 && 0 <= c.start && c.start < c.end)
                  && (forall c, d :: c in r.evidence && d in r.evidence && c.chunkID == d.chunkID ==> c == d)
                  && Derive(decode, r.output, Index(r.evidence)) == Ok(r.evidence))
  {
    hide Blank, Derive, Index;
    match r.state
    case Queued =>
    case Running =>
    case Succeeded =>
    case Failed =>
    case Cancelled =>
  }

  method ValidateForPersistence(decode: string -> Decoded, r: Run) returns (ok: bool)
    ensures ok <==> Persistable(decode, r)
  {
    if !Identified(r) || !ParentValid(r) || !r.usage.Valid() || !TimesOrdered(r) { return false; }
    match r.state
    case Queued => return r.startedAt.None? && r.finishedAt.None? && r.output == "" && r.evidence == [] && r.failureCode == "";
    case Running => return r.startedAt.Some? && r.finishedAt.None? && r.output == "" && r.evidence == [] && r.failureCode == "";
    case Failed => return r.startedAt.Some? && r.finishedAt.Some? && r.output == "" && r.evidence == [] && !Blank(r.failureCode);
    case Cancelled => return r.startedAt.Some? && r.finishedAt.Some? && r.output == "" && r.evidence == [] && r.failureCode == "";
    case Succeeded =>
      if r.startedAt.None? || r.finishedAt.None? || r.output == "" || r.evidence == [] || r.failureCode != "" { return false; }
      var indexed, accessible := IndexEvidence(r.evidence);
      if !indexed { return false; }
      var derived := ValidateOutput(decode, r.output, accessible);
      return derived == Ok(r.evidence);
  }

  lemma IndexOne(cs: seq<Citation>, c: Citation)
    requires OnePerChunk(cs) && (c.chunkID in Index(cs) ==> Index(cs)[c.chunkID] == c)
    ensures OnePerChunk(cs + [c]) && Index(cs + [c]) == Index(cs)[c.chunkID := c]
  {
    assert (cs + [c])[..|cs|] == cs;
    forall d | d in cs && d.chunkID == c.chunkID ensures d == c { assert d.chunkID in Index(cs); }
  }

  /** The loop that rebuilds the accessible citations from the run's own evidence. */
  method IndexEvidence(cs: seq<Citation>) returns (ok: bool, accessible: map<int, Citation>)
    ensures ok <==> (forall c :: c in cs ==> WellFormed(c)) && OnePerChunk(cs)
    ensures ok ==> accessible == Index(cs)
  {
    accessible := map[];
    assert Index([]) == map[] && OnePerChunk([]);
    hide WellFormed, Index, OnePerChunk;
    for i := 0 to |cs|
      invariant accessible == Index(cs[..i]) && OnePerChunk(cs[..i])
      invariant forall c :: c in cs[..i] ==> WellFormed(c)
    {
      var c := cs[i];
      assert c in cs && cs[..i + 1] == cs[..i] + [c];
      if !WellFormed(c) { return false, accessible; }
      if c.chunkID in accessible && accessible[c.chunkID] != c {
        assert accessible[c.chunkID] in cs;
        Clash(cs, c, accessible[c.chunkID]);
        return false, accessible;
      }
      IndexOne(cs[..i], c);
      accessible := accessible[c.chunkID := c];
    }
    assert cs[..|cs|] == cs;
    return true, accessible;
  }

  lemma Clash(cs: seq<Citation>, c: Citation, d: Citation)
    requires c in cs && d in cs && c.chunkID == d.chunkID && c != d
    ensures !OnePerChunk(cs)
  {
  }

  // ----- reachable runs -----

  ghost predicate IsLifecycle(decode: string -> Decoded, runs: seq<Run>, steps: seq<Step>, value: Run) {
    && NewRun(value).Ok? && |runs| == |steps| + 1 && runs[0] == NewRun(value).value
    && forall i {:trigger steps[i]} :: 0 <= i < |steps| ==> Apply(decode, runs[i], steps[i]) == Ok(runs[i + 1])
  }

  lemma NewRunIdentified(value: Run)
    requires NewRun(value).Ok?
    ensures Identified(NewRun(value).value)
  {
    TrimSpaceIdempotent(value.provider);
    TrimSpaceIdempotent(value.model);
    TrimSpaceIdempotent(value.language);
  }

  predicate Finished(r: Run) {
    r.startedAt.Some? && r.finishedAt.Some? && r.createdAt <= r.startedAt.value <= r.finishedAt.value
  }

  predicate Empty(r: Run) { r.output == "" && r.evidence == [] }

  /** The invariant of the lifecycle: what a run of each state has gained, and what it still carries of the value
      from which it was made. */
  predicate Shaped(decode: string -> Decoded, value: Run, r: Run) {
    && Identified(r) && r.id == value.id && r.parentRunID == value.parentRunID
    && match r.state
       case Queued =>
         && Empty(r) && r.startedAt == value.startedAt && r.finishedAt == value.finishedAt
         && r.failureCode == value.failureCode && r.usage == value.usage
       case Running =>
         && Empty(r) && r.startedAt.Some? && r.createdAt <= r.startedAt.value && r.finishedAt == value.finishedAt
         && r.failureCode == value.failureCode && r.usage == value.usage
       case Succeeded =>
         && Finished(r) && r.output != "" && r.evidence != [] && r.usage.Valid() && r.failureCode == value.failureCode
         && OnePerChunk(r.evidence) && Derive(decode, r.output, Index(r.evidence)) == Ok(r.evidence)
       case Failed => Empty(r) && Finished(r) && !Blank(r.failureCode) && r.usage == value.usage
       case Cancelled => Empty(r) && Finished(r) && r.failureCode == value.failureCode && r.usage == value.usage
  }

  lemma StepKeeps(decode: string -> Decoded, value: Run, run: Run, step: Step)
    requires decode("").NotJson? && Shaped(decode, value, run) && Apply(decode, run, step).Ok?
    ensures Shaped(decode, value, Apply(decode, run, step).value)
  {
    hide Blank, Dedupe, Derive, Index;
    match step
    case Succeed(raw, accessible, usage, now) =>
      EvidenceReproduced(decode, raw, accessible);
      DecodableIsNotEmpty(decode, raw);
    case Fail(code, now) => TrimmedCode(code);
    case _ =>
  }

  lemma DecodableIsNotEmpty(decode: string -> Decoded, raw: string)
    requires decode("").NotJson? && !decode(raw).NotJson?
    ensures raw != ""
  {
  }

  lemma TrimmedCode(code: string)
    requires !Blank(code)
    ensures !Blank(TrimSpace(code))
  {
    TrimSpaceIdempotent(code);
  }

  lemma {:induction false} LifecycleShaped(decode: string -> Decoded, runs: seq<Run>, steps: seq<Step>, value: Run, k: nat)
    requires decode("").NotJson? && IsLifecycle(decode, runs, steps, value) && k < |runs|
    ensures Shaped(decode, value, runs[k])
  {
    hide Blank, TrimSpace;
    if k == 0 {
      NewRunIdentified(value);
    } else {
      LifecycleShaped(decode, runs, steps, value, k - 1);
      hide Shaped, Apply;
      var step := steps[k - 1];
      StepKeeps(decode, value, runs[k - 1], step);
    }
  }

  /** What the value handed to NewRun must not carry if its run is to be stored in the given state: the leftovers
      that no step on the way overwrites. */
  predicate Fit(value: Run, state: State) {
    match state
    case Queued => value.startedAt.None? && value.finishedAt.None? && value.failureCode == "" && value.usage.Valid()
    case Running => value.finishedAt.None? && value.failureCode == "" && value.usage.Valid()
    case Succeeded => value.failureCode == ""
    case Failed => value.usage.Valid()
    case Cancelled => value.failureCode == "" && value.usage.Valid()
  }

  /** Every run reachable from any value that NewRun accepts passes the validator exactly when that value had a valid
      parent and no leftovers for the state reached, and the citations are well formed; no transition checks these. */
  lemma ReachableRunsPersist(decode: string -> Decoded, runs: seq<Run>, steps: seq<Step>, value: Run, k: nat)
    requires decode("").NotJson? && IsLifecycle(decode, runs, steps, value) && k < |runs|
    ensures Persistable(decode, runs[k]) <==>
            ParentValid(value) && Fit(value, runs[k].state) && forall c :: c in runs[k].evidence ==> WellFormed(c)
  {
    LifecycleShaped(decode, runs, steps, value, k);
    ShapedPersists(decode, value, runs[k]);
  }

  lemma ShapedPersists(decode: string -> Decoded, value: Run, r: Run)
    requires Shaped(decode, value, r)
    ensures Persistable(decode, r) <==> ParentValid(value) && Fit(value, r.state) && forall c :: c in r.evidence ==> WellFormed(c)
  {
    hide Identified, Blank, Derive, Index, WellFormed;
    match r.state
    case Queued => assert forall c :: c in r.evidence ==> WellFormed(c);
    case Running => assert forall c :: c in r.evidence ==> WellFormed(c);
    case Succeeded => assert TimesOrdered(r);
    case Failed => assert TimesOrdered(r);
    case Cancelled => assert TimesOrdered(r);
  }

  /** With well-formed accessible citations nothing but the parent and a leftover failure code can keep a successful
      run from being stored. */
  lemma AccessibleEvidencePersists(decode: string -> Decoded, value: Run, run: Run, step: Step)
    requires decode("").NotJson? && Shaped(decode, value, run) && step.Succeed? && Apply(decode, run, step).Ok?
    requires forall id :: id in step.accessible ==> WellFormed(step.accessible[id])
    ensures Persistable(decode, Apply(decode, run, step).value) <==> ParentValid(value) && value.failureCode == ""
  {
    StepKeeps(decode, value, run, step);
    EvidenceReproduced(decode, step.raw, step.accessible);
    hide Derive, Dedupe, Index, Identified;
    var after := Apply(decode, run, step).value;
    forall c | c in after.evidence ensures WellFormed(c) { assert Accessible(c, step.accessible); }
  }

  /** A value that NewRun accepts although it carries an earlier start, which the validator then refuses. */
  lemma LeftoverRefused(decode: string -> Decoded)
    ensures exists value: Run ::
              && NewRun(value).Ok? && ParentValid(value) && value.startedAt.Some?
              && !Persistable(decode, NewRun(value).value)
  {
    var value := Run(1, 1, 1, None, "k", Queued, "p", "s", "r", "v", "m", "en", 1, "", 1, 1, Some(1), None, "", [], Usage(0, 0, 0.0), "");
    assert !Blank("k") && !Blank("p") && !Blank("s") && !Blank("r") && !Blank("v") && !Blank("m") && !Blank("en");
    assert NewRun(value).Ok? && NewRun(value).value.startedAt == Some(1);
  }
}
