/** Reciprocal-rank fusion with a top-k cut, and citations of its results (internal/knowledge/knowledge.go, Fuse and
    Cite); scores are real numbers. */
module Fusion {
  import opened Text
  import opened Sorting
  import opened Citations
  import C = Chunking

  type Chunk = C.Chunk

  datatype Candidate = Candidate(chunk: Chunk, lexicalRank: int, vectorRank: int)

  /** Cutoff 0 is the unset time. */
  datatype Filter = Filter(projectID: int, sourceIDs: seq<int>, cutoff: int)

  datatype Mode = Lexical | Vector

  datatype Fused = Fused(chunk: Chunk, score: real, modes: seq<Mode>)

  datatype Error = ErrInvalid | ErrNoEvidence

  predicate ValidRequest(filter: Filter, limit: int, rankConstant: int) {
    filter.projectID > 0 && filter.cutoff != 0 && 1 <= limit <= 100 && rankConstant >= 1
  }

  predicate Eligible(c: Candidate, filter: Filter) {
    && c.chunk.id > 0 && c.chunk.projectID == filter.projectID && c.chunk.current && c.chunk.observedAt <= filter.cutoff
    && (filter.sourceIDs == [] || c.chunk.sourceID in filter.sourceIDs)
  }

  function Reciprocal(rank: int, rankConstant: int): (r: real)
    requires rankConstant >= 1
    ensures r >= 0.0 && (r > 0.0 <==> rank > 0)
    ensures rank > 0 ==> r * (rankConstant + rank) as real == 1.0
  {
    if rank > 0 then 1.0 / (rankConstant + rank) as real else 0.0
  }

  /** A better rank counts for more. */
  lemma BetterRankScoresMore(rank: int, worse: int, rankConstant: int)
    requires rankConstant >= 1 && 0 < rank < worse
    ensures Reciprocal(rank, rankConstant) > Reciprocal(worse, rankConstant)
  {
    Inverses(Reciprocal(rank, rankConstant), Reciprocal(worse, rankConstant), (rankConstant + rank) as real, (rankConstant + worse) as real);
  }

  lemma Inverses(x: real, y: real, a: real, b: real)
    requires 0.0 < a < b && x > 0.0 && y > 0.0 && x * a == 1.0 && y * b == 1.0
    ensures x > y
  {
    assert x == x * (y * b) && y == y * (x * a);
    assert x - y == (x * y) * (b - a);
    assert (x * y) * (b - a) > 0.0;
  }

  function Contribution(c: Candidate, rankConstant: int): (r: real)
    requires rankConstant >= 1
    ensures r >= 0.0 && (r > 0.0 <==> c.lexicalRank > 0 || c.vectorRank > 0)
  {
    Reciprocal(c.lexicalRank, rankConstant) + Reciprocal(c.vectorRank, rankConstant)
  }

  // ----- the meaning of a fused list -----

  datatype Query = Query(filter: Filter, rankConstant: int) {
    predicate Matches(c: Candidate, id: int) { Eligible(c, filter) && c.chunk.id == id }
  }

  /** The sum of the reciprocal ranks of one chunk. */
  function ScoreOf(q: Query, candidates: seq<Candidate>, id: int): (r: real)
    requires q.rankConstant >= 1
    ensures r >= 0.0
  {
    if candidates == [] then 0.0
    else
      var c := candidates[|candidates| - 1];
      ScoreOf(q, candidates[..|candidates| - 1], id) + if q.Matches(c, id) then Contribution(c, q.rankConstant) else 0.0
  }

  /** The chunk that the last matching candidate carries. */
  function ChunkOf(q: Query, candidates: seq<Candidate>, id: int): (r: Option<Chunk>)
    ensures r.Some? ==> r.value.id == id && exists c :: c in candidates && q.Matches(c, id) && c.chunk == r.value
    ensures r.None? ==> forall c :: c in candidates ==> !q.Matches(c, id)
  {
    if candidates == [] then None
    else
      var c := candidates[|candidates| - 1];
      if q.Matches(c, id) then Some(c.chunk) else ChunkOf(q, candidates[..|candidates| - 1], id)
  }

  function AppendMode(modes: seq<Mode>, mode: Mode): (r: seq<Mode>)
    ensures forall m :: m in r <==> m in modes || m == mode
    ensures Distinct(modes) ==> Distinct(r)
  {
    if mode in modes then modes else modes + [mode]
  }

  function AddModes(modes: seq<Mode>, c: Candidate): (r: seq<Mode>) {
    var withLexical := if c.lexicalRank > 0 then AppendMode(modes, Lexical) else modes;
    if c.vectorRank > 0 then AppendMode(withLexical, Vector) else withLexical
  }

  function ModesOf(q: Query, candidates: seq<Candidate>, id: int): (r: seq<Mode>)
    ensures Distinct(r)
    ensures Lexical in r <==> exists c :: c in candidates && q.Matches(c, id) && c.lexicalRank > 0
    ensures Vector in r <==> exists c :: c in candidates && q.Matches(c, id) && c.vectorRank > 0
  {
    if candidates == [] then []
    else
      var c := candidates[|candidates| - 1];
      var modes := ModesOf(q, candidates[..|candidates| - 1], id);
      assert candidates == candidates[..|candidates| - 1] + [c];
      if q.Matches(c, id) then AddModes(modes, c) else modes
  }

  /** Higher score first, then lower source, then lower chunk ID. */
  predicate Before(a: Fused, b: Fused) {
    || a.score > b.score
    || (a.score == b.score && (a.chunk.sourceID < b.chunk.sourceID
                               || (a.chunk.sourceID == b.chunk.sourceID && a.chunk.id <= b.chunk.id)))
  }

  lemma BeforeTotal()
    ensures TotalPreorder(Before)
  {
  }

  ghost predicate IsEntry(q: Query, candidates: seq<Candidate>, x: Fused)
    requires q.rankConstant >= 1
  {
    && ScoreOf(q, candidates, x.chunk.id) > 0.0 && x.score == ScoreOf(q, candidates, x.chunk.id)
    && ChunkOf(q, candidates, x.chunk.id) == Some(x.chunk) && x.modes == ModesOf(q, candidates, x.chunk.id)
  }

  /** The full ranking: one entry for each chunk with a positive score, best first. */
  ghost predicate IsRanking(q: Query, candidates: seq<Candidate>, all: seq<Fused>)
    requires q.rankConstant >= 1
  {
    && Sorted(all, Before)
    && (forall i, j :: 0 <= i < j < |all| ==> all[i].chunk.id != all[j].chunk.id)
    && (forall x :: x in all ==> IsEntry(q, candidates, x))
    && (forall id :: ScoreOf(q, candidates, id) > 0.0 ==> exists x :: x in all && x.chunk.id == id)
  }

  function Take(all: seq<Fused>, limit: nat): (r: seq<Fused>) { if |all| > limit then all[..limit] else all }

  // ----- the algorithm -----

  /** One candidate folded into the per-chunk results. */
  method Accumulate(q: Query, ghost earlier: seq<Candidate>, byChunk: map<int, Fused>, c: Candidate) returns (r: map<int, Fused>)
    requires q.rankConstant >= 1 && Indexed(q, earlier, byChunk)
    ensures Indexed(q, earlier + [c], r)
  {
    hide ScoreOf, ChunkOf, ModesOf, Indexed;
    r := byChunk;
    if !Eligible(c, q.filter) {
      KeepIndexed(q, earlier, byChunk, c);
      return;
    }
    var id := c.chunk.id;
    var score, modes := 0.0, [];
    if id in byChunk { score, modes := byChunk[id].score, byChunk[id].modes; }
    if c.lexicalRank > 0 {
      score := score + 1.0 / (q.rankConstant + c.lexicalRank) as real;
      modes := AppendMode(modes, Lexical);
    }
    if c.vectorRank > 0 {
      score := score + 1.0 / (q.rankConstant + c.vectorRank) as real;
      modes := AppendMode(modes, Vector);
    }
    Entry(q, earlier, byChunk, id);
    assert score == (if id in byChunk then byChunk[id].score else 0.0) + Contribution(c, q.rankConstant);
    if score > 0.0 { r := byChunk[id := Fused(c.chunk, score, modes)]; }
    PutIndexed(q, earlier, byChunk, c, score, modes);
  }

  ghost predicate IndexedAt(q: Query, candidates: seq<Candidate>, byChunk: map<int, Fused>, id: int)
    requires q.rankConstant >= 1
  {
    && (id in byChunk <==> ScoreOf(q, candidates, id) > 0.0)
    && (id in byChunk ==> byChunk[id].chunk.id == id && IsEntry(q, candidates, byChunk[id]))
  }

  ghost predicate Indexed(q: Query, candidates: seq<Candidate>, byChunk: map<int, Fused>)
    requires q.rankConstant >= 1
  {
    forall id :: IndexedAt(q, candidates, byChunk, id)
  }

  lemma Entry(q: Query, candidates: seq<Candidate>, byChunk: map<int, Fused>, id: int)
    requires q.rankConstant >= 1 && Indexed(q, candidates, byChunk)
    ensures (if id in byChunk then byChunk[id].score else 0.0) == ScoreOf(q, candidates, id)
    ensures (if id in byChunk then byChunk[id].modes else []) == ModesOf(q, candidates, id)
  {
    assert IndexedAt(q, candidates, byChunk, id);
    if id !in byChunk { ZeroScore(q, candidates, id); }
  }

  lemma KeepIndexed(q: Query, earlier: seq<Candidate>, byChunk: map<int, Fused>, c: Candidate)
    requires q.rankConstant >= 1 && Indexed(q, earlier, byChunk) && !Eligible(c, q.filter)
    ensures Indexed(q, earlier + [c], byChunk)
  {
    hide ScoreOf, ChunkOf, ModesOf;
    forall id ensures IndexedAt(q, earlier + [c], byChunk, id) {
      AppendCandidate(q, earlier, c, id);
      assert IndexedAt(q, earlier, byChunk, id);
    }
  }

  lemma PutIndexed(q: Query, earlier: seq<Candidate>, byChunk: map<int, Fused>, c: Candidate, score: real, modes: seq<Mode>)
    requires q.rankConstant >= 1 && Indexed(q, earlier, byChunk) && Eligible(c, q.filter)
    requires score == ScoreOf(q, earlier, c.chunk.id) + Contribution(c, q.rankConstant)
    requires modes == AddModes(ModesOf(q, earlier, c.chunk.id), c)
    ensures Indexed(q, earlier + [c], if score > 0.0 then byChunk[c.chunk.id := Fused(c.chunk, score, modes)] else byChunk)
  {
    hide ScoreOf, ChunkOf, ModesOf, Contribution, AddModes;
    var r := if score > 0.0 then byChunk[c.chunk.id := Fused(c.chunk, score, modes)] else byChunk;
    forall id ensures IndexedAt(q, earlier + [c], r, id) {
      AppendCandidate(q, earlier, c, id);
      assert IndexedAt(q, earlier, byChunk, id);
    }
  }

  lemma AppendCandidate(q: Query, earlier: seq<Candidate>, c: Candidate, id: int)
    requires q.rankConstant >= 1
    ensures ScoreOf(q, earlier + [c], id) == ScoreOf(q, earlier, id) + if q.Matches(c, id) then Contribution(c, q.rankConstant) else 0.0
    ensures ChunkOf(q, earlier + [c], id) == if q.Matches(c, id) then Some(c.chunk) else ChunkOf(q, earlier, id)
    ensures ModesOf(q, earlier + [c], id) == if q.Matches(c, id) then AddModes(ModesOf(q, earlier, id), c) else ModesOf(q, earlier, id)
  {
    assert (earlier + [c])[..|earlier|] == earlier;
  }

  /** A chunk without score has no candidate with a rank, hence no mode. */
  lemma {:induction false} ZeroScore(q: Query, candidates: seq<Candidate>, id: int)
    requires q.rankConstant >= 1 && ScoreOf(q, candidates, id) <= 0.0
    ensures ModesOf(q, candidates, id) == []
  {
    if candidates != [] { ZeroScore(q, candidates[..|candidates| - 1], id); }
  }

  /** The score of one candidate: the reciprocals of its ranks, each shifted by the constant. */
  lemma ScoreOne(q: Query, c: Candidate, id: int)
    requires q.rankConstant >= 1
    ensures ScoreOf(q, [c], id) ==
            if c.chunk.id == id && Admissible(c, q.filter)
            then (if c.lexicalRank > 0 then 1.0 / (q.rankConstant + c.lexicalRank) as real else 0.0)
                 + (if c.vectorRank > 0 then 1.0 / (q.rankConstant + c.vectorRank) as real else 0.0)
            else 0.0
  {
    AdmissibleIff(c, q.filter);
    assert [c][..0] == [] && ScoreOf(q, [c][..0], id) == 0.0;
  }

  lemma AdmissibleIff(c: Candidate, filter: Filter)
    ensures Admissible(c, filter) <==> Eligible(c, filter)
  {
  }

  /** A numbered, current chunk of the project, observed by the cutoff, of a wanted source if any are named. */
  predicate Admissible(c: Candidate, filter: Filter) {
    && c.chunk.id > 0 && c.chunk.current && c.chunk.projectID == filter.projectID && c.chunk.observedAt <= filter.cutoff
    && (|filter.sourceIDs| > 0 ==> exists s :: s in filter.sourceIDs && s == c.chunk.sourceID)
  }

  predicate Ahead(x: Fused, y: Fused) {
    || x.score > y.score
    || (x.score == y.score && x.chunk.sourceID < y.chunk.sourceID)
    || (x.score == y.score && x.chunk.sourceID == y.chunk.sourceID && x.chunk.id < y.chunk.id)
  }

  ghost predicate FromCandidate(candidates: seq<Candidate>, filter: Filter, x: Fused) {
    exists c :: c in candidates && Admissible(c, filter) && c.chunk == x.chunk
  }

  ghost predicate Includes(r: seq<Fused>, id: int) { exists i :: 0 <= i < |r| && r[i].chunk.id == id }

  /** What a caller of Fuse gets: admissible chunks with a rank, best first, ties by source and then by chunk, at most
      `limit` of them, and fewer only when there are no more. */
  ghost predicate BestFirst(candidates: seq<Candidate>, filter: Filter, limit: int, r: seq<Fused>) {
    && |r| <= limit
    && (forall i, j :: 0 <= i < j < |r| ==> Ahead(r[i], r[j]))
    && (forall i :: 0 <= i < |r| ==> FromCandidate(candidates, filter, r[i]))
    && (|r| < limit ==>
          forall c :: c in candidates && Admissible(c, filter) && (c.lexicalRank > 0 || c.vectorRank > 0) ==> Includes(r, c.chunk.id))
  }

  lemma RankingIsBest(q: Query, candidates: seq<Candidate>, all: seq<Fused>, limit: nat)
    requires q.rankConstant >= 1 && IsRanking(q, candidates, all)
    ensures BestFirst(candidates, q.filter, limit, Take(all, limit))
  {
    var r := Take(all, limit);
    assert forall i :: 0 <= i < |r| ==> r[i] == all[i];
    hide ScoreOf, ChunkOf, ModesOf, IsEntry, Admissible;
    forall i | 0 <= i < |r| ensures FromCandidate(candidates, q.filter, r[i]) {
      assert all[i] in all;
      var c := EntryOf(q, candidates, all[i]);
    }
    forall i, j | 0 <= i < j < |r| ensures Ahead(r[i], r[j]) {
      assert r[i] == all[i] && r[j] == all[j] && Before(all[i], all[j]);
    }
    if |r| < limit {
      forall c | c in candidates && Admissible(c, q.filter) && (c.lexicalRank > 0 || c.vectorRank > 0)
        ensures Includes(r, c.chunk.id)
      {
        RankedScores(q, candidates, c);
        var x :| x in all && x.chunk.id == c.chunk.id;
        var i :| 0 <= i < |all| && all[i] == x;
        assert r[i] == all[i];
      }
    }
  }

  lemma EntryOf(q: Query, candidates: seq<Candidate>, x: Fused) returns (c: Candidate)
    requires q.rankConstant >= 1 && IsEntry(q, candidates, x)
    ensures c in candidates && Admissible(c, q.filter) && c.chunk == x.chunk
  {
    hide ScoreOf, ChunkOf, ModesOf;
    c :| c in candidates && q.Matches(c, x.chunk.id) && c.chunk == x.chunk;
    AdmissibleIff(c, q.filter);
  }

  lemma {:induction false} RankedScores(q: Query, candidates: seq<Candidate>, c: Candidate)
    requires q.rankConstant >= 1 && c in candidates && Admissible(c, q.filter) && (c.lexicalRank > 0 || c.vectorRank > 0)
    ensures ScoreOf(q, candidates, c.chunk.id) > 0.0
  {
    var n := |candidates| - 1;
    AdmissibleIff(c, q.filter);
    if candidates[n] != c {
      assert candidates == candidates[..n] + [candidates[n]];
      RankedScores(q, candidates[..n], c);
    }
  }

  /** `Fuse`: the best `limit` entries of the full ranking. */
  method Fuse(candidates: seq<Candidate>, filter: Filter, limit: int, rankConstant: int)
    returns (r: Result<seq<Fused>, Error>)
    ensures r.Ok? <==> filter.projectID > 0 && filter.cutoff != 0 && 1 <= limit <= 100 && rankConstant >= 1
    ensures r.Ok? ==> BestFirst(candidates, filter, limit, r.value)
    ensures r.Ok? ==> exists all :: IsRanking(Query(filter, rankConstant), candidates, all) && r.value == Take(all, limit)
  {
    if !ValidRequest(filter, limit, rankConstant) { return Err(ErrInvalid); }
    hide ScoreOf, ChunkOf, ModesOf;
    var q := Query(filter, rankConstant);
    var byChunk: map<int, Fused> := map[];
    NothingIndexed(q);
    for i := 0 to |candidates|
      invariant Indexed(q, candidates[..i], byChunk)
    {
      byChunk := Accumulate(q, candidates[..i], byChunk, candidates[i]);
      assert candidates[..i] + [candidates[i]] == candidates[..i + 1];
    }
    assert candidates[..|candidates|] == candidates;
    var ids := Elements(byChunk.Keys);
    var results: seq<Fused> := [];
    for i := 0 to |ids|
      invariant |results| == i && forall k :: 0 <= k < i ==> results[k] == byChunk[ids[k]]
    {
      results := results + [byChunk[ids[i]]];
    }
    Collected(q, candidates, byChunk, ids, results);
    BeforeTotal();
    ghost var collected := results;
    results := SortFunc(results, Before);
    Ranked(q, candidates, collected, results);
    ghost var all := results;
    RankingIsBest(q, candidates, all, limit);
    if |results| > limit { results := results[..limit]; }
    r := Ok(results);
  }

  lemma NothingIndexed(q: Query)
    requires q.rankConstant >= 1
    ensures Indexed(q, [], map[])
  {
    forall id ensures IndexedAt(q, [], map[], id) {}
  }

  /** Exactly the entries, each once, in no particular order. */
  ghost predicate IsCollection(q: Query, candidates: seq<Candidate>, results: seq<Fused>)
    requires q.rankConstant >= 1
  {
    && (forall i, j :: 0 <= i < j < |results| ==> results[i].chunk.id != results[j].chunk.id)
    && (forall x :: x in results ==> IsEntry(q, candidates, x))
    && (forall id :: ScoreOf(q, candidates, id) > 0.0 ==> exists x :: x in results && x.chunk.id == id)
  }

  lemma Collected(q: Query, candidates: seq<Candidate>, byChunk: map<int, Fused>, ids: seq<int>, results: seq<Fused>)
    requires q.rankConstant >= 1 && Indexed(q, candidates, byChunk)
    requires Distinct(ids) && (forall id :: id in ids <==> id in byChunk)
    requires |results| == |ids| && forall k :: 0 <= k < |ids| ==> ids[k] in byChunk && results[k] == byChunk[ids[k]]
    ensures IsCollection(q, candidates, results)
  {
    hide ScoreOf, ChunkOf, ModesOf;
    forall k | 0 <= k < |ids| ensures results[k].chunk.id == ids[k] && IsEntry(q, candidates, results[k]) {
      assert IndexedAt(q, candidates, byChunk, ids[k]);
    }
    forall id | ScoreOf(q, candidates, id) > 0.0 ensures exists x :: x in results && x.chunk.id == id {
      assert IndexedAt(q, candidates, byChunk, id);
      var k :| 0 <= k < |ids| && ids[k] == id;
      assert results[k] in results;
    }
  }

  lemma Ranked(q: Query, candidates: seq<Candidate>, results: seq<Fused>, all: seq<Fused>)
    requires q.rankConstant >= 1 && IsCollection(q, candidates, results)
    requires Sorted(all, Before) && multiset(all) == multiset(results)
    ensures IsRanking(q, candidates, all)
  {
    hide ScoreOf, ChunkOf, ModesOf, IsEntry;
    PermutationDistinct(results, all);
    forall i, j | 0 <= i < j < |all| ensures all[i].chunk.id != all[j].chunk.id {
      assert all[i] in results && all[j] in results && all[i] != all[j];
    }
  }

  // ----- what the cut keeps -----

  /** Every kept entry precedes every omitted one. */
  lemma KeptBeforeOmitted(all: seq<Fused>, limit: nat, x: Fused, y: Fused)
    requires Sorted(all, Before) && Distinct(all)
    requires x in Take(all, limit) && y in all && y !in Take(all, limit)
    ensures Before(x, y) && |Take(all, limit)| == limit
  {
    var kept := Take(all, limit);
    var i :| 0 <= i < |kept| && kept[i] == x;
    var j :| 0 <= j < |all| && all[j] == y;
    assert forall k :: 0 <= k < |kept| ==> kept[k] == all[k] && kept[k] in kept;
    assert |kept| <= j;
  }

  // ----- the order of the candidates -----

  lemma {:induction false} ScoreConcat(q: Query, a: seq<Candidate>, b: seq<Candidate>, id: int)
    requires q.rankConstant >= 1
    ensures ScoreOf(q, a + b, id) == ScoreOf(q, a, id) + ScoreOf(q, b, id)
  {
    hide Contribution;
    if b == [] {
      assert a + b == a;
    } else {
      assert (a + b)[..|a + b| - 1] == a + b[..|b| - 1];
      ScoreConcat(q, a, b[..|b| - 1], id);
    }
  }

  lemma {:induction false} ScorePermutes(q: Query, a: seq<Candidate>, b: seq<Candidate>, id: int)
    requires q.rankConstant >= 1 && multiset(a) == multiset(b)
    ensures ScoreOf(q, a, id) == ScoreOf(q, b, id)
  {
    if a == [] {
      assert |multiset(b)| == 0;
    } else {
      hide *;
      var i := HeadIn(a, b);
      ScorePermutes(q, a[1..], b[..i] + b[i + 1..], id);
      ScoreConcat(q, b[..i], b[i + 1..], id);
      ScoreConcat(q, b[..i], [b[i]] + b[i + 1..], id);
      ScoreConcat(q, [b[i]], b[i + 1..], id);
      ScoreConcat(q, [a[0]], a[1..], id);
      assert a == [a[0]] + a[1..] && b == b[..i] + ([b[i]] + b[i + 1..]);
    }
  }

  /** Eligible candidates with one chunk ID carry one chunk. */
  ghost predicate Consistent(q: Query, candidates: seq<Candidate>) {
    forall c, d, id :: c in candidates && d in candidates && q.Matches(c, id) && q.Matches(d, id) ==> c.chunk == d.chunk
  }

  lemma ChunkPermutes(q: Query, a: seq<Candidate>, b: seq<Candidate>, id: int)
    requires multiset(a) == multiset(b) && Consistent(q, a)
    ensures ChunkOf(q, a, id) == ChunkOf(q, b, id)
  {
    hide ChunkOf;
    forall c ensures c in a <==> c in b { assert c in a <==> c in multiset(a); assert c in b <==> c in multiset(b); }
  }

  function Bare(x: Fused): (r: Fused) { x.(modes := []) }

  function BareAll(all: seq<Fused>): (r: seq<Fused>)
    ensures |r| == |all| && forall i :: 0 <= i < |all| ==> r[i] == Bare(all[i])
  {
    seq(|all|, i requires 0 <= i < |all| => Bare(all[i]))
  }

  lemma SameEntries(q: Query, a: seq<Candidate>, b: seq<Candidate>, rankA: seq<Fused>, rankB: seq<Fused>, i: nat)
    requires q.rankConstant >= 1 && multiset(a) == multiset(b) && Consistent(q, a)
    requires IsRanking(q, a, rankA) && IsRanking(q, b, rankB) && i < |rankA|
    ensures Bare(rankA[i]) in BareAll(rankB)
  {
    hide ScoreOf, ChunkOf, ModesOf;
    var x := rankA[i];
    assert x in rankA && IsEntry(q, a, x);
    ScorePermutes(q, a, b, x.chunk.id);
    ChunkPermutes(q, a, b, x.chunk.id);
    var y :| y in rankB && y.chunk.id == x.chunk.id;
    assert IsEntry(q, b, y);
    var j :| 0 <= j < |rankB| && rankB[j] == y;
    assert BareAll(rankB)[j] == Bare(x);
  }

  /** Chunks, scores and their order do not depend on the order of the candidates. */
  lemma CandidateOrderIrrelevant(q: Query, a: seq<Candidate>, b: seq<Candidate>, rankA: seq<Fused>, rankB: seq<Fused>)
    requires q.rankConstant >= 1 && multiset(a) == multiset(b) && Consistent(q, a)
    requires IsRanking(q, a, rankA) && IsRanking(q, b, rankB)
    ensures |rankA| == |rankB|
    ensures forall i :: 0 <= i < |rankA| ==> rankA[i].chunk == rankB[i].chunk && rankA[i].score == rankB[i].score
  {
    hide ScoreOf, ChunkOf, ModesOf, IsEntry;
    var bareA, bareB := BareAll(rankA), BareAll(rankB);
    assert Consistent(q, b) by {
      forall c ensures c in a <==> c in b { assert c in a <==> c in multiset(a); assert c in b <==> c in multiset(b); }
    }
    forall x ensures x in bareA <==> x in bareB {
      if x in bareA {
        var i :| 0 <= i < |bareA| && bareA[i] == x;
        SameEntries(q, a, b, rankA, rankB, i);
      }
      if x in bareB {
        var i :| 0 <= i < |bareB| && bareB[i] == x;
        SameEntries(q, b, a, rankB, rankA, i);
      }
    }
    DistinctPermutation(bareA, bareB);
    BeforeTotal();
    BareSorted(rankA);
    BareSorted(rankB);
    forall x, y | x in bareA && y in bareA && Before(x, y) && Before(y, x) ensures x == y {
      var i :| 0 <= i < |bareA| && bareA[i] == x;
      var j :| 0 <= j < |bareA| && bareA[j] == y;
      assert rankA[i].chunk.id == rankA[j].chunk.id;
    }
    SortedUnique(bareA, bareB, Before);
    forall i | 0 <= i < |rankA| ensures rankA[i].chunk == rankB[i].chunk && rankA[i].score == rankB[i].score {
      assert bareA[i] == bareB[i];
    }
  }

  lemma BareSorted(all: seq<Fused>)
    requires Sorted(all, Before)
    ensures Sorted(BareAll(all), Before)
  {
    forall i, j | 0 <= i < j < |all| ensures Before(BareAll(all)[i], BareAll(all)[j]) { assert Before(all[i], all[j]); }
  }

  // ----- citations -----

  predicate Citable(c: Chunk) { c.snapshotID > 0 && c.id > 0 && 0 <= c.start < c.end }

  function CitationOf(c: Chunk): (r: Citation) { Citation(c.snapshotID, c.id, c.start, c.end) }

  /** `Cite`: all results or nothing; what it returns is well formed and names the chunks in their order. */
  method Cite(results: seq<Fused>) returns (r: Result<seq<Citation>, Error>)
    ensures r == Err(ErrNoEvidence) <==> results == []
    ensures r.Ok? <==> results != [] && forall i :: 0 <= i < |results| ==> Citable(results[i].chunk)
    ensures r.Ok? ==> |r.value| == |results| && forall i :: 0 <= i < |results| ==> r.value[i] == CitationOf(results[i].chunk)
    ensures r.Ok? ==> forall i :: 0 <= i < |results| ==>
              && r.value[i].snapshotID == results[i].chunk.snapshotID && r.value[i].chunkID == results[i].chunk.id
              && r.value[i].start == results[i].chunk.start && r.value[i].end == results[i].chunk.end
    ensures r.Ok? ==> forall c :: c in r.value ==> WellFormed(c)
  {
    if results == [] { return Err(ErrNoEvidence); }
    var values: seq<Citation> := [];
    for i := 0 to |results|
      invariant |values| == i && forall k :: 0 <= k < i ==> Citable(results[k].chunk) && values[k] == CitationOf(results[k].chunk)
    {
      if !Citable(results[i].chunk) { return Err(ErrInvalid); }
      values := values + [CitationOf(results[i].chunk)];
    }
    return Ok(values);
  }

  /** The chunk, once numbered, is one that ChunkText made of a text of that length. */
  predicate Numbered(c: Chunk, maxBytes: int, length: int) {
    C.WellFormed(c, maxBytes) && c.snapshotID > 0 && c.end <= length
  }

  /** Once numbered, every chunk that ChunkText made can be cited. */
  lemma ChunksAreCitable(chunks: seq<Chunk>, maxBytes: int, length: int, snapshot: C.Snapshot, parserVersion: string, ids: seq<int>)
    requires C.Placed(chunks, maxBytes, 0, length) && snapshot.id > 0 && |ids| == |chunks|
    requires forall i :: 0 <= i < |chunks| ==> C.From(chunks[i], snapshot, parserVersion) && ids[i] > 0
    ensures forall i :: 0 <= i < |chunks| ==>
              var c := chunks[i].(id := ids[i]); Numbered(c, maxBytes, length) && Citable(c) && CitationOf(c).end <= length
  {
    forall i | 0 <= i < |chunks| ensures Numbered(chunks[i].(id := ids[i]), maxBytes, length) {
      assert C.WellFormed(chunks[i], maxBytes) && C.From(chunks[i], snapshot, parserVersion);
    }
  }

  /** Retrieval never produces an uncitable result: whatever the cut keeps of numbered chunks can be cited. */
  lemma FusedAreCitable(q: Query, candidates: seq<Candidate>, all: seq<Fused>, limit: nat, maxBytes: int, length: int)
    requires q.rankConstant >= 1 && IsRanking(q, candidates, all)
    requires forall c :: c in candidates && Eligible(c, q.filter) ==> Numbered(c.chunk, maxBytes, length)
    ensures forall x :: x in Take(all, limit) ==> Citable(x.chunk)
  {
    hide ScoreOf, ModesOf;
    forall x | x in Take(all, limit) ensures Citable(x.chunk) {
      assert x in all && IsEntry(q, candidates, x);
      var c :| c in candidates && q.Matches(c, x.chunk.id) && c.chunk == x.chunk;
    }
  }
}
