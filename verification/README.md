# Verified core of the Open Source Project Intelligence service

The service collects public data about open-source projects, turns it into deterministic analyses and lets an
assistant propose changes that a person confirms. This project models, in Dafny 4.11, the algorithms and the small
concurrent protocols on which the trustworthiness of that service rests, and proves what each of them is for:

- **Topics and crawling.** Topic candidates are exactly the connected components of the mutual-neighbour graph. The
  documentation crawl is a breadth-first search over a possibly infinite link graph that ends, stays within its budget
  and reports shortest distances; on success it returned exactly what lies within the depth limit, every failure is
  a cancellation or the fault of one particular URL while everything nearer was done, and success has an exact condition.
- **The assistant's confirmation protocol.** In every interleaving of any number of calls, a proposal is executed at
  most once, by the right actor and on the state it was proposed for; its stored outcome is the truth, up to a
  lost acknowledgement, and never changes. The in-memory store grants no execution that the PostgreSQL store refuses, and
  refuses one that it grants exactly after a late call by the owner; in stamp order they grant the same.
- **Text and retrieval.** Chunking UTF-8 text (section 3 of RFC 3629) neither loses nor repeats content, each chunk
  quotes its own section verbatim, and the text leaves no choice of chunks; rank fusion
  returns the best results of a total order; its results can always be cited.
- **Robust statistics.** Theil-Sen slope and Mann-Kendall consistency never contradict each other, with the exact
  threshold from which the zero-slope branch is dead; the backlog change telescopes over windows; the top-three share is
  maximal.
- **Identifiers, leases and once-only handling.** Snowflake identifiers increase and do not collide, with the exact
  condition for handing a node over; jobs are fenced by their leases; page collection skips nothing; the idempotency
  cache runs a handler once; the pruned rate limiter decides like one that forgets nothing.
- **Aggregates.** Every reachable analysis run passes the persistence validator exactly when its citations and parent
  are well formed and the value it was made from carried no leftovers; every reachable project has one primary repository.

`dafny verify dfyconfig.toml` checks everything.

## How the model is built

There is one module for each component. Code that updates fields is a class, a loop is a loop, and each method is tied
by its postcondition to a function or a property of its inputs, about which the lemmas speak. Concurrent code is a state
machine: an action is one atomic access (a critical section under the mutex, a transaction, a clock reading), a run is a
sequence of states linked by enabled actions, and the theorems hold for all runs.

Abstractions used throughout:

- `float64` is `real`: rounding, NaN and infinities are not part of the model. Floating-point addition is not
  associative, so order-independence of sums (`Fusion.ScorePermutes`) is a statement about exact arithmetic.
- `time.Time` is an integer instant, with 0 for the unset time where the source tests for it; time zones are gone.
- `int`, `int64` and `uint16` are unbounded integers; the packed identifier is proved to fit 63 bits.
- `slices.SortFunc` and `slices.Sort` are `Sorting.SortFunc`, which promises an ordered permutation and no stability;
  iteration over a map is `Sorting.Elements`, which promises no order.
- Digests, tokens and HTTP responses are opaque values compared for equality; JSON decoding is an arbitrary partial
  function under which the empty text is not JSON.
- The clock, the network, URL validation, robots answers, the lease service and identifiers handed out elsewhere are
  parameters, so the results hold for whatever they answer.

## Findings

- Snowflake (internal/platform/id/snowflake.go:116): leases expire at a finer grain than a millisecond, so exclusive leases do not
  alone make identifiers unique. `Snowflake.HandoverSafeIff` gives the exact condition.
- Issue collection (internal/worker/runner.go:296): pages are counted after pull requests were dropped, so one pull request on a full page
  ends the collection early. `Collection.IssuesCompleteIff` gives the exact condition, `Collection.IssuesCanStopEarly`
  an instance.
- Backlog change (internal/issue/issue.go:49): two events of one issue at one instant that disagree make the result depend on an unstable
  sort. `Backlog.DeterminedIff` shows that nothing else does.
- Trend (internal/trend/trend.go:109-111): over all definitions that carry a threshold, the zero-slope branch is
  dead exactly when the threshold is at least one half (`Trend.HalfIsExact`); a definition with a low cap on its points can
  make it dead below that too. The published definition uses 0.6. Agreement of the published direction with both methods needs no such bound.
- Proposal stores (internal/analysis/agent/memory_store.go:66): the in-memory store marks a proposal expired before it looks at the token, the table
  looks at the token first. `Confirm` reads the clock before it reaches the store, so a call in time can be overtaken by a
  late one with a wrong token; then the table still grants it and the in-memory store does not, on a clock that only goes
  forward (`Confirmation.OverlappingCalls`). `StoreAgreement.GrantsExactly` shows that nothing else makes their grants differ. The
  in-memory store also repeats a finished outcome to its owner without the token (`StoreAgreement.ReplayNeedsToken`).
- Confirmation (internal/platform/assistantstore/store.go:277): a commit that takes effect but reports an error leaves its proposal recorded as failed
  (`Confirmation.LostAcknowledgement`).
- Chunk offsets (internal/knowledge/knowledge.go:152): they count from the heading line and ignore trimming, so the text between them need not be the
  chunk's (`Offsets.OffsetsMislead`). `Quoting.PieceIsQuoted` says by how much it is displaced, `Layout.ShiftZeroIff` when not at
  all, and `Offsets.OffsetsNeverExact` that below a heading line the first chunk never is.
- Project (internal/project/project.go:204): the methods have value receivers and edit the shared slice, so the value a caller called them on is left
  invalid, exactly when a primary was attached or a repository detached (`Projects.CallerValueValidIff`).
- Run (internal/analysis/run.go:87): `NewRun` does not clear an earlier start, finish, failure code or usage and does not check the parent, so a run can
  be refused by the validator (`AnalysisRun.LeftoverRefused`); `AnalysisRun.ReachableRunsPersist` says exactly which leftovers
  matter in which state.

## Model

| member | source | states |
|---|---|---|
| `Topic.Candidates` | internal/topic/topic.go:33-86 | succeeds exactly for a positive project, 1 <= k <= 100, a version that is not blank and neighbours with positive distinct issues, a rank from 1 to k and a similarity from 0 to 1; the member lists are then the connected components of at least two issues of the mutual graph, all of them, each strictly ascending, the one with the smaller first member first |
| `Text.TrimSpaceIs` | internal/topic/topic.go:34-34 | trimming takes away the white space at the ends, all of it and nothing else |
| `Text.BlankIff` | internal/topic/topic.go:34-34 | a text is blank if and only if it is white space alone |
| `Topic.BuildAdjacency` | internal/topic/topic.go:48-54 | for every iteration order, the adjacency lists hold exactly the mutual edges, without repetition |
| `Topic.Search` | internal/topic/topic.go:66-80 | the explicit-stack search visits exactly the connection class of its root, each issue once, and nothing visited before |
| `Topic.Component` | internal/topic/topic.go:66-82 | one candidate's members are a whole component, ascending, of at least two issues |
| `Topic.Sweep` | internal/topic/topic.go:60-83 | the sweep over all nodes finds disjoint components that cover every issue with a mutual edge |
| `Topic.CompareMembers` | internal/topic/topic.go:88-104 | negative if and only if the lists agree up to a place where the left one ends or has the smaller member, positive in the mirrored case |
| `Topic.CompareOrders` | internal/topic/topic.go:88-104 | the comparison is antisymmetric, transitive and 0 only on equal lists |
| `Topic.ComponentsUnique` | internal/topic/topic.go:33-86 | a graph has only one list of components, so neither stack order nor map order can show |
| `Topic.CandidatesDetermined` | internal/topic/topic.go:33-86 | lists with the same neighbours, in any order and with any repetition, have the same candidates |
| `Topic.ComponentsDisjoint` | internal/topic/topic.go:62-83 | no issue belongs to two candidates |
| `Topic.FirstDecides` | internal/topic/topic.go:84-104 | candidates come in the order of their smallest members |
| `Topic.MutualPairs` | internal/topic/topic.go:44-54 | issues that list each other are in one candidate, and every member is listed by another member that it lists |
| `Crawler.Budget.Accept` | internal/knowledge/knowledge.go:50-68 | a malformed call changes nothing; every other call is accounted for before it is judged, and is accepted exactly when all limits still hold |
| `Crawler.Site.Validate` | internal/platform/crawler/crawler.go:106-109 | accepts a URL if and only if it resolves and its host is in scope, and answers the resolved text with its own host |
| `Crawler.Site.ReadPage` | internal/platform/crawler/crawler.go:178-197 | succeeds if and only if the server answers with a success status and a readable body within the limit; the page has that body, and the anchors of the answer as links if and only if its media type is text/html |
| `Crawler.Site.MediaTypeIs` | internal/platform/crawler/crawler.go:183-183 | the media type is what stands before the first semicolon, without the white space around it, in lower case |
| `Crawler.Fetch` | internal/platform/crawler/crawler.go:115-147 | a fetched page was allowed by robots, served, is of an allowed host and accounted for within every limit; an error names its reason |
| `Crawler.Step` | internal/platform/crawler/crawler.go:100-155 | one turn keeps distinct URLs, limits, scope, shortest depths, breadth-first order, the two-level queue and its coverage, and consumes a page or a queue entry; an error adds no page and is justified |
| `Crawler.NearerFetched` | internal/platform/crawler/crawler.go:91-155 | while everything queued is at depth d or deeper, every chain of fewer than d links has been fetched to its end |
| `Crawler.HeadDistance` | internal/platform/crawler/crawler.go:104-114 | the unseen URL at the head of the queue is at its shortest link distance |
| `Crawler.Visit` | internal/platform/crawler/crawler.go:91-156 | the loop ends on every link graph; the returned pages have distinct URLs of allowed hosts, respect page, byte, size, domain, type and depth limits, carry shortest distances and are a prefix of a breadth-first order even on errors; failure is a cancellation or the fault of a URL within the depth limit while everything nearer was fetched; unless cancelled, the crawl succeeds if and only if a complete page list within the limits exists |
| `Crawler.SuccessIsBall` | internal/platform/crawler/crawler.go:100-156 | a successful crawl fetched exactly the URLs within the depth limit |
| `Crawler.AllFollowed` | internal/platform/crawler/crawler.go:149-154 | on success every anchor of a returned HTML page above the depth limit leads to a returned page |
| `Crawler.ParentOf` | internal/platform/crawler/crawler.go:149-154 | every page below the roots is the target of an anchor of a returned HTML page one level up |
| `Crawler.HealthyNeverStops` | internal/platform/crawler/crawler.go:100-156 | when everything within the depth limit is served and fits, no URL can stop the crawl |
| `Crawler.AchievableNeverStops` | internal/platform/crawler/crawler.go:100-156 | where a page list exists that is complete, distinct, as served and within every limit, no URL can stop the crawl |
| `Crawler.PartOfFull` | internal/knowledge/knowledge.go:58-66 | distinct pages that all occur in a full list take up no more of the budget than the list |
| `Crawler.CrawlPolicy` | internal/platform/crawler/crawler.go:162-176 | succeeds if and only if every root is accepted; the hosts of the roots then become the only allowed ones |
| `Crawler.Crawl` | internal/platform/crawler/crawler.go:49-157 | all of the above for the whole call, with the exact condition of success, and no page outside the hosts of the roots |
| `Assistant.MemoryStore.Create` | internal/analysis/agent/memory_store.go:33-47 | stores a new proposal, or returns the earlier one for the same key and digest, or refuses a reused key |
| `Assistant.MemoryStore.Begin` | internal/analysis/agent/memory_store.go:49-79 | answer and new record, with every other record untouched |
| `Assistant.MemoryStore.Finish` | internal/analysis/agent/memory_store.go:81-98 | completes an executing proposal and nothing else |
| `Assistant.PostgresStore.Create` | internal/platform/assistantstore/store.go:63-120 | the same for the table, which also refuses a second row for one ID |
| `Assistant.PostgresStore.Begin` | internal/platform/assistantstore/store.go:122-173 | answer and new row of the transaction, with its own order of checks |
| `Assistant.PostgresStore.Finish` | internal/platform/assistantstore/store.go:175-195 | the conditional update: only an executing proposal is completed |
| `Assistant.MemoryAnswers` | internal/analysis/agent/memory_store.go:57-78 | for each answer of Begin the exact condition on owner, key, state, time and token |
| `Assistant.PostgresAnswers` | internal/platform/assistantstore/store.go:136-172 | the same for the table, with its own order of precedence |
| `StoreAgreement.BeginRelated` | internal/analysis/agent/memory_store.go:49-79 | on related records the memory store grants nothing that the table refuses, and refuses what the table grants exactly after a late call; related records result |
| `StoreAgreement.RunsRelated` | internal/platform/assistantstore/store.go:63-195 | after every run, whatever its clock stamps, the two stores are equal except where a late call expired a proposal in memory that the table went on listing as awaiting |
| `StoreAgreement.GrantsExactly` | internal/platform/assistantstore/store.go:122-173 | for every run: what the memory store grants the table grants too, with the same proposal; what the table grants the memory store grants if and only if no earlier call by the owner was stamped at or after expiry; the memory store's replays are the table's for the right token; the table's replays are the memory store's if and only if no such call preceded the table's grant |
| `StoreAgreement.OutrunIff` | internal/platform/assistantstore/store.go:122-173 | the table holds a proposal granted that the memory store holds expired, if and only if a late call preceded the table's grant |
| `StoreAgreement.GrantsAgree` | internal/platform/assistantstore/store.go:122-173 | corollary: when calls reach the stores in the order of their stamps, both grant exactly the same calls, and the table replays exactly what the memory store replays to a caller with the token |
| `StoreAgreement.ReplayNeedsToken` | internal/platform/assistantstore/store.go:142-151 | without the token the stores can disagree on a replay |
| `Confirmation.OverlappingCalls` | internal/analysis/agent/service.go:236-241 | on a forward clock, a call overtaken between reading the clock and reaching the store is granted by the table and refused by the memory store |
| `Confirmation.BeginContract` | internal/platform/assistantstore/store.go:122-173 | for either store, a grant needs the owner, the token, an awaiting proposal and time left; a refusal changes nothing but the expiry mark |
| `Confirmation.BeginGrantsIff` | internal/analysis/agent/memory_store.go:57-78 | either store grants if and only if the owner, with the token and before expiry, confirms an awaiting proposal not yet confirmed; key and time are then recorded |
| `Confirmation.RecheckIff` | internal/analysis/agent/service.go:245-261 | the re-check passes if and only if the project can be read and is active, at the proposed version and within quota, and names the first reason otherwise |
| `Confirmation.ConfirmSucceeds` | internal/analysis/agent/service.go:224-268 | a confirmation in time of a proposal whose project is as proposed is granted, executed and returned: the repository is added and its identifiers are the recorded result |
| `Confirmation.ProposalStored` | internal/analysis/agent/memory_store.go:44-46 | a new proposal is stored under its ID, unconfirmed, and nothing else changes |
| `Confirmation.FinishContract` | internal/platform/assistantstore/store.go:175-195 | for either store, completion succeeds exactly on an executing proposal and records status and result |
| `Confirmation.StepSafe` | internal/analysis/agent/service.go:224-268 | every action of every caller keeps the safety invariant: one holder per proposal, entitled holders, justified and distinct executions, unrepeated commits |
| `Confirmation.StepTruthful` | internal/analysis/agent/service.go:262-267 | every action keeps stored and pending outcomes true to what was committed |
| `Confirmation.EveryStateSafe` | internal/analysis/agent/service.go:224-268 | both invariants hold in every state of every interleaving |
| `Confirmation.ExecutedAtMostOnce` | internal/analysis/agent/service.go:224-268 | AddRepository is invoked at most once per proposal, only for its actor and token, before expiry and at an unchanged actor version; no project version is committed against twice |
| `Confirmation.ExecutionWasChecked` | internal/analysis/agent/service.go:249-262 | before an invocation, and during that call, the project was seen active, at the proposed version and with quota left |
| `Confirmation.OutcomeIsTruth` | internal/analysis/agent/service.go:242-267 | an executed proposal committed the repository of its result; an expired or unconfirmed one committed nothing; a failed one committed something only if the acknowledgement was lost; nothing is committed twice for one proposal |
| `Confirmation.LostAcknowledgement` | internal/platform/assistantstore/store.go:277-280 | a change that was made is recorded as a failure if and only if the acknowledgement of its commit was lost |
| `Confirmation.TerminalForever` | internal/analysis/agent/memory_store.go:60-98 | a terminal proposal is the same in every later state |
| `Confirmation.OneOutcome` | internal/analysis/agent/service.go:237-241 | all successful replies about one proposal, first or replayed, are equal and are what the store keeps |
| `Confirmation.SameKeyReplays` | internal/analysis/agent/service.go:237-241 | the owner with the same key and token gets the stored outcome, without another execution |
| `Confirmation.CommitOnProposedVersion` | internal/platform/assistantstore/store.go:226-259 | a commit meets the very version the proposal names, advances it by one and stays within the quota |
| `Catalog.AddRepositoryKeeps` | internal/platform/assistantstore/store.go:197-281 | an add is committed if and only if URL, role, database, project, state, version and quota allow it; it keeps exactly one primary, at most 20 repositories and every other project, turns a former primary into a core repository and appends the requested one under its canonical URL |
| `Catalog.AddRepositoryErrors` | internal/platform/assistantstore/store.go:203-243 | for each refusal its exact condition, the first of several reasons |
| `Statistics.ComputeMedian` | internal/metric/metric.go:201-212 | the middle of the sorted values, or the mean of the two middle ones, whatever the sort does with ties |
| `Statistics.MajorityAbove` | internal/metric/metric.go:201-212 | if values above t outnumber those below by half of all, the median exceeds t |
| `Statistics.MedianAbove` | internal/metric/metric.go:201-212 | a median above t has at least half the values above t and no more below than above |
| `Statistics.MedianAffine` | internal/metric/metric.go:201-212 | the median follows every affine change, also an order-reversing one |
| `Statistics.MedianZero` | internal/metric/metric.go:201-212 | nonnegative values of which fewer than half are positive have median 0 |
| `Trend.TheilSen` | internal/trend/trend.go:115-130 | the nested loops compute the median slope over all pairs with elapsed time |
| `Trend.AppendRow` | internal/trend/trend.go:121-126 | the inner loop collects the slopes of one point to all later ones |
| `Trend.MannKendallConsistency` | internal/trend/trend.go:132-149 | the loops compute the absolute share of rising minus falling pairs |
| `Trend.CheckPoints` | internal/trend/trend.go:86-94 | accepts exactly strictly chronological samples inside the windows and collects their evidence |
| `Trend.CalculateObserved` | internal/trend/trend.go:67-113 | succeeds exactly on valid identity, definition, windows and samples; below the minimum it publishes insufficient data and no magnitude; otherwise the slope, as increase or decrease if and only if the consistency reaches the threshold and the slope has that sign, and stable otherwise; with the counts and the evidence |
| `Trend.Observe` | internal/trend/trend.go:95-112 | the tail of the call computes what is published |
| `Trend.AcceptedPoints` | internal/trend/trend.go:86-90 | samples are accepted if and only if all lie in the windows and no two share an instant |
| `Trend.EvidenceConcat` | internal/trend/trend.go:91-93 | the evidence is that of the samples in turn, without those that have none |
| `Trend.SlopePerDay` | internal/trend/trend.go:122-124 | slopes are per day of 24 hours |
| `Trend.HalfForcesSlope` | internal/trend/trend.go:99-149 | a consistency of at least one half forces a nonzero slope with the sign of the pair score |
| `Trend.SlopeAgreesWithScore` | internal/trend/trend.go:115-149 | a nonzero slope never contradicts the pair score |
| `Trend.PublishedDirectionAgrees` | internal/trend/trend.go:99-111 | for every positive threshold, a published increase or decrease agrees with both methods |
| `Trend.ConsistentMeansDirected` | internal/trend/trend.go:102-111 | from one half on, a consistent series is published with the direction of its score |
| `Trend.BelowHalfZeroSlope` | internal/trend/trend.go:109-111 | below one half, arbitrarily long series pass the test with slope 0 |
| `Trend.HalfIsExact` | internal/trend/trend.go:102-111 | no call under any definition with a threshold reaches the zero-slope branch if and only if the threshold is at least one half, or not one that a definition may carry |
| `Trend.ZeroSlopeCall` | internal/trend/trend.go:67-111 | for every threshold below one half, a valid call with as many samples as one likes that reaches the branch |
| `Trend.TrendTransforms` | internal/trend/trend.go:99-149 | scaling and shifting scales the slope and keeps the consistency; a negative factor swaps increase and decrease |
| `Trend.LineRecovered` | internal/trend/trend.go:115-130 | samples on a line return its slope |
| `Trend.ConsistencyBounds` | internal/trend/trend.go:132-149 | consistency lies in [0, 1] and is 1 exactly for strictly monotone values |
| `Trend.InputOrderIrrelevant` | internal/trend/trend.go:79-94 | acceptance and the published series do not depend on the order of the samples |
| `Utf8.ValidCut` | internal/knowledge/knowledge.go:140-148 | cutting valid text in front of a start byte leaves two valid texts |
| `Utf8.StartNearby` | internal/knowledge/knowledge.go:142-144 | every position of valid text is at most three bytes behind a start byte |
| `Utf8.TrimKeeps` | internal/knowledge/knowledge.go:139-148 | trimming keeps validity and loses nothing but white space |
| `Utf8.TrimThorough` | internal/knowledge/knowledge.go:139-148 | no white space is left at either end |
| `Utf8.TrimIsSlice` | internal/knowledge/knowledge.go:139-148 | the trimmed text is a stretch of the text right behind the white space in front |
| `Unicode.ValidIff` | internal/knowledge/knowledge.go:109-109 | text is valid if and only if it encodes Unicode scalar values (section 3 of RFC 3629) |
| `Unicode.SpaceEncoded` | internal/knowledge/knowledge.go:120-148 | a character is white space in bytes if and only if it is as a character |
| `Unicode.StripEncoded` | internal/knowledge/knowledge.go:120-148 | stripping bytes deletes exactly the characters that are white space |
| `Unicode.TrimmedEnds` | internal/knowledge/knowledge.go:139-148 | trimmed text is text whose first and last characters are not white space |
| `Layout.LinesOf` | internal/knowledge/knowledge.go:119-133 | the lines are valid text without newlines and, with separators, take up the whole input |
| `Layout.LineStands` | internal/knowledge/knowledge.go:119-133 | each line stands in the input where the running offset says |
| `Layout.OneSection` | internal/knowledge/knowledge.go:121-125 | a nonempty interval lies in one section only |
| `Layout.HeadingIs` | internal/knowledge/knowledge.go:120-125 | the heading of a line is what follows its hashes, all of them, without the white space around it |
| `Layout.UsualHeading` | internal/knowledge/knowledge.go:120-125 | hashes, a space and a title give that title |
| `Layout.TrimmedStands` | internal/knowledge/knowledge.go:139-139 | a trimmed stretch of lines is a stretch of the input that begins at the first byte that is not white space and ends within the lines |
| `Layout.ShiftZeroIff` | internal/knowledge/knowledge.go:125-153 | the text of a section stands at its offsets if and only if it precedes every heading line and the input does not begin with white space |
| `Chunking.TakeLine` | internal/knowledge/knowledge.go:119-133 | one line keeps the sections disjoint and complete; the closed ones are those of the heading lines so far, with their text |
| `Chunking.Sections` | internal/knowledge/knowledge.go:112-136 | the sections hold exactly the lines that are not headings, in disjoint increasing intervals; each has the heading, the beginning and the text of a heading line's section, and no section with text is missing |
| `Chunking.PartEnd` | internal/knowledge/knowledge.go:141-147 | the rune-safe end always advances and is the farthest place within maxBytes where the body ends or a character starts, so the no-progress error is unreachable |
| `Chunking.ChunkSection` | internal/knowledge/knowledge.go:138-157 | the chunks of a section are exactly the parts of its tiling that are not blank, in order, with heading and provenance, and hold its whole text |
| `Chunking.ChunkSections` | internal/knowledge/knowledge.go:137-158 | the chunks are exactly the parts of all sections that are not blank, in disjoint increasing intervals |
| `Chunking.ChunkText` | internal/knowledge/knowledge.go:108-160 | succeeds exactly on valid input; the chunks are exactly the nonblank parts of the sections of the text, cut as far as maxBytes allows without splitting a character, trimmed, valid, with heading, offsets and provenance, in ordered disjoint intervals; their content is that of the lines that are not headings, without loss or repetition |
| `Chunking.ContentIsStrippedJoin` | internal/knowledge/knowledge.go:137-159 | stripping chunk by chunk is stripping the concatenated chunks |
| `Tiling.TilingUnique` | internal/knowledge/knowledge.go:140-157 | a text has only one tiling into parts that take as much as the limit allows |
| `Tiling.PlainCut` | internal/knowledge/knowledge.go:141-144 | in text of single-byte characters a cut is as far as the limit allows |
| `Tiling.NearlyFull` | internal/knowledge/knowledge.go:141-144 | in any text it falls short of the limit by less than a character |
| `Quoting.PieceIsQuoted` | internal/knowledge/knowledge.go:138-157 | a part quotes a verbatim stretch of the input below its heading line and before the next, at a distance fixed for its section |
| `Quoting.ChunksAreQuoted` | internal/knowledge/knowledge.go:108-160 | every chunk of ChunkText quotes the input in its own section |
| `Quoting.ChunkHeading` | internal/knowledge/knowledge.go:125-154 | a chunk carries no heading before the first heading line, and below one the title of that line |
| `Quoting.ChunksDetermined` | internal/knowledge/knowledge.go:108-160 | the contract of ChunkText has one solution for each text |
| `Offsets.OffsetsExact` | internal/knowledge/knowledge.go:150-154 | before every heading, in input that does not begin with white space, a chunk is the trimmed text between its offsets |
| `Offsets.OffsetsNeverExact` | internal/knowledge/knowledge.go:125-153 | the first chunk below a heading line never is the trimmed text between its offsets, which begins with the heading mark |
| `Offsets.OffsetsMislead` | internal/knowledge/knowledge.go:125-153 | an input whose one chunk is not the text between its offsets |
| `Fusion.Accumulate` | internal/knowledge/knowledge.go:186-205 | one candidate extends the per-chunk score, modes and chunk exactly when it is eligible |
| `Fusion.Fuse` | internal/knowledge/knowledge.go:181-235 | succeeds exactly on a project, a cutoff, a limit from 1 to 100 and a positive constant; returns the first `limit` of the full ranking: admissible chunks with a positive rank, scored with the sum of their reciprocal ranks, by score, then source, then chunk, and fewer than `limit` only when there are no more |
| `Fusion.ScoreOne` | internal/knowledge/knowledge.go:192-204 | the score of one candidate: the reciprocals of its ranks, each shifted by the constant |
| `Fusion.BetterRankScoresMore` | internal/knowledge/knowledge.go:194-201 | a better rank counts for more |
| `Fusion.ModesOf` | internal/knowledge/knowledge.go:194-201 | the modes are distinct and are exactly those in which an eligible candidate has a rank |
| `Fusion.KeptBeforeOmitted` | internal/knowledge/knowledge.go:231-233 | every kept entry precedes every omitted one, and something is omitted only by a full list |
| `Fusion.ScorePermutes` | internal/knowledge/knowledge.go:192-204 | a score does not depend on the order of the candidates |
| `Fusion.CandidateOrderIrrelevant` | internal/knowledge/knowledge.go:206-234 | chunks, scores and their order do not depend on candidate order when equal IDs carry equal chunks |
| `Fusion.Cite` | internal/knowledge/knowledge.go:251-265 | cites all results in order with well-formed citations, or none; succeeds exactly on a nonempty list of citable results |
| `Fusion.ChunksAreCitable` | internal/knowledge/knowledge.go:150-154 | every chunk that ChunkText made can be cited once numbered, inside the text |
| `Fusion.FusedAreCitable` | internal/knowledge/knowledge.go:181-265 | whatever the cut keeps of such chunks can be cited |
| `Snowflake.PackIsBitwise` | internal/platform/id/snowflake.go:179-181 | the shifts and ors are the sum of the three fields, and the sign bit stays clear |
| `Snowflake.PackReadsBack` | internal/platform/id/snowflake.go:179-181 | the three fields can be read back, so packing is injective and fits 63 bits |
| `Snowflake.MillisIs` | internal/platform/id/snowflake.go:130-130 | the millisecond of an instant is the last one begun |
| `Snowflake.NewIsValid` | internal/platform/id/snowflake.go:69-108 | a new generator has a valid node, a live lease and a renewal due within the lease time |
| `Snowflake.Issuer.Issue` | internal/platform/id/snowflake.go:111-189 | one call leaves the fields, also on failure, and answers as the specification of a call says |
| `Snowflake.NextAdvances` | internal/platform/id/snowflake.go:111-189 | a success is at a strictly later (millisecond, sequence) pair strictly before the expiry in force; a failure never moves back |
| `Snowflake.HealthyCallSucceeds` | internal/platform/id/snowflake.go:111-189 | with a live lease, a clock that has not gone back and a free pair, a call succeeds |
| `Snowflake.DueCallRenews` | internal/platform/id/snowflake.go:119-129 | a due call with a good renewal succeeds under the renewed lease and is due again one interval later |
| `Snowflake.LostLeaseRefuses` | internal/platform/id/snowflake.go:115-126 | after expiry, or when a due renewal is not good, a call fails and changes nothing |
| `Snowflake.RegressionWaited` | internal/platform/id/snowflake.go:130-147 | a regression within the tolerance is waited for, a larger one fails at once |
| `Snowflake.ExhaustionWaited` | internal/platform/id/snowflake.go:149-168 | an exhausted millisecond is waited out |
| `Snowflake.EpochIs` | internal/platform/id/snowflake.go:21-22 | the epoch begins with 2026, and time, node and sequence have 41, 10 and 12 bits |
| `Snowflake.RunWellLogged` | internal/platform/id/snowflake.go:111-189 | in every run all identifiers are well formed and in strict order |
| `Snowflake.IdsStrictlyIncrease` | internal/platform/id/snowflake.go:111-189 | in every run, through failed renewals, regressions and exhaustion, identifiers are positive, fit 63 bits and strictly increase |
| `Snowflake.EqualIds` | internal/platform/id/snowflake.go:179-181 | two identifiers are equal exactly when millisecond, node and sequence are |
| `Snowflake.NodesNeverCollide` | internal/platform/id/snowflake.go:111-189 | generators on different nodes never issue the same identifier |
| `Snowflake.HandoverSafeIff` | internal/platform/id/snowflake.go:114-141 | handing a node over is safe if and only if it crosses a millisecond boundary |
| `Jobs.NewIsSound` | internal/job/job.go:63-77 | a new job is sound |
| `Jobs.NewEffects` | internal/job/job.go:63-77 | when a job is accepted and that it waits, unclaimed, with nothing done |
| `Jobs.TransitionEffects` | internal/job/job.go:79-109 | which transitions are allowed, that they lead to the requested state, and what they record |
| `Jobs.CancelEffects` | internal/job/job.go:111-116 | an unfinished cancellable job, and no other, is cancelled |
| `Jobs.ClaimEffects` | internal/job/job.go:118-139 | when a claim succeeds, and that its lease lasts for the time asked from now on |
| `Jobs.CommitEffects` | internal/job/job.go:141-156 | when a commit succeeds, and that it records count and checkpoint and leaves the lease as it is |
| `Jobs.ApplyProgresses` | internal/job/job.go:79-164 | each operation keeps soundness; a change raises the version, keeps progress from falling, and never touches a terminal job |
| `Jobs.RunProgresses` | internal/job/job.go:79-164 | the same between any two states of a run |
| `Jobs.ApplyKeepsHolder` | internal/job/job.go:118-139 | only a claim after expiry gives an unfinished job's lease to somebody else |
| `Jobs.CommitsAreFenced` | internal/job/job.go:118-156 | between commits by two holders lies a claim made after the first holder's lease expired; each commit falls within its lease |
| `Jobs.RunnerBehind` | internal/worker/runner.go:303-304 | under the worker's choice of version the checkpoint never runs ahead of the job |
| `Jobs.RunnerChoiceAccepted` | internal/worker/runner.go:302-305 | the worker's version and count pass every guard of CommitPage, even when its copy of the job is behind |
| `Collection.AtoiItoa` | internal/worker/runner.go:436-441 | decimal numerals are read back |
| `Collection.CursorRoundTrip` | internal/platform/jobstore/store.go:107-122 | a stored cursor resumes at the page after the committed one, or at page 1 when complete |
| `Collection.PageStore.CommitPage` | internal/worker/runner.go:296-301 | pages of a pass are committed consecutively from 1, all full but possibly the last |
| `Collection.PageStore.NextPage` | internal/platform/jobstore/store.go:67-122 | a resumed collection asks for the first page not committed |
| `Collection.Collect` | internal/worker/runner.go:325-351 | across interruptions no page is skipped; completion means exactly the pages up to the first short one, non-completion that only full pages were seen |
| `Collection.IssuesCompleteIff` | internal/platform/github/client.go:113-140 | issue collection reaches the provider's last page if and only if no earlier page lists a pull request |
| `Collection.IssuesCanStopEarly` | internal/worker/runner.go:288-317 | an instance in which a later page with issues is missed |
| `AnalysisRun.AddCitations` | internal/analysis/run.go:133-144 | accepts exactly supported claims and extends the evidence by their new citations in order |
| `AnalysisRun.ValidateOutput` | internal/analysis/run.go:122-147 | the loops decide and collect as the loop-free specification |
| `AnalysisRun.IndexEvidence` | internal/analysis/run.go:184-194 | accepts exactly well-formed evidence with one citation per chunk, and indexes it |
| `AnalysisRun.ValidateForPersistence` | internal/analysis/run.go:152-215 | decides persistability as specified for each state |
| `AnalysisRun.EvidenceReproduced` | internal/analysis/run.go:122-201 | accepted evidence has one citation per chunk, and deriving it again from itself reproduces it exactly |
| `AnalysisRun.DeriveEffects` | internal/analysis/run.go:122-147 | when output is accepted and why not; the evidence is what the claims cite, each citation once |
| `AnalysisRun.DedupeOrder` | internal/analysis/run.go:141-143 | the evidence is in the order of first mention |
| `AnalysisRun.NewRunEffects` | internal/analysis/run.go:74-91 | what a run must have to be accepted, and that it starts with nothing done |
| `AnalysisRun.StepEffects` | internal/analysis/run.go:93-241 | when each step succeeds and what it records; everything else stays |
| `AnalysisRun.PersistableIs` | internal/analysis/run.go:152-222 | what the validator asks in each state, spelled out |
| `AnalysisRun.LifecycleShaped` | internal/analysis/run.go:74-241 | every run reachable from any value that NewRun accepts has the shape of its state, together with what it still carries of that value |
| `AnalysisRun.ReachableRunsPersist` | internal/analysis/run.go:74-241 | a reachable run passes the validator if and only if the value had a valid parent and no leftovers for the state reached, and the citations are well formed |
| `AnalysisRun.AccessibleEvidencePersists` | internal/analysis/run.go:104-215 | with well-formed accessible citations a successful run persists if and only if the parent is valid and no failure code was left over |
| `AnalysisRun.LeftoverRefused` | internal/analysis/run.go:87-90 | a value with an earlier start that NewRun accepts and the validator refuses |
| `Idempotency.Cache.Begin` | internal/platform/accessapi/idempotency.go:50-65 | opens, conflicts, waits or replays, and changes only a missing entry |
| `Idempotency.Cache.Complete` | internal/platform/accessapi/idempotency.go:67-76 | records the response and closes the ready channel |
| `Idempotency.StepSafe` | internal/platform/accessapi/api.go:816-842 | every action of every request keeps the safety invariant |
| `Idempotency.EveryStateSafe` | internal/platform/accessapi/api.go:816-842 | the invariant holds in every state of every interleaving |
| `Idempotency.HandledOnce` | internal/platform/accessapi/api.go:816-842 | the handler runs at most once per key; the channel is closed exactly once; replies are recorded responses; conflicts go only to a different digest, which never runs; the post-wait conflict branch is unreachable |
| `Idempotency.CompletedForever` | internal/platform/accessapi/idempotency.go:50-76 | a completed entry never changes |
| `Idempotency.OneResponse` | internal/platform/accessapi/api.go:816-842 | all replies under one key are the same response to the same request |
| `RateLimiter.Limiter.Allow` | internal/platform/accessapi/api.go:1074-1091 | decision and pruned entries of one call, by the in-place filter |
| `RateLimiter.PruneInPlace` | internal/platform/accessapi/api.go:1079-1084 | filtering into the array being read keeps exactly the recent instants |
| `RateLimiter.SameDecisions` | internal/platform/accessapi/api.go:1074-1091 | under a nondecreasing clock the pruned limiter decides as one that keeps the full log |
| `RateLimiter.WindowBounded` | internal/platform/accessapi/api.go:1074-1091 | at most `limit` calls of a key are admitted in any half-open interval of length `window` |
| `RateLimiter.RefusedOnlyWhenFull` | internal/platform/accessapi/api.go:1085-1088 | a call is refused if and only if that many already lie in the window that ends now |
| `Backlog.CountOpen` | internal/issue/issue.go:69-73 | the number of open issues, for every iteration order |
| `Backlog.ReplayBefore` | internal/issue/issue.go:61-68 | stopping at the first event in the window loses nothing |
| `Backlog.ReplayInside` | internal/issue/issue.go:74-79 | continuing with the window's events gives the states at its end |
| `Backlog.BacklogChange` | internal/issue/issue.go:47-87 | open at the end minus open at the start, where the latest earlier event decides, when tied events agree; in general the change of some order the sort may pick |
| `Backlog.OrderDoesNotMatter` | internal/issue/issue.go:48-60 | with agreeing ties every order yields the same change |
| `Backlog.WindowsAddUp` | internal/issue/issue.go:47-87 | changes over adjacent windows add up to the change over the joined window |
| `Backlog.DisagreeingTie` | internal/issue/issue.go:49-60 | a disagreeing tie changes the result by one between two admissible orders |
| `Backlog.DeterminedIff` | internal/issue/issue.go:47-87 | the result is determined by the events if and only if tied events agree |
| `Contributors.Tally` | internal/contributor/contributor.go:64-79 | per-key counts, latest statuses, and the eligible and resolved totals |
| `Contributors.CountsIff` | internal/contributor/contributor.go:50-60 | which commits count and which are resolved |
| `Contributors.SameKeyIff` | internal/contributor/contributor.go:54-60 | two commits have one key if and only if both resolve to one identity, or neither does and they share the account |
| `Contributors.RowOrder` | internal/contributor/contributor.go:87-92 | more commits first, equal counts in the order of their keys |
| `Contributors.Aggregate` | internal/contributor/contributor.go:63-105 | one row per identity key with its count and latest status, sorted, with shares of the eligible commits; nothing when there are none |
| `Contributors.CommitsConserved` | internal/contributor/contributor.go:68-86 | the rows account for every eligible commit exactly once |
| `Contributors.TopThreeMaximal` | internal/contributor/contributor.go:97-101 | the top-three sum is maximal over every choice of at most three contributors |
| `Contributors.SharesOrdered` | internal/contributor/contributor.go:96-103 | 0 < top-one <= top-three <= 1 |
| `Contributors.CommitOrderIrrelevant` | internal/contributor/contributor.go:63-105 | keys, counts, order and totals ignore commit order |
| `Projects.NewIsValid` | internal/project/project.go:106-119 | a new project is valid |
| `Projects.NewEffects` | internal/project/project.go:106-119 | when a project is accepted, and that it is active with its primary alone |
| `Projects.TransitionEffects` | internal/project/project.go:155-183 | which transitions are allowed, that they lead to the requested state, and that only deletion takes the repositories away |
| `Projects.ValidIs` | internal/project/project.go:121-146 | what a valid project is, spelled out, with one repository and no other primary |
| `Projects.AddAccepted` | internal/project/project.go:185-213 | a repository is added if and only if the project is open to changes, there is room and the repository is well formed |
| `Projects.RoleAccepted` | internal/project/project.go:215-243 | a role is changed if and only if the project is open, role and repository are known, and the primary is not demoted without a replacement |
| `Projects.RemoveAccepted` | internal/project/project.go:245-259 | a removal succeeds if and only if the project is open and the repository is not the primary |
| `Projects.RefusalCodes` | internal/project/project.go:155-259 | why an operation is refused, the first of several reasons |
| `Projects.Validate` | internal/project/project.go:121-146 | the loop accepts exactly well-formed projects with case-distinct URLs and one primary unless deleted |
| `Projects.DemoteInPlace` | internal/project/project.go:202-207 | every primary of the slice becomes core, nothing else changes |
| `Projects.AddRepositoryInPlace` | internal/project/project.go:185-213 | what the operation returns and what it leaves in the slice of its caller's value |
| `Projects.ChangeRepositoryRoleInPlace` | internal/project/project.go:215-243 | the same for a change of role |
| `Projects.RemoveRepositoryInPlace` | internal/project/project.go:245-259 | the same for a removal |
| `Projects.CallerValueValidIff` | internal/project/project.go:201-258 | through the shared slice the value an operation was called on stays valid if and only if the operation neither attached a primary nor detached a repository |
| `Projects.AttachedIsValid` | internal/project/project.go:201-212 | the closing validation of AddRepository never fails on a valid project |
| `Projects.RecastIsValid` | internal/project/project.go:229-242 | nor does that of ChangeRepositoryRole |
| `Projects.DetachedIsValid` | internal/project/project.go:253-258 | nor does that of RemoveRepository |
| `Projects.ApplyKeepsValid` | internal/project/project.go:155-259 | on a valid project an operation succeeds exactly when its guards allow, stays valid and raises the version with every change |
| `Projects.AddEffects` | internal/project/project.go:185-213 | the URL is present afterwards; when it was new, the requested repository is appended with its role, a former primary becomes core, and all others stay |
| `Projects.RoleEffects` | internal/project/project.go:215-243 | the repository has the role afterwards, a former primary becomes core, and all others stay |
| `Projects.RemoveEffects` | internal/project/project.go:245-259 | a removal takes away that repository alone |
| `Projects.ReachableIsValid` | internal/project/project.go:106-259 | every reachable project has exactly one primary until deleted, and case-distinct URLs |

## Left out

- Topic corrections (`topic.Apply`) and labels: a fold of single edits over the candidates, easy beside the component theorem.
- URL parsing and public-address checks, robots files, HTML link extraction, redirects and the pacing timer of the crawler: arbitrary functions and flags here.
- `Propose` and the validation of drafts: the protocol starts from any awaiting proposal under a fresh ID.
- Crashes and failed writes between Begin and Finish: the call simply takes no further step and the proposal stays executing; no recovery exists in the source.
- Authorization in `Confirm` and the blank-token check: reduced to a write permission and a nonempty key that a call must have to begin; audit and outbox rows and the unique constraints of other tables are not part of this model.
- `createIdentity` as formatted text: modelled as the triple of workspace, actor and key.
- The language field of snapshots and chunks: copied, decides nothing.
- `Fusion.CandidateOrderIrrelevant`: says nothing about the order of the modes within a result, because that order does depend on the candidates.
- `Contributors.CommitOrderIrrelevant`: says nothing about the status shown for a key, because the last commit decides it; the summary's status text is represented by the presence of shares.
- Pass-through fields and coverage notes of an observed trend: project, metric, windows and texts are copied and decide nothing.
- The SQL of the job store (requeueing after expiry, heartbeats, dead letters): only the operations of the job aggregate are modelled; job fields that no operation reads are omitted.
- Signed numerals in `Atoi`: cursors are written unsigned, and a sign is refused by the model although "+2" would be read by the source.
- A panicking handler in the idempotency cache: the request takes no further step and its waiters wait until they disconnect, as in the source; the formatting of cache keys is not modelled.
- Issue states other than "open": they count alike.
- Unicode case folding of repository URLs: ASCII only; the error kind of the closing validation is not distinguished because the validation cannot fail.
- Spare capacity of the repository slice: the slice is taken to be full, so that appending copies it. With spare capacity two adds from one value would share the appended slot, and the value returned first would change.
- Run selection and history, forecasts, alerts, radar, policies, comparison, health, adoption, releases and access roles: mostly single-branch checks that would add easy members.
- HTTP handlers, generated API code, sign-in, configuration, telemetry, the GitHub client's transport, Git, JetStream, S3, the PostgreSQL driver and the web application: plumbing.
