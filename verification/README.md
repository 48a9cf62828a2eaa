# Memory bank verification

A Dafny model of a service that stores agent memories in SQLite, and proofs about it. It covers
the parts with invariants or algorithms of their own: rank fusion and hybrid search, the
compaction gate, the memory store and its decay, observation capture, transcript import, secret
redaction, ranking metrics, the circuit breaker and the benchmark's worker pool. Code that updates
state is a class or a method with loops, each tied by its contract to a function on values; the
theorems are lemmas about those functions and about runs of them. Lemmas in the files named
`...Meaning` and `SecretShapes` say the same in terms of inputs, columns and events alone, without
the functions that compute it.

| file | content |
|---|---|
| `RankFusion.dfy`, `RankFusionTheorems.dfy` | reciprocal-rank fusion and capped selection; optimality, membership rule, promotion, both-stream dominance |
| `FusionMeaning.dfy` | the one list of items two streams allow, and that fusion returns it |
| `VectorSearch.dfy` | cosine similarity, top-K cut |
| `HybridSearch.dfy` | the search entry point: limits, guarded vector stream, fusion, touch |
| `CompactionGate.dfy`, `CompactionRuns.dfy` | the gate with whole requests, and its runs |
| `GateMeaning.dfy` | who is prompted and what a request or a save leaves, in events and columns |
| `GateInterleaving.dfy`, `GateWindows.dfy` | the gate with interleaved statements: load at one moment, prompts in a window |
| `MemoryStore.dfy`, `MemoryStoreRuns.dfy`, `DecaySchedule.dfy` | tables and transactions; every history; decay over a schedule |
| `MemoryMeaning.dfy` | what each transaction changes column by column, and how fast a decay pass forgets |
| `SupersessionCycles.dfy` | cycles of superseded_by: what they block, and when they arise |
| `Capture.dfy`, `TranscriptImport.dfy`, `CaptureHistories.dfy` | windowed deduplication, incremental import, histories that mix both |
| `ImportMeaning.dfy` | which transcript lines are one event, how many events there are, what a line is stored as |
| `Redaction.dfy`, `SecretShapes.dfy` | the three secret patterns, a backtracking matcher, replacement passes; the secrets character by character |
| `RankingMetrics.dfy` | precision, recall, MRR, NDCG, percentile |
| `CircuitBreaker.dfy`, `BreakerInterleaving.dfy` | the breaker over any call history; the rate limit under overlapping callers |
| `WorkerPool.dfy` | interleaved worker pool |
| `Sorting.dfy`, `Sets.dfy`, `Reals.dfy`, `Outcomes.dfy` | shared helpers |

Conventions. Scores, importances and vectors are exact reals. `exp`, `sqrt` and the NDCG discount
are parameters that satisfy stated laws (`IsExp`, `IsSqrt`, `IsDiscount`). Every clock reading is a
parameter. Attempt rows and observations are sequences, their position standing for the row id.
Digests are constructors of a datatype, hence injective.

Things the code does that a reader may not expect, each stated as a lemma:

- Supersession may close a cycle, exactly when the new memory already leads to the old one
  (`SupersedeKeepsAcyclicIff`). A memory can be deleted by some list iff it lies on no cycle
  (`DeletableIff`), and a decay pass that would evict one of a cycle fails (`CycleBlocksDecay`).
- Deleting the memory that answered a prompt lets the gate prompt again at once, any number of
  times at one instant (`DeletionsBreakBound`). The bound holds while no deletion takes the last
  memory that compacts the session (`WindowBound`).
- Interleaved requests overshoot the gate's maximum by up to C - 1 at one moment
  (`OvershootReached`). Within one window they can leave up to maximum + 2 C - 1 prompts, and no
  more (`WindowOvershoot`, `WindowOvershootReached`).
- C overlapping callers can make threshold + C - 1 embed calls in one cooldown window without a
  success, and no more (`OverlapLimit`, `OverlapReached`).
- A crash between inserting and recording an imported event stores it twice, except when its time
  is the import clock and that clock ran backwards (`CrashDuplicates`).
- NDCG exceeds 1 on repeated gold results (`DuplicatesExceedOne`); it stays within 1 for every
  discount exactly when the results hold no more gold hits than there are gold ids
  (`NDCGWithinOneIff`).
- Recall divides zero by zero when the gold list holds only empty ids (`RecallInRange`).
- The lexical query has a limit of its own, so no `bm25_top_k` brings more than 100 lexical
  matches into a search (`ShownIsSound`).
- Session ids join agent and external id with a colon, and the schema would refuse two pairs with
  one id. No agent that reaches the store contains a colon, so this never happens
  (`HistoriesAreSane`).

## Model

| member | source | states |
|---|---|---|
| RankFusion.FuseRRF | internal/search/rrf.go:13-69 | the merge, in-place sort and capped loop return exactly the first finalK items of the unique ranking that survive the session cap; nothing depends on map iteration order |
| RankFusion.RankTable | internal/search/rrf.go:44-52 | any listing of the merged table, sorted, is its ranking: every item once, strictly ordered by score then id |
| RankFusion.RankingUnique | internal/search/rrf.go:44-52 | a merged table has only one ranking |
| RankFusion.SelectCapped | internal/search/rrf.go:53-68 | the counting loop with continue and break equals the declarative cap rule followed by a cut |
| RankFusion.SessionsDiversified | internal/search/rrf.go:53-63 | the cap keeps exactly min(cap, available) items of each named session and all unnamed items |
| RankFusionTheorems.SelectionRule | internal/search/rrf.go:53-68 | an item is kept iff fewer than cap items of its session and fewer than finalK eligible items rank above it, and its place is the number of those |
| RankFusionTheorems.FusionRule | internal/search/rrf.go:13-69 | the membership rule for the whole fusion, both directions |
| RankFusionTheorems.SmallerLimitIsPrefix | internal/search/rrf.go:17-19 | a smaller finalK gives a prefix of the larger answer |
| RankFusionTheorems.GreedyDominates | internal/search/rrf.go:53-68 | the j-th kept score is at least the j-th score of any selection within the caps |
| RankFusionTheorems.SelectionOptimal | internal/search/rrf.go:53-68 | on a ranking with non-negative scores the greedy selection is at least as long, rank by rank as good, and as large in total as any admissible one |
| RankFusionTheorems.FusionOptimal | internal/search/rrf.go:13-69 | the fusion's answer is itself within the caps and optimal among all sub-selections of the fused items |
| FusionMeaning.ListedIsFound | internal/search/rrf.go:24-43 | whatever the streams repeat, a listed item's ranks are its last places in the two streams, and its session is that of its last BM25 occurrence if named, else that of its first named vector occurrence |
| FusionMeaning.SessionIsKept | internal/search/rrf.go:24-43 | an id whose every occurrence carries one session is listed with it |
| FusionMeaning.ScoreGrows | internal/search/rrf.go:24-43 | an occurrence at place r adds 1 / (rrfK + r) to its own id's score and to no other |
| FusionMeaning.FusedIsFusion | internal/search/rrf.go:13-69 | for streams without repeats every listed item has the ranks, session and score its places give; items are in descending score, then ascending id; at most finalK of them and at most maxPerSession of a named session; and a found item is missing only if finalK items, or maxPerSession items of its session, are ahead of it |
| FusionMeaning.FusionIff | internal/search/rrf.go:13-69 | a list is fusion's answer iff that holds of it, so those conditions leave one list |
| RankFusionTheorems.PromotionKeepsPlace | internal/search/rrf.go:44-68 | raising one item's score and no other's never removes that item or moves it down |
| RankFusionTheorems.Bm25Promotion | internal/search/rrf.go:24-32 | moving an item up one place in the BM25 stream never removes or demotes it |
| RankFusionTheorems.VectorPromotion | internal/search/rrf.go:33-43 | the same for the vector stream |
| RankFusionTheorems.BothStreamsFirst | internal/search/rrf.go:13-69 | with streams of at most rrfK + 1 places, everything found by both streams precedes everything found by one |
| RankFusionTheorems.DominanceLimit | internal/search/rrf.go:24-52 | rrfK + 1 is exactly the longest length for which both-stream items always rank first: an if-and-only-if over all streams |
| RankFusionTheorems.ScoredIsRanking | internal/search/rrf.go:24-32 | with no vector stream the BM25 order is the ranking |
| RankFusionTheorems.LexicalFallback | internal/search/rrf.go:13-69 | with no vector stream the answer is the BM25 order under the session cap |
| VectorSearch.Cosine | internal/search/hybrid.go:203-219 | the accumulator loop computes the normalised inner product, 0 for empty, unequal or zero vectors |
| VectorSearch.CosineTimesNorms | internal/search/hybrid.go:203-219 | times the product of the norms it is the inner product |
| VectorSearch.NonZero | internal/search/hybrid.go:215-217 | the zero-norm guard lets every vector with a non-zero component pass |
| VectorSearch.ProjectionResidual | internal/search/hybrid.go:207-218 | Cauchy-Schwarz for the loop's sums, with the exact gap as a residual |
| VectorSearch.CosineInRange | internal/search/hybrid.go:203-219 | the similarity lies in [-1, 1] for all vectors |
| VectorSearch.CosineOneIff | internal/search/hybrid.go:203-219 | it is 1 exactly on positive multiples of a non-zero vector |
| VectorSearch.TopCandidates | internal/search/hybrid.go:146-170 | the sorted cut splits the scored candidates into returned and omitted ones; returned scores descend, ids ascend on equal scores, and no omitted score exceeds a returned one |
| VectorSearch.NobodyBetterLeftOut | internal/search/hybrid.go:153-170 | a candidate more similar to the query than a returned one, or as similar with a lower id, is returned with its similarity for a score |
| HybridSearch.VectorCandidates | internal/store/embeddings.go:48-87 | the live memories of the project embedded with this model and dimension, later created first, each once; none created later than a listed one is left out, and none at all below the limit |
| HybridSearch.Searcher.VectorResults | internal/search/hybrid.go:106-171 | the service is used iff there is an embedder and the breaker is not open; the outcome is recorded as one breaker round; a usable reply yields the candidates with the highest cosine similarity to it, an unusable one an error |
| HybridSearch.Searcher.Hybrid | internal/search/hybrid.go:61-104 | a failing vector side costs only the vector side unless the index is unavailable too; otherwise the hits rank the two streams, with the places, scores and order those give and nothing missing without excuse; each shows a live memory of the project as stored, none twice, at most the set number of a session; exactly the hits are touched, and a failure changes no table |
| HybridSearch.Assemble | internal/search/hybrid.go:80-97 | reading each fused id from the rows the streams brought gives the stored row of every hit |
| HybridSearch.CutIsTop | internal/search/hybrid.go:153-170 | the id form of the cut, in cosine similarities of the stored vectors: distinct ids, most similar first, lower id first where equal, nothing more similar left out |
| HybridSearch.SearchMemories | internal/store/memories.go:195-255 | the loop over the matches keeps those of the project that are not superseded, in order, and stops at the clamped limit |
| HybridSearch.ShownIsSound | internal/store/memories.go:203-225 | from any list of distinct matches: live memories of the project, in the order of the matches, none twice, at most the clamped limit; a live match is missing only below all listed ones and only at the limit |
| HybridSearch.TopIsSound | internal/store/embeddings.go:60-71 | the vector stream lists live memories of the project, none twice, at most VectorTopK |
| HybridSearch.HitsAreSound | internal/search/hybrid.go:61-104 | every hit shows a live memory of the queried project as stored, no memory twice, at most the set and the requested number, and at most the set number of memories of any one session |
| HybridSearch.SameDirectionIsListed | internal/search/hybrid.go:149-170 | a candidate that is a positive multiple of a non-zero query is returned unless all places go to such candidates |
| HybridSearch.UsableIff | internal/search/hybrid.go:124-145 | a reply is searched with iff settings or embedder name a model and its length is the dimension set or reported |
| HybridSearch.HitsAreRanked | internal/search/hybrid.go:77-97 | the hits carry their places in the two streams and the score for them, in descending order, and a listed memory is missing only if the answer or its session's share is full of hits ahead of it |
| HybridSearch.AnswerIsSound | internal/search/hybrid.go:61-104 | the same of the fused items, each carrying the session its memory is stored with |
| HybridSearch.TouchedOnce | internal/store/embeddings.go:141-165 | a touch of distinct ids sets the access time of each listed row, counts one access and changes no other row |
| HybridSearch.FoundByBothFirst | internal/search/hybrid.go:173-194 | with default sizes, or any sizes up to rrfK + 1, memories found by both streams are listed first |
| HybridSearch.DegradedIsLexical | internal/search/hybrid.go:72-77 | without a vector contribution the answer is the lexical order under the session cap |
| CompactionGate.Normalize | internal/server/server.go:534-551 | unset limits become mode subagent, 5 observations, 2 attempts and 600 seconds; set ones are kept |
| CompactionGate.FreshCountIsSize | internal/store/compaction.go:40-51 | the count is the number of outstanding attempts at or after the cutoff |
| CompactionGate.Latest | internal/store/compaction.go:53-68 | completion picks the newest outstanding attempt, ties going to the higher id, and none only when there is none |
| CompactionGate.ExpireKeepsFresh | internal/store/compaction.go:28-38 | expiry touches no attempt at or after the cutoff |
| CompactionGate.Gate.EnsureSession | internal/store/sessions.go:28-39 | inserts the session only when absent |
| CompactionGate.Gate.EndSession | internal/store/sessions.go:58-64 | stamps the end of an existing session and nothing else |
| CompactionGate.Gate.SessionNeedsCompaction | internal/store/compaction.go:70-87 | the answer by the counting loop is the condition of the session, which GateMeaning.PromptsIff spells out in columns |
| CompactionGate.Gate.FreshRequested | internal/store/compaction.go:40-51 | the loop counts the fresh outstanding attempts |
| CompactionGate.Gate.RequestCompaction | internal/server/server.go:499-532 | the answer and the whole new state of a request, as functions of the state it finds, which GateMeaning.PromptsIff and GateMeaning.StopLeaves spell out in columns |
| CompactionGate.Gate.Stop | internal/server/server.go:377-410 | the stop hook's answer and whole new state as functions of the state it finds |
| CompactionGate.Gate.MarkCompactionCompleted | internal/store/compaction.go:53-68 | the search loop finds the newest outstanding attempt; its status and completion time change, every other row stays, and nothing changes iff no attempt is outstanding |
| CompactionGate.CompletionEffect | internal/store/compaction.go:53-68 | completion as used by the saves changes just that row, which exists iff an attempt is outstanding |
| CompactionGate.Gate.MemorySessionSummarySave | internal/mcp/server.go:470-489 | accepted iff the id is set and the summary is non-blank and at most 800 bytes; then stores it and completes an attempt |
| CompactionGate.Gate.MemorySave | internal/mcp/server.go:272-309 | accepted iff text, importance and session id are valid; then stores the memory and completes an attempt of its session |
| GateMeaning.PromptsIff | internal/server/server.go:499-532 | a stop hook prompts iff it is active, the mode is neither disabled nor manual, the session has minObservations observations, no summary and no memory dated from its start, and fewer than maxBlockAttempts requested attempts of the last attemptTTLSeconds |
| GateMeaning.StopLeaves | internal/server/server.go:377-410 | the session ended now, its requested attempts older than that failed with reason ttl expired, one new row saying requested or skipped, every other row and table as before |
| GateMeaning.PromptsAreEarned | internal/store/compaction.go:70-87 | in every run from an empty store a prompt of a session is preceded by at least minObservations observations of it |
| GateMeaning.DueIsPrompted | internal/server/server.go:499-532 | conversely, a session observed that often and never saved is prompted by an active hook in an enabled mode unless maxBlockAttempts prompts of it fall into the last attemptTTLSeconds |
| GateMeaning.SummaryStores | internal/mcp/server.go:470-489 | an accepted summary is stored in the session's row, ends it unless it had ended and answers its newest attempt; a refused one changes nothing |
| GateMeaning.MemoryStores | internal/mcp/server.go:272-309 | a memory is stored iff its text is not blank, its importance lies in [0, 1] and its session id is empty or proper; it creates the session and answers its newest attempt |
| GateMeaning.SummaryLimit | internal/mcp/server.go:475-480 | in characters of one UTF-8 width w a summary is accepted iff a session is named, some character is not a space and w times the length is at most 800 |
| GateMeaning.NormalizedIdIff | internal/mcp/server.go:352-362 | a proper session id is an agent without a colon, a colon and an external id, neither empty |
| CompactionRuns.RequestedBounded | internal/server/server.go:503-531 | whatever the clock does, no session ever has more than MaxBlockAttempts requested attempts |
| CompactionRuns.ExpiredLeavesOnlyFresh | internal/store/compaction.go:28-51 | expire and count share one cutoff, so after expiry the outstanding attempts are the fresh ones |
| CompactionRuns.StaleAttemptsAllowRetry | internal/server/server.go:503-531 | if a session has enough observations, no summary and no memory dated from its start, and all its outstanding attempts are past the TTL, the next active request prompts |
| CompactionRuns.SummaryClosesGate | internal/store/compaction.go:70-87 | after a summary is stored no later request on the session ever prompts |
| CompactionRuns.AcceptedSummaryCloses | internal/mcp/server.go:470-489 | a save closes the gate iff it is accepted for an existing session or the gate was closed already; for an unknown session nothing is stored |
| CompactionRuns.StepKeepsPending | internal/server/server.go:499-532 | one event keeps the attempt behind a prompt outstanding, or completes it together with a save that compacts the session |
| CompactionRuns.PromptStaysPending | internal/server/server.go:499-532 | that holds along whole runs inside the TTL window |
| CompactionRuns.WindowBound | internal/server/server.go:499-532 | any closed window as long as the TTL holds at most MaxBlockAttempts prompts for a session, while no deletion takes its last compacting memory |
| CompactionRuns.ForgetKeepsIff | internal/store/compaction.go:82-86 | a deletion leaves a compacted session compacted iff it has a summary or another memory dated from its start |
| CompactionRuns.ForgettingReopens | internal/server/server.go:503-531 | a prompt, a memory that answers it and the memory's deletion leave the gate prompting as before |
| CompactionRuns.RoundsPrompt | internal/server/server.go:503-531 | n such rounds hold n prompts at one instant, from any state that prompts |
| CompactionRuns.DeletionsBreakBound | internal/server/server.go:499-532 | for every n some run on a forward clock holds n prompts of one session at one instant, so the window bound fails without its condition on deletions |
| GateInterleaving.StepKeepsInv | internal/server/server.go:510-526 | each statement of an interleaved request keeps the load invariant |
| GateInterleaving.OvershootBound | internal/server/server.go:510-526 | in every interleaving of at most C requests, requested attempts plus requests past the check never exceed MaxBlockAttempts + C - 1 |
| GateInterleaving.OvershootReached | internal/server/server.go:510-526 | for every maximum, window and C some interleaving reaches that bound |
| GateWindows.StepWindowed | internal/server/server.go:510-526 | each statement keeps the count of prompts in the window and of requests that may still prompt within the bound |
| GateWindows.WindowOvershoot | internal/server/server.go:499-532 | in every interleaving of at most C requests a closed window holds at most MaxBlockAttempts + 2 C - 2 prompts, and one more once a save completed an attempt |
| GateWindows.WindowOvershootReached | internal/server/server.go:499-532 | for every maximum, TTL and C some interleaving reaches MaxBlockAttempts + 2 C - 1 prompts, even at one instant |
| MemoryStore.Store.constructor | internal/store/migrations/001_init.sql:34-48 | a new store is empty |
| MemoryStore.Store.EnsureSession | internal/store/sessions.go:28-39 | adds the session id and changes no other table |
| MemoryStore.Store.AddMemory | internal/store/memories.go:53-103 | succeeds iff the session exists; one transaction adds row, index row and audit row under the next id, else nothing changes |
| MemoryStore.Store.UpdateMemory | internal/store/memories.go:134-193 | rewrites only the given columns, and the index row only with the text; fails without change on a missing id; an empty update is a no-op |
| MemoryStore.Store.SupersedeMemory | internal/store/compaction.go:119-152 | succeeds iff both memories exist and differ; sets superseded_by and audits it |
| MemoryStore.Store.SaveMemoryEmbedding | internal/store/embeddings.go:30-46 | upserts iff model, vector and memory are there |
| MemoryStore.Store.DeleteEmbeddings | internal/store/embeddings.go:129-139 | exactly the embeddings of the project's memories, of the named model if any, are dropped |
| MemoryStore.Store.TouchMemories | internal/store/embeddings.go:141-165 | stamps and counts listed rows in order; other tables unchanged |
| MemoryStore.Store.DeleteRow | internal/store/mcp_helpers.go:90-96 | refused iff another row points at the memory; cascades to its embedding |
| MemoryStore.Store.DeleteMemories | internal/store/mcp_helpers.go:70-111 | succeeds iff every referrer of a listed memory comes earlier in the list; returns the number of distinct rows removed; otherwise all tables are as before |
| MemoryStore.Store.DecayMemories | internal/store/compaction.go:154-229 | succeeds iff every referrer of a doomed memory is doomed with a smaller id; returns the number evicted; otherwise all tables are as before |
| MemoryStore.Store.ScanForDecay | internal/store/compaction.go:161-193 | the scan lists every memory once in id order with its decayed importance and verdict |
| MemoryMeaning.AddInserts | internal/store/memories.go:53-103 | a new row under the next id holds the given columns, fact, manual and 1 for those left out, all three times at creation; nothing else changes but index and audit |
| MemoryMeaning.UpdateSets | internal/store/memories.go:134-193 | an update sets exactly the columns given and the time of the update, in that row alone |
| MemoryMeaning.SupersedeSets | internal/store/compaction.go:119-152 | a supersession sets superseded_by of the old memory alone |
| MemoryMeaning.DropRemoves | internal/store/embeddings.go:129-139 | embeddings of other projects, and of other models where one is named, stay |
| MemoryMeaning.TouchCounts | internal/store/embeddings.go:141-165 | every mention of an existing memory counts one access, and it is stamped once listed |
| MemoryMeaning.DeleteRemoves | internal/store/mcp_helpers.go:70-111 | if whatever a listed memory replaces is listed before it, exactly the listed memories, index rows and embeddings go; otherwise nothing changes |
| MemoryMeaning.DeleteIsAudited | internal/store/mcp_helpers.go:90-104 | the audit rows name the existing listed memories, each once |
| MemoryMeaning.DecayKeepsIff | internal/store/compaction.go:154-229 | a successful pass keeps a memory iff importance * exp(-(age in ms) / (tauDays * 86400000)) reaches minImportance, 30 and 0.05 if unset, or its tier is procedural, and it changes the importance alone |
| MemoryMeaning.DecayAfterWholeTaus | internal/store/compaction.go:161-187 | n times tauDays days after the last access exp(-n) of the importance is left; a memory accessed in the future loses nothing |
| MemoryMeaning.ProceduralIff | internal/store/compaction.go:187 | the exempt tier is procedural in any mixture of cases |
| MemoryStore.DeleteStep | internal/store/mcp_helpers.go:84-104 | the next listed id is refused exactly when the order is wrong, else one step towards the deleted tables |
| MemoryStore.HeldByLaterRow | internal/store/compaction.go:194-221 | mid-pass a delete is refused exactly when some referrer is not doomed or comes later |
| MemoryStore.WholeScan | internal/store/compaction.go:194-229 | applying all verdicts gives the decayed tables |
| MemoryStoreRuns.RunKeepsInv | internal/store/memories.go:53-193 | after every run, failures included: index rows equal the id-to-text map, embeddings belong to memories, superseded_by names a live other memory |
| MemoryStoreRuns.LedgerBalances | internal/store/phase2_helpers.go:264-273 | live memories = create events - delete events - sum of decay returns, over every run |
| MemoryStoreRuns.DeleteEventsCount | internal/store/mcp_helpers.go:90-104 | a multi-delete audits exactly one event per distinct existing memory |
| SupersessionCycles.DeletableIff | internal/store/mcp_helpers.go:70-111 | some list that mentions a memory can be deleted iff the memory lies on no supersession cycle, of any length |
| SupersessionCycles.ListFarthestFirst | internal/store/mcp_helpers.go:84-104 | off the cycles, listing the referrers farthest first puts every referrer before what it refers to |
| SupersessionCycles.CycleUndeletable | internal/store/mcp_helpers.go:70-111 | a list that mentions a memory of a cycle changes nothing, in any order |
| SupersessionCycles.DoomedUpstream | internal/store/compaction.go:194-221 | in a pass that succeeds, whatever leads to a doomed memory is doomed and has a smaller id |
| SupersessionCycles.DecaySparesCycles | internal/store/compaction.go:194-221 | a pass that succeeds evicts no memory of a cycle |
| SupersessionCycles.CycleBlocksDecay | internal/store/compaction.go:194-221 | a pass that would evict a memory of a cycle changes nothing |
| SupersessionCycles.SupersedeKeepsAcyclicIff | internal/store/compaction.go:119-152 | an accepted supersession keeps an acyclic table acyclic iff the new memory does not lead to the old one |
| SupersessionCycles.StepAcyclicIff | internal/store/compaction.go:119-152 | of all operations only such a careless supersession makes a cycle |
| SupersessionCycles.CarefulRunsAcyclic | internal/store/memories.go:53-193 | over every run without one, no memory ever lies on a cycle |
| SupersessionCycles.MutualSupersessionAccepted | internal/store/compaction.go:119-152 | supersession is accepted in both directions, giving a cycle of two |
| SupersessionCycles.MutualUndeletable | internal/store/mcp_helpers.go:70-111 | no list mentioning one of the two can be deleted |
| SupersessionCycles.MutualBlocksDecay | internal/store/compaction.go:194-221 | a decay pass that would evict one of the two changes nothing |
| DecaySchedule.PassesCompound | internal/store/compaction.go:161-187 | a survivor's importance is i0 * exp(-(sum of max(0, tj - accessed_at)) / tau) |
| DecaySchedule.SurvivalThreshold | internal/store/compaction.go:161-187 | a non-procedural memory survives all passes iff the final product is at least the threshold |
| DecaySchedule.ProceduralSurvives | internal/store/compaction.go:183-187 | a procedural memory is never evicted |
| DecaySchedule.StoreFollowsSchedule | internal/store/compaction.go:154-229 | in any run that leaves a memory alone the store holds what its successful passes leave of it; failed passes do not count |
| Capture.ColonFreeAgents | internal/store/sessions.go:28-39 | distinct pairs of colon-free agents get distinct session ids |
| Capture.Observations.InsertObservation | internal/store/observations.go:23-78 | inserts and counts iff no twin is younger than the window; fails without change iff the session id is another pair's |
| Capture.InsertStores | internal/store/observations.go:23-78 | the new row holds the input's time, directory, kind, tool, payload and hash under agent:external, unless a row with the hash is later than its time minus the window; the session row counts it |
| Capture.RunIsSpaced | internal/store/observations.go:35-50 | for any timestamps in any order, stored twins in insertion order are at least the window apart |
| Capture.IntervalBound | internal/store/observations.go:35-50 | an interval of length L holds at most L / (1000 W) + 1 twins |
| Capture.MapDecidesLikeScan | internal/store/observations.go:42-50 | a map with the last accepted timestamp per hash decides every insert like the table scan |
| Capture.CountersMatch | internal/store/observations.go:66-77 | n_obs equals the stored rows of the session after every call sequence |
| TranscriptImport.Importer.RecordImportedEvent | internal/store/imports.go:22-36 | records an event once; a repeat changes nothing |
| TranscriptImport.Importer.ImportFile | internal/admin/import_jsonl.go:94-145 | the scanning loop ends in the database and the counts of the line-by-line specification, keeping what came before a failing line; ImportMeaning says what each line does |
| TranscriptImport.ScanCounts | internal/admin/import_jsonl.go:115-140 | a clean import records exactly its events; imported is the number of distinct new events and of new observations |
| ImportMeaning.SameEventIff | internal/admin/import_jsonl.go:152-155 | two lines are one event iff they carry the same id, are the same line, or one carries no id and the other line: and its number in decimal |
| ImportMeaning.DecimalIff | internal/admin/import_jsonl.go:154 | line numbers are written without leading zeros, and a number has one such numeral |
| ImportMeaning.FirstImportCounts | internal/admin/import_jsonl.go:94-145 | a first import of a clean transcript without ids of the form line:digits imports and stores as many events as it has entries without id plus distinct ids |
| ImportMeaning.LineIsStored | internal/admin/import_jsonl.go:127-185 | a new event is stored with the line's own columns, the file's name for a missing session, the command's project for a missing directory and the import time for a missing timestamp |
| ImportMeaning.LineIsPassed | internal/admin/import_jsonl.go:110-126 | a recorded event is skipped, a blank line is nothing, a bad one stops the scan, and none of them changes the database |
| TranscriptImport.ImportIsIncremental | internal/admin/import_jsonl.go:94-145 | importing F and then F++G leaves the database of one import of F++G, up to fallback timestamps, and the counts add up |
| TranscriptImport.ImportTwiceIsImportOnce | internal/admin/import_jsonl.go:94-145 | with one clock reading the databases are equal |
| TranscriptImport.RerunImportsNothing | internal/admin/import_jsonl.go:119-126 | a rerun imports nothing and changes nothing |
| TranscriptImport.RetryAfterError | internal/admin/import_jsonl.go:115-118 | after a bad line, importing a repaired transcript ends where a first import of it would |
| TranscriptImport.CrashDuplicates | internal/admin/import_jsonl.go:127-134 | after a crash between insert and record the retry duplicates the event iff its time is not before the stored one |
| TranscriptImport.ScanAllSound | internal/admin/import_jsonl.go:94-145 | imports keep every stored import observation recorded, even when they fail |
| CaptureHistories.SplitId | internal/mcp/server.go:352-362 | a session id splits into a colon-free agent and the rest, whose id it is |
| CaptureHistories.StartInserts | internal/mcp/server.go:352-362 | a session start inserts a row without observations iff the id is new |
| CaptureHistories.HistoriesAreSane | internal/store/observations.go:23-78 | in every history of captures, session starts and imports no insert collides, the import theorems apply, and each recorded event has exactly one row |
| CaptureHistories.ScanKeepsSane | internal/admin/import_jsonl.go:115-140 | one imported line keeps that, also next to live rows |
| CaptureHistories.ImportSeesImportsOnly | internal/admin/import_jsonl.go:94-145 | captures made before an import change neither what it imports nor what it reports |
| CaptureHistories.CapturesKeepImports | internal/store/observations.go:23-78 | captures leave recorded events and imported rows alone |
| CaptureHistories.MixedImportIsIncremental | internal/admin/import_jsonl.go:94-145 | after any history, importing F, capturing anything, then importing F++G gives the events, imported rows and counts of one import of F++G |
| CaptureHistories.HistoriesCount | internal/store/observations.go:66-77 | n_obs equals the session's rows in every such history |
| Redaction.MatchAtSound | internal/secrets/filter.go:5-9 | the backtracking matcher reports only words of the pattern |
| Redaction.MatchAtComplete | internal/secrets/filter.go:5-9 | it misses none: if a prefix is a word, some match is reported |
| Redaction.MatchAtLongest | internal/secrets/filter.go:5-9 | for these patterns the preferred match is the longest one |
| Redaction.PatternsAreSafe | internal/secrets/filter.go:5-9 | words of the three patterns are longer than the mark's text and contain no bracket |
| Redaction.PatternsAreUnambiguous | internal/secrets/filter.go:5-9 | every open-ended run of the three patterns ends where the next element begins |
| Redaction.Redact | internal/secrets/filter.go:11-16 | the loop applies the passes in order |
| Redaction.RedactionComplete | internal/secrets/filter.go:11-16 | after all passes no substring of the output matches any pattern, so no pass creates a secret another removed |
| Redaction.RedactFixpoints | internal/secrets/filter.go:11-16 | a text is unchanged iff it holds no secret |
| SecretShapes.AwsKeyIff | internal/secrets/filter.go:6 | the first pattern's words are AKIA and sixteen upper-case letters or digits |
| SecretShapes.GithubTokenIff | internal/secrets/filter.go:7 | the second's are gh, one of pousr, an underscore and at least 36 letters or digits |
| SecretShapes.WebTokenIff | internal/secrets/filter.go:8 | the third's are eyJ and runs of at least 9, 10 and 10 URL-safe characters with dots between |
| SecretShapes.NoSecretIsLeft | internal/secrets/filter.go:11-16 | no such key or token is left anywhere in the output, and a text without one is unchanged |
| SecretShapes.KeyBecomesMark | internal/secrets/filter.go:11-16 | a whole key becomes the mark alone |
| Redaction.RedactIdempotent | internal/replay/replay.go:24-44 | redacting twice is redacting once |
| Redaction.OnlySecretsReplaced | internal/secrets/filter.go:11-16 | a pass replaces words of its pattern by the mark and keeps every other character |
| RankingMetrics.HitsAt | internal/bench/metrics.go:129-144 | the loop counts the distinct non-empty gold ids among the first k results |
| RankingMetrics.PrecisionInRange | internal/bench/metrics.go:8-16 | precision is in [0, 1], and 1 iff the results looked at are distinct gold ids |
| RankingMetrics.RecallInRange | internal/bench/metrics.go:18-23 | recall is in [0, 1] unless the gold ids are all empty, and 1 iff every gold id is found |
| RankingMetrics.RecallOfEmptyIds | internal/bench/metrics.go:18-23 | a concrete input on which recall is 0 / 0 |
| RankingMetrics.HitIff | internal/bench/metrics.go:25-30 | a hit is 1 iff a gold id is among the first k results, iff precision and recall are positive, and 0 otherwise |
| RankingMetrics.MetricsCount | internal/bench/metrics.go:8-30 | precision times the results looked at, and recall times the gold ids, are the distinct gold ids found among the first k |
| RankingMetrics.NothingToCount | internal/bench/metrics.go:8-52 | without a positive cutoff, a result or a gold id every metric is 0 |
| RankingMetrics.MRR | internal/bench/metrics.go:32-43 | the reciprocal of the first gold rank, 0 iff there is none |
| RankingMetrics.NDCGAt | internal/bench/metrics.go:45-71 | the loops compute gain over ideal gain |
| RankingMetrics.NDCGBound | internal/bench/metrics.go:45-71 | without duplicates NDCG is in [0, 1], and 1 iff the first min(gold, cutoff) results are all gold |
| RankingMetrics.OneGold | internal/bench/metrics.go:45-71 | with one gold id NDCG is the discount of its place over the discount of the first place |
| RankingMetrics.NDCGWithinOneIff | internal/bench/metrics.go:45-71 | with duplicates allowed, NDCG is at most 1 for every discount iff gold hits, repeats counted, do not exceed the gold ids |
| RankingMetrics.DuplicatesExceedOne | internal/bench/metrics.go:54-58 | a concrete ranking with a repeat exceeds 1 |
| RankingMetrics.Percentile | internal/bench/metrics.go:156-169 | sorts in place and returns a value with at least p * n values at most it and fewer than p * n below it; the smallest for p up to 0, the largest for p above 1 |
| RankingMetrics.NearestRank | internal/bench/metrics.go:160-168 | in a sorted list at least idx + 1 values are at most the value at idx and at most idx are below |
| CircuitBreaker.Breaker.constructor | internal/embed/ollama.go:136-147 | non-positive settings become 3 failures and two minutes |
| CircuitBreaker.Breaker.Open | internal/embed/ollama.go:149-159 | open iff tripped less than a cooldown ago; asking later resets |
| CircuitBreaker.Breaker.RecordFailure | internal/embed/ollama.go:161-169 | counts, and stamps the opening once the threshold is reached |
| CircuitBreaker.Breaker.RecordSuccess | internal/embed/ollama.go:171-177 | closes the breaker |
| CircuitBreaker.StateIsRecentFailures | internal/embed/ollama.go:149-177 | after any history the state is the count and last time of the failures since the last success or reset |
| CircuitBreaker.OpenIsTripped | internal/embed/ollama.go:149-159 | Open is a function of those failures |
| CircuitBreaker.FailuresTrip | internal/embed/ollama.go:149-169 | failures alone open a new breaker iff there are threshold of them and the last is less than a cooldown old; asking it later starts over |
| BreakerInterleaving.StepKeepsLimit | internal/search/hybrid.go:110-122 | asking, embedding and recording of any caller keep calls waiting or recorded, and nobody joins once the breaker opened in the window |
| BreakerInterleaving.OverlapLimit | internal/search/hybrid.go:110-122 | in every interleaving of at most C callers, a half-open window one cooldown long without a success holds at most threshold + C - 1 embed calls |
| BreakerInterleaving.OverlapReached | internal/embed/ollama.go:149-177 | for every threshold and C some interleaving makes that many calls at one instant |
| BreakerInterleaving.RoundsAreRun | internal/search/hybrid.go:110-122 | callers that do not overlap are the case C = 1, with the same breaker states and embed calls |
| BreakerInterleaving.RateLimit | internal/search/hybrid.go:110-122 | such callers make at most threshold embed calls in a window without a success |
| WorkerPool.StepCounts | internal/bench/perf.go:183-202 | every step of producer or worker keeps the invariant, uses up exactly one remaining step and overwrites no sample |
| WorkerPool.OncePerIndex | internal/bench/perf.go:187-201 | in every interleaving each index is received at most once and written at most once, by its receiver; exactly once when the wait has returned |
| WorkerPool.SamplesStay | internal/bench/perf.go:184-202 | a written sample is the one returned |
| WorkerPool.FinishFills | internal/bench/perf.go:187-199 | a finished index holds the sample its worker reports |
| WorkerPool.NeverStuck | internal/bench/perf.go:187-201 | until the wait returns some step is enabled |
| WorkerPool.BlocksIff | internal/bench/perf.go:183-202 | a run can block for ever iff there are requests and no worker |
| WorkerPool.RunLength | internal/bench/perf.go:183-202 | every run is finite, and has returned iff it took 2 (requests + concurrency) + 2 steps |

## Left out

- RankFusion.FuseRRF: scores are exact reals; ties that float rounding creates or breaks are not modelled.
- VectorSearch.Cosine: float32 conversion and rounding are not modelled; `sqrt` is any function with the two stated laws.
- HybridSearch.Searcher.Hybrid: the full-text matches and their order are a parameter, both streams read one state of the tables, and database errors other than the index's are not modelled; a failing touch is one of those.
- CompactionRuns.WindowBound: holds for requests run whole on a clock that does not run backwards, with no session started in the future and no deletion that undoes the session's compaction; DeletionsBreakBound shows there is no bound without the last condition.
- GateInterleaving.OvershootBound: the session row is assumed there, and the two reads of the needs-compaction check are one step.
- GateWindows.WindowOvershoot: requests arrive in the order of their clock readings, overlapping readings lie within one TTL, and what a save stored is kept.
- CompactionGate.Gate.Stop: the prompt's text and the working directories it lists are not modelled.
- MemoryStore.Store.DecayMemories: its scan and its transaction are one step; writes that come between them are not modelled.
- MemoryStore.Store.UpdateMemory: audit payloads, projects and actors are not modelled, nor the timestamps of delete and supersede events.
- MemoryStore.ToLower: lower-cases ASCII only.
- MemoryStore.DecayedImportance: `exp` is any function with the stated laws; underflow is not modelled.
- Capture.Observations.InsertObservation: SHA-256 is injective and payload compression the identity.
- TranscriptImport.Importer.ImportFile: JSON decoding is a parameter; file errors and database errors other than a session collision are not modelled.
- RankingMetrics.NDCGAt: the discount is any positive strictly decreasing weight.
- RankingMetrics.NDCGWithinOneIff: the equivalence is over all discounts; for the logarithmic one alone the condition is sufficient.
- BreakerInterleaving.OverlapLimit: each method of the breaker is one step, though the source has no lock, so lost updates of its counter are not modelled; the clock runs forward and never reads the zero time.
- WorkerPool.OncePerIndex: the request a worker sends is a single step with an arbitrary sample.
- The stores opened without FTS5: the index tables are always there.
- `sort.SliceStable`, `sort.Slice`: replaced by an insertion sort with the contract callers rely on.
- HybridSearch.SearchMemories: the FTS5 tokenizer, bm25 scoring and `ftsQuery` are foreign; the model takes the matched ids in their order.
- `saveMemoryEmbedding` in internal/mcp/server.go: the breaker round of a search followed by the modelled upsert.
- RecentMemories, MissingEmbeddings, Timeline, FileHistory, reports and summaries: queries without invariants of their own.
- `internal/store/perf_seed.go`: overwrites counters and skips the audit, so it is not one of the store's operations.
- HTTP, CLI, MCP envelopes, logging, backup, configuration files and the embedding client: plumbing.
