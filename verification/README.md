# Stash Curator core: a model and its proofs

The Go core of the Curator plugin builds recommendation lanes, similarity scores and the
background machinery around them. This project models its algorithms and protocols in
Dafny and proves what they promise. Floats are exact reals, tables are maps, sets and
sequences, and a database transaction is one atomic step.

| files | what they model |
|---|---|
| ordering_spec, ordering | `buildOrdering`: lazily invalidated heaps against a naive greedy that recomputes every utility |
| pagerank, walk_graph | the multi-hop walk: its graph, the power iteration, when it stops and how near the result is |
| local_matches, local_match_protocol | the local-match index under hooks, refreshers and backfills |
| links | the incremental external-links cache against the full walk |
| calibration | isotonic rating calibration |
| tag_inheritance, tag_affinity | tag preferences inherited over a possibly cyclic parent graph |
| neighbor_select, content_kernel | the content-neighbor kernel and fixed chunking |
| job_table, job_protocol | the job queue with any number of workers |
| scheduler | next-run times and the tick that fires scheduled tasks |
| json, json_reader, json_sorted | the JSON printers, a reference reader, the canonical form |
| historical, historical_sessions | play/O matching and rebuilt sessions |
| profiles, profile_loaders, profile_compare | the streaming profile loader against the whole one |
| sql_tokens, sql_statements, sql_cuts | the SQL statement splitter, and where it cuts |
| compaction | restartable compaction |
| go_order, sorting, queues, real_sums, rounding, options | string order, sorting, heaps, sums, rounding, missing values |

`dafny verify dfyconfig.toml` checks the whole project.

Where the code keeps updating something in place, the model does too: `Ordering.Run`,
`LocalMatches.Tables`, `JobTable.Table`, `Scheduler.Schedules`, `Json.Builder`,
`ContentKernel.Cells` and `Compaction.Database` are classes, and `PageRank` and the kernel
work on arrays. Each of their methods is tied to a function of the old state, and the
results are lemmas about those functions.

Four promises turned out not to hold of the code. In each case the exact condition is proved:

- A schedule of 48 hours or more with an anchor hour (core/autotasks.go:162-165 says "every
  other day") never runs while the daemon ticks at least once a day: each tick moves the run on.
  `Scheduler.LongFiresAfterGap` says exactly when it does run.
- An entity edited in the very second of the saved watermark, of a kind whose state does not
  change, is missed by the links patch (`Links.UnchangedKindPatches`, `Links.SameSecondEditIsMissed`).
- A statement can be cut inside a string, a comment, a quoted name or a trigger body that opens
  after another statement's end on the same line (`SqlCuts.CutInsideString`,
  `SqlCuts.CutInsideTrigger`). `SqlCuts.CutsAreOutside` says exactly for which scripts no cut
  does: those where every line on which a statement ends leaves none of the four open.
- The compaction record counts rows twice when an attempt ends busy after counting
  (`Compaction.RecountedRow`); it is right exactly when no transaction that finds rows has such an
  attempt (`Compaction.RecordIsRight`, over several runs `Compaction.RecordStaysRight`).

Also, `deepEqual` (core/jsonv.go:119-158) is not symmetric (`JsonSorted.DeepEqualDecides`), and
six hours between active jobs of one type hold whatever the clocks do, which is more than a
monotone clock would give.

Assumptions, besides those in the contracts: `exp` appears as a function with the stated bounds
(`rise`, `saturation`, `damping`), a square root as any function (`root`); hooks succeed and their
revisions are fresh; a fetch returns what the library holds when it is read.

## Model

| member | source | states |
|---|---|---|
| OrderingSpec.BeforeIsTotal | core/materialize.go:39-47 | the heap's order (-utility, scene, lane) decides between any two different keys, and never both ways, so a best pick is unique |
| OrderingSpec.BestMeaning | core/materialize.go:162-185 | a pool's pick is the least eligible candidate by (-utility, scene, lane) with utilities recomputed from scratch; there is none exactly when nothing is eligible |
| OrderingSpec.ChoiceMeaning | core/materialize.go:206-215 | the three pools leave the wanted selector, or repeat a performer of the previous pick, only when forced, and find nothing only when every scene is listed, so the loop's break is never taken |
| OrderingSpec.GreedyListsEveryScene | core/materialize.go:192-239 | the naive greedy lists every scene exactly once, each entry being the choice its prefix leads to |
| OrderingSpec.NeighboursShareOnlyWhenForced | core/materialize.go:173-176 | in a varied ordering two neighbours share a performer only if every candidate not listed yet shares one with the earlier |
| OrderingSpec.UnvariedChoice | core/materialize.go:173 | without variety, adjacency never changes a pick |
| OrderingSpec.ScoreFirstIsSorted | core/materialize.go:240-242 | without variety and rotation, the listing is sorted by (-value, scene, lane) |
| OrderingSpec.CoveredShareGrows | core/materialize.go:269-278 | covering one more feature adds exactly that feature's share of the candidate's content mass, whatever was covered before |
| OrderingSpec.CoveredShareIsAShare | core/materialize.go:147-159 | a covered share stays between 0 and 1 |
| OrderingSpec.RotationIsAnyFunction | core/materialize.go:97-106 | whatever selector a function of the position asks for, the greedy is the one of the rotation that lists the function's values, one per scene, so the results below are about every such function |
| Ordering.Run.Push | core/materialize.go:107-115 | one entry, at the key's current version and utility, joins the heap of each of its selectors and no other |
| Ordering.Run.PushAll | core/materialize.go:116-118 | after the first pushes every candidate is current in all its heaps |
| Ordering.Scan | core/materialize.go:162-179 | discarding stale entries and setting blocked ones aside, the loop of pop keeps every live key's current entry among the heap and the deferred entries, and what it chooses is the best |
| Ordering.FirstIsBest | core/materialize.go:177-178 | the first entry that is current and not blocked is the least eligible candidate of its selector by from-scratch order |
| Ordering.Run.Pop | core/materialize.go:162-185 | pop gives the best eligible candidate of a selector, or none only if nothing is eligible, and leaves all heaps current for every other key |
| Ordering.Run.Choose | core/materialize.go:206-212 | the three pops give what the naive choice over all candidates gives |
| Ordering.PerformerShown | core/materialize.go:244-257 | penalizing a new performer's candidates once gives the utilities that recomputing from everything seen gives |
| Ordering.StudioShown | core/materialize.go:258-268 | the same for a studio group |
| Ordering.FeatureCovered | core/materialize.go:269-279 | subtracting a feature's indexed shares gives the covered shares and utilities that recomputing gives |
| Ordering.Run.ShowPerformer | core/materialize.go:244-257 | marking a performer keeps all maintained utilities and shares equal to the recomputed ones and reports every key it changed |
| Ordering.Run.ShowStudio | core/materialize.go:258-268 | marking a studio group keeps them equal to the recomputed ones |
| Ordering.Run.CoverFeature | core/materialize.go:269-279 | covering a feature keeps them equal to the recomputed ones |
| Ordering.ChangesStayMarked | core/materialize.go:243-279 | keys whose utility did not change still have their current entries |
| Ordering.Run.Repush | core/materialize.go:280-286 | bumping versions and pushing the changed live keys makes every heap current again; older entries have become stale |
| Ordering.Indexes | core/materialize.go:133-161 | the performer, studio and feature indexes hold exactly the candidates that have each performer, studio group or content feature |
| Ordering.ContentTotal | core/materialize.go:147-151 | the total a share is divided by is the candidate's whole content mass, whatever the order of summing |
| Ordering.Run.EmitIsEntryFor | core/materialize.go:216-237 | the entry read off the maintained state is the entry computed from the picks alone |
| Ordering.UtilityIsAccountedFor | core/materialize.go:217-237 | every entry's utility is lane value minus performer, studio and content penalties plus the uncovered-content bonus |
| Ordering.Run.Round | core/materialize.go:193-286 | one round picks what the naive greedy picks and leaves the state that the picks lead to |
| Ordering.Order | core/materialize.go:186-289 | for every candidate set and every cyclic rotation of wanted selectors, the lazy heaps produce the naive greedy's ordering, entry by entry |
| Ordering.RotationFor | core/materialize.go:97-106 | the wanted selector of each position is the lane pattern, or rotates through the distinct dimensions, facets or entities present, in order |
| Ordering.BuildOrdering | core/materialize.go:59-289 | the whole function returns the naive greedy ordering of its candidates, later duplicates of a key replacing earlier ones |
| Ordering.OrderingListsEveryScene | core/materialize.go:188-192 | the result lists every candidate scene exactly once and nothing else |
| GoOrder.SortedDistinct | core/materialize.go:292-303 | the distinct values of a list, strictly ascending: repeats are dropped and nothing else |
| PageRank.Prepare | core/multi_hop.go:69-107 | nodes in ascending order, each node's targets and weights in ascending target order, and the seed's position |
| PageRank.Iteration | core/multi_hop.go:109-131 | the scattering loops over a fresh vector compute the matrix step, and the error is the L1 distance to the last vector |
| PageRank.ScatterIsStep | core/multi_hop.go:116-127 | pushing along edges position by position equals pulling: damped inflow plus the seed's dangling mass and teleport |
| PageRank.StepKeepsMass | core/multi_hop.go:111-127 | one iteration of a stochastic walk keeps the total mass at 1, dangling mass included |
| PageRank.IteratesAreDistributions | core/multi_hop.go:100-135 | every iterate is non-negative with total mass exactly 1 |
| PageRank.StepContracts | core/multi_hop.go:108-127 | one iteration brings any two vectors together by the damping factor in L1 |
| PageRank.GapShrinks | core/multi_hop.go:128-131 | the gap between consecutive iterates is at most 2 times damping to the number of iterations |
| PageRank.DampingPower | core/multi_hop.go:20-22 | 0.85 to the 86th power is below the tolerance |
| PageRank.CapIsNeverReached | core/multi_hop.go:132-134 | with the default constants and two or more nodes the stopping test fires by iteration index 86: the 100-iteration cap never ends the loop |
| PageRank.StoppedNearFixedPoint | core/multi_hop.go:132-134 | for any damping and tolerance, a stopped iterate is within damping/(1-damping) * N * tolerance of any fixed point |
| PageRank.ResultNearFixedPoint | core/multi_hop.go:132-140 | with the defaults the returned vector is within 0.85/0.15 * N * 1e-6 in L1 of any fixed point |
| PageRank.LaterIteratesStayNear | core/multi_hop.go:132-134 | for any damping and tolerance, every later iterate stays within damping/(1-damping) * N * tolerance of the one at which the test stopped the loop |
| PageRank.ResultNearLaterIterates | core/multi_hop.go:132-140 | with the defaults no number of further iterations would lead further than 0.85/0.15 * N * 1e-6 away from the returned vector |
| PageRank.FixedPointIsUnique | core/multi_hop.go:108-127 | a stochastic walk has at most one fixed point |
| PageRank.Iterations | core/multi_hop.go:108-135 | the loop returns the iterate of the first iteration whose error passes the test, or of the last allowed one |
| PageRank.PageRank | core/multi_hop.go:62-141 | the returned map holds, for every node and no other key, that iterate's value |
| WalkGraph.SetEdgeHolds | core/multihop.go:386-393 | a graph that holds exactly some links holds exactly one more after an edge is set; its source becomes a node when it is none |
| WalkGraph.Expand | core/multihop.go:327-348 | the frontier loop ends, cycles included; what it adds is exactly the similar-performer links of every performer that the seeds lead to and the scenes of those that are no seeds |
| WalkGraph.NormalizeEdges | core/multihop.go:398-417 | every weight is divided by the row's total, or the row is emptied exactly when the total is not positive |
| WalkGraph.Finalize | core/multihop.go:354-384 | the finished graph is the base links and exactly their studio and tag bridges, every edge target a node, every row the normalized bridged row |
| WalkGraph.GraphFor | core/multihop.go:257-292 | a scene or performer seed's graph is that of the seed's own links and of all performers reached, bridged and normalized; an unknown seed's is empty |
| WalkGraph.GraphIsWalkable | core/multihop.go:257-417 | such a graph has every target as a node, rows that are empty or sum to 1, no negative weight when the tables have none, and the seed unless it is empty |
| PageRank.GraphIsStochastic | core/multihop.go:354-417 | so what pagerank receives is a stochastic walk |
| WalkGraph.ScoresReach | core/multihop.go:241-253 | scores over such a graph are a probability vector near every fixed point of the walk and near every later iterate |
| WalkGraph.WalkFrom | core/multihop.go:241-253 | there are no scores for fewer than two nodes, else they are those that pagerank's iteration over the seed's graph stops at, one for each node, and for non-negative tables they have all those properties |
| LocalMatches.WantedIDs | core/localmatches.go:61-67 | the wanted ids are exactly the non-empty ids under the configured endpoint |
| LocalMatches.WantedPhashes | core/localmatches.go:68-76 | the wanted hashes are exactly those of the scene's phash fingerprints |
| LocalMatches.FactsAreUnique | core/localmatches.go:55-76 | a scene determines its facts |
| LocalMatches.Tables.ReplaceKind | core/localmatches.go:88-95 | deleting what is not wanted and inserting what is missing leaves exactly the wanted rows of that scene and kind, all others untouched |
| LocalMatches.Tables.WriteScene | core/localmatches.go:55-98 | the scene's rows become exactly its facts, other scenes' rows stay |
| LocalMatches.Tables.CommitBackfill | core/localmatches.go:147-168 | an index already ready is left alone, else it becomes exactly the fetched scenes' facts and ready |
| LocalMatches.Tables.CommitRefresh | core/localmatches.go:242-270 | exactly the items whose revision is unchanged are refreshed, or deleted when not found, and lose their pending row |
| LocalMatches.AllRowsWithOneMore | core/localmatches.go:157-164 | writing a scene after others gives the rows of the view extended by it |
| LocalMatchProtocol.RefreshedAllAt | core/localmatches.go:242-267 | a committed batch changes a scene's rows only when it also takes its pending row, and then to the fetched facts |
| LocalMatchProtocol.BackfilledAt | core/localmatches.go:147-168 | a committed backfill changes rows only if the index was not ready |
| LocalMatchProtocol.StepKeeps | core/localmatches.go:100-273 | every step of any hook, backfill or refresher keeps the invariant that a ready index is right wherever no hook or pending row is outstanding |
| LocalMatchProtocol.RunKeeps | core/localmatches.go:100-273 | it holds in every reachable state |
| LocalMatchProtocol.IndexIsCurrent | core/localmatches.go:147-267 | in every interleaving of mutations, hooks, refreshers and backfills, a ready scene with no hook due and no pending row has index rows equal to its current facts |
| LocalMatchProtocol.QuiescentIndexIsLibrary | core/entity_hook.go:74-91 | when nothing is due or pending, the whole index is the library's facts |
| LocalMatchProtocol.NothingIsLost | core/localmatches.go:245-265 | a pending row goes away only by a commit that made the index right for it, or with another hook still due |
| LocalMatchProtocol.RefreshCatchesUp | core/localmatches.go:172-273 | a refresher that lists the queue and gets to its end while the library is quiet leaves nothing pending, whatever other processes did meanwhile, and with no hook due the index is then the library's |
| LocalMatchProtocol.CanCatchUp | core/localmatches.go:106-273 | from every reachable state one process at rest can, by its own backfill and refresh alone, bring the index to be ready with nothing pending, and with no hook due to be the library's |
| LocalMatchProtocol.HookSurvivesOlderBatch | core/localmatches.go:252-255 | a batch listed before a hook queued its scene commits without touching that scene: its row stays queued as the hook or a later one left it, and its index rows stay |
| Calibration.FillBuckets | core/modelbuild.go:134-154 | each bucket accumulates the weights and weighted outcomes of exactly the rated scenes that fall in it |
| Calibration.Bucket | core/modelbuild.go:145-150 | ratings 0 to 100 go to the nearest multiple of ten, lower ones to the first bucket and higher ones to the last |
| Calibration.MergeKeepsBlock | core/modelbuild.go:162-168 | merging neighbours keeps a block's total, weight and optimality condition |
| Calibration.Push | core/modelbuild.go:160-170 | adding a bucket keeps a stack of blocks with strictly rising means that covers all buckets so far |
| Calibration.PoolAdjacent | core/modelbuild.go:155-178 | the block loop gives, for any number of buckets and positive weights, a non-decreasing fit with non-negative partial residuals that vanish at every rise |
| Calibration.PooledIsOptimal | core/modelbuild.go:133-179 | no non-decreasing vector has a smaller weighted squared error than such a fit, by at least its weighted distance from it |
| Calibration.PooledIsTheOnlyOptimum | core/modelbuild.go:133-179 | and no other one has as small an error |
| Calibration.RatingCalibration | core/modelbuild.go:133-179 | the result is that fit of the shrunk bucket sums: eleven non-decreasing values |
| Calibration.CalibratedRatingRises | core/modelbuild.go:183-197 | with a non-decreasing calibration, the calibrated rating never falls as the rating rises |
| Calibration.CalibratedRatingBounds | core/modelbuild.go:183-197 | it stays within -1..1 and never below the plain line |
| Links.UpdatedAfterAscends | core/graphql.go:84-110 | what the changed-entities query reports is in ascending id order |
| Links.ReplaceOrAppend | core/links.go:447-454 | one changed record replaces the record of its id in place or is appended |
| Links.MergeLinkRecords | core/links.go:439-464 | merging gives the ascending records of all ids, the changed one where there is one |
| Links.AscendingSubset | core/links.go:426-431 | ascending records that are all among as many ascending records are those records: equal counts force equality |
| Links.ChangedKindPatches | core/links.go:388-431 | for a kind whose state changed, a merged list whose length is the current count equals the full walk, for every history of edits and deletions |
| Links.UnchangedKindStays | core/links.go:388-389 | for a kind whose state did not change, the merge changes nothing and the count passes |
| Links.UnchangedKindPatches | core/links.go:388-403 | that is right exactly when every entity updated in the watermark's own second is among the saved records as it is |
| Links.QuietSecondIsEnough | core/links.go:394-400 | it is enough that no edit after the snapshot fell into that second |
| Links.SameSecondEditIsMissed | core/links.go:388-389 | otherwise an edit can be missed: a history whose accepted patch is not the walk |
| Links.WalkLinkRecords | core/links.go:292-353 | the pages together are the id-ordered records of each kind |
| Links.FetchChanged | core/links.go:405-425 | the paging loop collects all reported records, or gives up exactly when they do not fit its page limit |
| Links.IncrementalLinkRecords | core/links.go:364-435 | the patch is accepted exactly when there are saved records, the edits fit the pages and every merged count is the current count |
| Links.AcceptedPatchIsWalk | core/links.go:359-364 | under the quiet-second condition an accepted patch equals the full walk as sequences, for all three kinds |
| Links.PutLink | core/links.go:236-245 | a known key keeps its place and a new one goes last; its value is the first or the last one put, as asked |
| Links.BuildSceneLinks | core/links.go:202-216 | each id maps to its external id, each external id to its last scene, each hash to its first scene, and the keys of each map come in the order in which the records first name them |
| Links.BuildLinks | core/links.go:217-226 | performers and studios map to their external ids, in the order of the records |
| Links.OnceInFirstOrder | core/links.go:199-201 | the order of first occurrence: each key once, by ascending place of its first occurrence |
| Links.BuildExternalLinks | core/links.go:202-234 | all five maps of the links object are built so |
| Links.PatchedLinksAreTheWalks | core/links.go:199-234 | the object built from an accepted patch is, pair by pair and in order, the one built from the walk |
| NeighborSelect.WorseIsAnOrder | core/content.go:71-76 | the heap's order is a strict weak order |
| NeighborSelect.RankingIsRanked | core/content.go:66-68 | ranking by (-weight, id) orders candidates of distinct ids strictly and keeps them all |
| NeighborSelect.FirstOfInsert | core/content.go:434-446 | only the kept prefix matters for the next kept prefix |
| NeighborSelect.Offer | core/content.go:441-447 | a bounded heap with the worst on top holds the first k of all candidates offered so far |
| NeighborSelect.PopAll | core/content.go:449-452 | popping gives the ranking worst first |
| NeighborSelect.Drain | core/content.go:449-456 | after the reversal the kept neighbors are in rank order |
| ContentKernel.SparseFromMap | core/content.go:335-348 | a sparse row holds each entry of the vector once, under its column number |
| ContentKernel.BuildColumns | core/content.go:285-293 | each column lists exactly the labeled positions whose vector has the name, each once, ascending |
| RealSums.SumOverTakesOut | core/content.go:421-433 | a sum over names, such as a dot product, does not depend on the order in which they are met |
| ContentKernel.Cells.Touch | core/content.go:424-431 | one column entry starts or extends its cell, depending on the stamp, and touches no other |
| ContentKernel.TouchKeepsPartly | core/content.go:422-432 | so the cells stay equal to the dot products and shared counts over the names handled so far |
| ContentKernel.Accumulate | core/content.go:415-433 | although stamps are never cleared, after a row a cell carries its stamp exactly when a name is shared, and then holds the naive dot product and count |
| ContentKernel.Select | core/content.go:434-456 | selection over the cells gives the first NeighborCount of the qualifying candidates, the row's own scene excluded |
| ContentKernel.NeighborsMeaning | core/content.go:434-456 | that list is ranked, holds qualifying candidates only, and a candidate left out ranks after a full list |
| ContentKernel.RunChunk | core/content.go:404-463 | a worker's rows are right and it writes no other slot |
| ContentKernel.ChunksPartition | core/content.go:379-401 | every row is in the chunk of exactly one worker |
| ContentKernel.Kernel | core/content.go:364-471 | row i is right for every number of threads and every order in which the workers run |
| ContentKernel.ContentNeighborEvidence | core/content.go:236-323 | every scene with a vector gets the ranked labeled neighbors by naive similarity, with their outcomes |
| ContentKernel.ParallelChunks | core/parallel.go:17-50 | cutting into chunks and joining in chunk order gives the serial result for every number of threads, nothing when there are no items |
| JobTable.Table.SelectOldest | core/daemon.go:955-964 | the row selected is the claimable one no claimable row was queued before; none only if none is claimable |
| JobTable.Table.Claim | core/daemon.go:951-993 | claiming makes exactly the oldest claimable row running, owned, alive and without a cancel request |
| JobTable.Table.Recover | core/daemon.go:584-590 | the two statements together fail exactly the running rows silent for five minutes, or without heartbeat and six hours old |
| JobTable.Table.Beat | core/daemon.go:1026-1041 | a tick renews a running row's heartbeat and ends it if its cancel was requested |
| JobTable.Table.Cancel | core/ops.go:234-288 | a queued job ends at once, a running one is flagged, anything else is refused |
| JobTable.Table.EnqueueAuto | core/autotasks.go:42-77 | a job is added exactly when no active job of the type started within six hours |
| JobTable.Table.EnqueueTask | core/tasks.go:83-115 | the returned job is active and of the type, and after an explicit request it is running or claimable even while automatic jobs are deferred |
| JobProtocol.StepMovesRows | core/daemon.go:943-1042 | no step loses a row, moves one backwards or changes a terminal one |
| JobProtocol.RowsOnlyAdvance | core/daemon.go:943-1042 | over any run, with any number of workers, rows go from queued to running to one terminal state that nothing changes again |
| JobProtocol.ClaimedAtMostOnce | core/daemon.go:967-983 | no job is claimed twice in a run |
| JobProtocol.OneOwner | core/daemon.go:967-983 | no two workers ever hold the same job |
| JobProtocol.CompletedByItsOwner | core/tasks.go:212-217 | a complete row was completed, while running, by the worker that it names as its owner |
| JobProtocol.LateStepIsIgnored | core/tasks.go:196-217 | a worker that comes back to a job ended in the meantime changes nothing by its heartbeat, its look at the cancel flag or its result |
| JobProtocol.ShutDownEndsItsJobs | core/daemon.go:943-946 | shutting a worker down ends the jobs it had claimed for good and leaves every job that another worker claimed as it was |
| JobProtocol.CancelIsNotLost | core/ops.go:264-266 | a cancel request of a running job stays until the job has ended |
| JobProtocol.RequestedJobStops | core/daemon.go:1030-1040 | the first look at the flag after the request ends the job |
| JobProtocol.ActiveJobsAreSpaced | core/autotasks.go:55-64 | two active jobs of one type always started at least six hours apart, whatever the processes' clocks did |
| JobProtocol.BeatingJobIsNotRecovered | core/daemon.go:585-587 | a job whose signs of life are less than five minutes apart is never failed by orphan recovery |
| JobProtocol.SilentJobIsFailed | core/daemon.go:585-590 | recovery fails a running job with a heartbeat exactly when that is five minutes old, and nothing revives it |
| Json.Lookup | core/jsonv.go:67-77 | the first member of the key, or null |
| Json.Set | core/jsonv.go:93-104 | after set the key reads as the value, every other key as before; existing keys keep their places and distinct keys stay distinct |
| Json.WriteJsonString | core/jsonv.go:428-461 | the writer appends the string's escaped text |
| Json.WriteJson | core/jsonv.go:280-315 | the writer appends the value's compact text |
| JsonReader.CharRoundTrip | core/jsonv.go:430-458 | every code point's escape is read back as that code point, surrogate pairs included |
| JsonReader.StringRoundTrip | core/jsonv.go:428-461 | a written string is read back, and exactly up to its closing quote |
| JsonReader.ValueRoundTrip | core/jsonv.go:280-315 | a written value is read back and nothing more is consumed, whatever text follows that does not continue a number |
| JsonReader.DocumentRoundTrip | core/jsonv.go:266-270 | a reader of the RFC 8259 grammar recovers every value from its compact text |
| JsonReader.TextIsInjective | core/jsonv.go:266-270 | two values never print the same compact text |
| JsonReader.TextIsAscii | core/jsonv.go:425-427 | whatever the strings hold, the text is ASCII only |
| JsonSorted.WriteJsonSorted | core/jsonv.go:387-415 | the sorting writer prints the compact text of the value with members in key order at every depth |
| JsonSorted.SortedKeysAscend | core/jsonv.go:400-401 | members are written in ascending key order |
| JsonSorted.SortedIsCanonical | core/jsonv.go:387-415 | distinct-key values have one key-sorted form exactly when they are equal up to member order at every depth |
| JsonSorted.SortedTextDecides | core/jsonv.go:272-278 | two such values print the same sorted text exactly when they are equal up to member order |
| JsonSorted.DeepEqualDecides | core/jsonv.go:119-158 | deepEqual is equality up to member order exactly where no null member of the left is missing on the right |
| JsonSorted.DeepEqualIsNotSymmetric | core/jsonv.go:147-150 | a missing key reads as null, so deepEqual can hold one way only |
| Historical.PairsInWindow | core/historical.go:140-147 | the candidates are exactly the pairs within the window |
| Historical.MatchOs | core/historical.go:134-172 | the result is injective, within the window and stable: every pair in the window has an end matched by a pair no later in (distance, play, o) |
| Historical.StableIsMaximal | core/historical.go:160-170 | no play and O within the window are both left over |
| Historical.StableIsUnique | core/historical.go:148-170 | there is only one stable matching |
| HistoricalSessions.CollapseSignals | core/historical.go:92-123 | the primary signal is the strongest, then the latest, then the first; same-sign signals support it |
| HistoricalSessions.PrimaryIsUnique | core/historical.go:96-103 | signals have one primary |
| HistoricalSessions.ReconstructHistory | core/historical.go:199-273 | one session for each ordered play with its own id, times, O and collapsed evidence, one standalone outcome for each unmatched O |
| HistoricalSessions.HistoryIgnoresOrder | core/historical.go:201-216 | the result does not depend on the order of its inputs |
| HistoricalSessions.EveryOOnce | core/historical.go:225-271 | every O is carried by exactly one session or stands alone exactly once |
| HistoricalSessions.OWins | core/historical.go:236-244 | a session that carries an O has the O's outcome as primary, at the O's time, whatever viewing or repeat evidence it has |
| Sorting.SortIgnoresOrder | core/historical.go:201-216 | sorting by a total order forgets the input's order |
| Rounding.PyRoundIsNearest | core/jsonv.go:620-632 | rounding gives a nearest integer, and the even one of two |
| TagInheritance.Round | core/modelbuild.go:1396-1409 | one round collects the unseen tags' answers once each and all their parents |
| TagInheritance.NextGeneration | core/modelbuild.go:1391-1410 | the next generation is what the parents of this one add that has no shorter walk |
| TagInheritance.NothingBeyond | core/modelbuild.go:1394-1410 | beyond an empty generation there is nothing to reach |
| TagInheritance.NearestSources | core/modelbuild.go:1391-1415 | on any graph, cycles included, the loop ends; its sources are all answered tags of the first generation that has any, each once, and none only if no answered tag is an ancestor |
| TagInheritance.NearestIsUnique | core/modelbuild.go:1391-1415 | the graph and the answers determine the sources |
| TagAffinity.InheritOne | core/modelbuild.go:1386-1446 | a tag's feature becomes the blend with the mean of its nearest answers, or stays; no other feature changes |
| TagAffinity.InheritTagPreferences | core/modelbuild.go:1347-1449 | the tags take their turns in ascending order, each inheriting from its nearest answers on top of what the tags before it left in its feature; features of no tag stay |
| TagAffinity.AloneInherits | core/modelbuild.go:1386-1449 | a tag that shares its feature with none ends with what its own nearest answers give, whatever the others do |
| TagAffinity.BlendIsBetween | core/modelbuild.go:1438-1445 | the blend lies between what was learned and what the ancestors say, within -1..1 without clamping; confidence and support only rise |
| Scheduler.NextAnchoredRun | core/autotasks.go:166-182 | the loop over the day's slots finds the next step in closed form |
| Scheduler.OccurrenceIsNextAnchor | core/autotasks.go:186-193 | the next occurrence of the hour is a day after the last instant at that hour, never now |
| Scheduler.NextIsLeastSlot | core/autotasks.go:162-182 | below 48 hours the next run is the least slot of the anchored grid after now |
| Scheduler.NextIsStable | core/autotasks.go:233-245 | recomputing it at any moment before it is due gives the same slot |
| Scheduler.NextIsAhead | core/autotasks.go:155-160 | the next run is always after now |
| Scheduler.Schedules.TickOne | core/autotasks.go:217-261 | a task's turn changes its row and fires as specified, and no other row |
| Scheduler.Schedules.RunDue | core/autotasks.go:211-262 | every enabled task has its turn and disabled ones are left alone |
| Scheduler.FirstEnableWaits | core/autotasks.go:223-229 | a first enable never fires at once |
| Scheduler.FiresForEachSlot | core/autotasks.go:233-261 | below 48 hours a tick fires exactly when a slot of the grid came since the tick before |
| Scheduler.EverySlotIsServed | core/autotasks.go:233-261 | every slot between two ticks is fired by the first tick at or after it |
| Scheduler.LongFiresAfterGap | core/autotasks.go:177-181 | from 48 hours on, a tick fires exactly when it comes whole days after the anchor following the tick before |
| Scheduler.LongNeverFires | core/autotasks.go:233-245 | so it never fires while ticks are less than a day apart |
| Scheduler.EveryOtherDayIsNotKept | core/autotasks.go:162-165 | hourly ticks never run an every-other-day schedule |
| Scheduler.RelativeFiringsAreSpaced | core/autotasks.go:217-261 | without an anchor two firings are at least the interval apart |
| ProfileLoaders.EntrySquares | core/expand.go:231-235 | where no name comes twice, the squares of a block's entries are those of its rows |
| ProfileLoaders.FinalizeNorms | core/expand.go:221-237 | every non-numeric block gets the root of the sum of its squares, numeric ones get none |
| ProfileLoaders.LoadPerformerProfiles | core/expand.go:2174-2201 | the whole loader holds every entry of every row and the norms of all its rows |
| ProfileCompare.FlushNorm | core/expand.go:2216-2221 | the flush moves the running norm into its block, so that all squares are in the table |
| ProfileCompare.Take | core/expand.go:2222-2255 | whatever profile or block a row belongs to, kept entries and squares stay those of the rows so far |
| ProfileCompare.LoadProfilesComparedTo | core/expand.go:2208-2273 | for any order of rows the streaming loader keeps the target's names, whole numeric and augmentation blocks, and the full norms |
| ProfileCompare.ComparisonIsTheSame | core/profiles.go:53-127 | comparing the target with a trimmed profile gives block by block what comparing it with the whole profile gives |
| SqlTokens.CompleteStatement | core/migrations.go:104-194 | the one-pass scanner decides whether the text, read as tokens, has a semicolon that ends a statement outside comments, quoted texts and trigger bodies |
| SqlStatements.CompleteGrows | core/migrations.go:101-104 | a complete text stays complete when anything is appended |
| SqlStatements.SplitStatements | core/migrations.go:198-224 | segments and a blank tail make up the script; each segment is complete and no shorter run of its lines is; statements are the segments trimmed, never empty; an incomplete tail is an error |
| SqlStatements.SplitIsUnique | core/migrations.go:198-224 | a script has only one such split |
| SqlCuts.CutsAreOutside | core/migrations.go:202-219 | no cut falls inside a comment, a string, a quoted name or a trigger of the script exactly when no line on which a statement of the script ends leaves one open |
| SqlCuts.CutsAreBetween | core/migrations.go:202-219 | every cut falls between two statements of the script exactly when no line on which a statement ends begins another one that it leaves open |
| SqlCuts.TokensAreKept | core/migrations.go:202-219 | with such cuts the segments read alone are the script read as a whole |
| SqlCuts.SegmentEndsStatement | core/migrations.go:202-219 | and the semicolon that completes a segment is one that ends a statement of the script |
| SqlCuts.CutInsideString | core/migrations.go:202-219 | otherwise a cut can fall inside a string that opens on the line of a statement's end, and the string's semicolon completes a second segment |
| SqlCuts.CutInsideTrigger | core/migrations.go:179-182 | or inside a trigger that opens there, and a semicolon of its body, which ends no statement, completes a second segment |
| Compaction.Database.Batch | core/compact.go:295-330 | at most one run of the closure commits; it deletes at most a batch of one generation's rows; the counter also keeps what rolled-back runs added |
| Compaction.Database.Compact | core/compact.go:205-404 | each run deletes, target by target, what its arguments, the rows it finds and the failing attempts prescribe; whether it dies, is busy or ends, with which record, status and remaining rows, is a function of these; other generations' rows are untouched |
| Compaction.ScheduleAt | core/compact.go:291-355 | transaction i on a target deletes a full batch or the rest, and nothing exactly when it is the target's last: the schedule in closed form |
| Compaction.ScheduleLength | core/compact.go:291-355 | there are no other transactions |
| Compaction.UndisturbedFinishes | core/compact.go:205-404 | a run without limit, death or failing transaction deletes every row and says complete |
| Compaction.UnfinishedIsLimited | core/compact.go:334-345 | a run that ends with rows left has deleted as many batches as its limit allows, and at least one |
| Compaction.RecordIsRight | core/compact.go:295-330 | a run adds to the record exactly what it deletes if and only if no transaction that finds rows has an attempt rolled back after counting them |
| Compaction.Runs | core/compact.go:259-274 | any series of interrupted, limited or failed runs of one fingerprint leaves the counts that their plans prescribe, one run after the other; recorded plus remaining rows moves by what is counted twice and nothing else, and an undisturbed last run leaves nothing and says complete |
| Compaction.RecordStaysRight | core/compact.go:259-274 | over such a series nothing is counted twice if and only if no run has a transaction that finds rows and an attempt rolled back after counting them |
| Compaction.RecountedRow | core/backups.go:573-583 | a whole run over one row with one busy attempt after counting says complete and records two rows |
| Compaction.DeletingCounts | core/compact.go:299-307 | deleting target rows lowers the remaining count by as many and no other row is gone |

## Left out

- Floating-point rounding, overflow, NaN and the order of summation: reals throughout.
- `container/heap` is a bag from which a least element is taken, `sort` an insertion sort; their own code is not part of this model.
- SQLite, connections, WAL, busy handling (except withTxn's retries in compaction), PRAGMAs, files and processes.
- HTTP, GraphQL, retries of fetches and page shifts during deletes; a page is read from a fixed library.
- Goroutine interleavings inside one chunk of the kernel: workers share nothing but their own result slots; any order of whole workers is covered.
- The 32-bit wrap-around of the kernel's stamps and counts: a worker would need 2^31 rows.
- Progress lines and explanation texts, the JSON form of penalties and bonuses, the history and live-cooldown penalties, which buildOrdering leaves at 0.
- Slate selection with history (core/slate_greedy.go:174-526) and materializeLanes: not part of this model. A candidate's dimension, facet and entity are fields of the candidate.
- Ordering.BuildOrdering: the exploration argument of the lane pattern is always 0 there, so only that pattern is modelled.
- Folding of endpoint strings and normalization of phash values: predicates of the scene in the local-match model.
- The sync client's own writes of index rows outside hooks, backfill and refresh.
- localSceneLinks: a grouped SELECT over the index.
- Numeric ids as strings and their fallback to string order in the links cache: ids are numbers there.
- WalkGraph.Finalize: where two links join the same two nodes (a target listed twice, or ids that collide), it is left open which link's weight the edge has. The model iterates over a snapshot of the nodes; Go may also visit a bridge node added meanwhile, which is no scene and is skipped.
- Reading a seed scene's tags and the via explanation of a walk.
- parseJSON (a third-party parser) and the re-rendering of float tokens: a number node carries the text written for it.
- Invalid UTF-8 in Go strings; characters are code points.
- JsonSorted.WriteJsonSorted: for an object with a key twice, which of the two comes first is left open by sort.Slice; the model keeps their order.
- sha256 in stable event ids: an id is the tuple that is digested.
- historicalRebuild: the rows are read from and written to tables.
- Daylight saving: days have 24 hours and the zone is a fixed offset.
- Modes other than scheduled ones in schedulerTick, the stay-alive test, and job execution itself: a job ends by a step guarded by its state.
- The model-update tracker that recoverOrphanJobs also marks.
- Progress, summaries and error texts of job rows.
- The numeric block similarity and the penalties of performer similarity: any function of the two whole blocks.
- ProfileLoaders.LoadPerformerProfiles: rows are unique per performer, block and name, as the table's key makes them; a repeated name would count twice in the streaming norm only.
- Other entries of a feature's context object, which inheritance keeps.
- preferenceVectors: the vectors are inputs of the content model.
- Which generations compaction may delete (core/compact.go:105-192) and the byte counts of its report.
- A COMMIT that fails after it took effect: its outcome is ambiguous to withTxn too.
