# memorial: a verified model of the temporal graph store and its event log

memorial keeps a graph whose nodes and edges carry two times (when something was valid and when it was
recorded) and a worldline. Deltas are filled row by row, published as immutable snapshots, and branched into
chains of layers. Queries are pipelines that are rewritten statically and then executed with temporal indices,
histograms and adjacency maps. Beside the graph there is an append-only event log with replay, checkpoints, a
history of reinterpreted memories, and a canonical hash.

This project states what all of that is for, and proves it.

**The query engine is a fast form of something simple.** `Flatten` lists all rows and edges of a chain; the
naive evaluator in `Query.dfy` scans that list, filters it, follows edges, takes a prefix of a stable sort, and
limits. `Executors.ExecuteOptimized` (rewriting, cost decisions, temporal and property indices, recursion
through the layers) returns exactly the naive result: the same identifiers in the same order and with the same
repetitions, the same projected values, or the same error. The proof goes through each part:
the temporal index returns what a scan returns whichever path it takes, layered lookups are lookups in the
flat list, narrowing by an index only removes what the filter would reject whatever the estimate says, and the
rewrites keep the meaning on every graph.

**The event log is a small state machine.** Every reachable log has monotone recorded times and backward
references; bitemporal lookups do not change when later events arrive; revision chains visit every revision once;
replays can be cut anywhere; the byte encoding of a log can be decoded in one way only.

## Layout

| file | content |
|---|---|
| `Common.dfy`, `Sequences.dfy`, `Values.dfy`, `StableSort.dfy` | results, identifiers and times; filtering and counting; property values; what a stable sort is |
| `NodeStore.dfy`, `NodeTable.dfy`, `Histogram.dfy` | node rows with rollback; the temporal indices; histograms and their error |
| `AdjacencyStore.dfy`, `DeltaStore.dfy` | edges with rollback and degree statistics; a whole delta |
| `FlatGraph.dfy`, `Snapshot.dfy`, `SnapshotQueries.dfy`, `Traversal.dfy`, `TransactionTime.dfy` | the flat graph; layers and publishing; candidates and adjacency through layers; both directions of adjacency; what a branch can show too early |
| `TraversalEstimate.dfy` | what a traverse step emits and when the planner's estimate covers it |
| `SmallGraph.dfy`, `Branch.dfy`, `QueryRun.dfy` | runs through the store: branches with rows and edges of their own, and queries from the first append to the answer |
| `Query.dfy`, `Optimizer.dfy`, `Executor.dfy` | expressions and the naive evaluator; the rewrites; the executor |
| `EventLog.dfy`, `MemoryHistory.dfy`, `Replay.dfy`, `CanonicalHash.dfy` | the log; memory revisions; replay and checkpoints; encoding and digest |

Classes stand for the objects that are updated in place (`NodeStore`, `DeltaNodeStore`, `AdjacencyStore`,
`DeltaStore`, `EventLog`, `MemoryHistory`, `CanonicalHasher`); a published snapshot can no longer change and is
a value. An allocation that fails is modelled by a `budget`: the number of pushes that succeed before one
throws. The checksum of an event is an arbitrary function of what it is computed from.

## What turned out differently than one might expect

- The histogram bound (the error is at most the population of the threshold's own bucket) holds for every
  floating-point column but not for integral ones: bucket midpoints are truncated before they are compared. It
  holds on exactly the integral ranges that are `TruncationSafe`, which includes every range of at least 32 and
  excludes, for instance, 0 to 1 (`SafeTruncationBound`, `UnsafeTruncationFails`, `WideRangeSafe`,
  `TruncationCounterexample`). Query answers are unaffected: `Narrow` is correct for every estimate.
- Rows inherited from a layer are judged at that layer's own times. So a branch that is published as known
  earlier than its parent shows rows recorded after its own time; `publish_branch` accepts it
  (`LeakyBranch`). A branch shows a later row exactly if its parent does at the branch's time
  (`LeaksFromParentOnly`), and never when times are published in order (`InOrderNothingLeaks`).
- `publish_branch` compares only identifier bases, so a delta made for one parent is accepted by another one
  with the same extents; everything proved about branches holds all the same.
- A checkpoint is anchored in one event's checksum. Logs that differ before the anchor cannot be told apart
  (`AnchorHidesPrefix`), for any checksum function (`AnchorMissesPrefix`). Resuming in another log gives that
  log's own outcome, for every reducer and every end, if the two logs agree through the anchor
  (`ResumeElsewhere`), and for the reducer that keeps all events only then (`ResumeElsewhereExactly`).
- A push that throws after its key was allocated leaves an empty list in an adjacency map (`UndoneTight`). Lookups
  cannot see it (`UndoneReadsAsBefore`), but it counts as a source in the degree statistics. After one such
  append, `n` edges can be stored and published of which a step emits all while half as many are estimated
  (`LooseSnapshot`). The estimate covers a step on any input without repetitions exactly if what the layers'
  published averages miss is less than one more than the edges the step leaves out (`EstimateSufficesExactly`).
  For one layer and its real sources this is a comparison of the leftover keys with the edges
  (`LayerBoundExactly`), and layers without leftover lists are always covered (`EstimateBoundsTraversal`).

## Model

| member | source | states |
|---|---|---|
| Executors.ExecuteOptimized | include/memorial/query/optimizer.hpp:214-220 | optimizing a well-typed query and executing it on any published chain gives the naive result of the original query: identifiers in order with repetitions, projected values, or the same error |
| Executors.Execute | include/memorial/query/executor.hpp:463-476 | executing any well-typed query gives the naive result over the flattened chain |
| Executors.Evaluate | include/memorial/query/executor.hpp:110-409 | evaluation through layers, indices and estimates equals the naive scan, including which error |
| Executors.OnlyVisibleFlow | include/memorial/query/executor.hpp:321-409 | every identifier that reaches a step is visible, so property, adjacency and edge lookups never fail |
| Executors.RetainSmallerCandidateSet | include/memorial/query/executor.hpp:181-196 | either the input, or its order-preserving intersection with the index when that is the shorter list |
| Executors.Narrow | include/memorial/query/executor.hpp:266-278 | whatever the estimate, narrowing keeps every identifier that satisfies the predicate, in order, repeated ones too |
| Executors.UsesIndexBelowFourFifths | include/memorial/query/executor.hpp:198-201 | the index is used exactly if it promises less than four fifths of the input |
| Executors.EvaluateWhere | include/memorial/query/executor.hpp:255-291 | a filter step is the order-preserving filter of its input by the predicate on flat rows |
| Executors.ApplyIndexCandidates | include/memorial/query/executor.hpp:228-253 | narrowing by each predicate in turn changes nothing that the conjunction keeps |
| Executors.MatchesAllVisible | include/memorial/query/executor.hpp:203-226 | for a visible identifier the short-circuiting match never fails and is the conjunction |
| Executors.EvaluateFusedWhere | include/memorial/query/executor.hpp:293-319 | a fused filter is the order-preserving filter by the conjunction of its predicates |
| Executors.EvaluateTraverse | include/memorial/query/executor.hpp:321-349 | a traverse step emits, per input in order, the visible targets of its flat edges in edge order |
| Executors.EvaluateTopK | include/memorial/query/executor.hpp:372-409 | top-k is a prefix of the stable arrangement of its input by the flat column |
| Executors.Materialize | include/memorial/query/executor.hpp:444-459 | each identifier becomes a row of its flat values in projection order; no lookup fails |
| Executors.ReadsProjection | include/memorial/query/executor.hpp:422-442 | projecting a visible identifier succeeds with its flat values |
| Queries.TypeTag | include/memorial/query/dsl.hpp:186-245 | a query that passes the static checks has a current node type of the schema, the one its last traversal or its source names |
| Queries.FailsIfSomeMismatch | include/memorial/query/executor.hpp:116-147 | a query fails exactly if some selector in the pipeline mismatches the snapshot |
| Queries.FailsAtLastMismatch | include/memorial/query/executor.hpp:116-147 | it fails with the error of the last mismatching selector |
| Executors.SucceedsExactly | include/memorial/query/executor.hpp:116-147 | a query succeeds exactly if every selector names the snapshot's own valid time, known time or worldline |
| QueryRuns.AskPublished | include/memorial/query/executor.hpp:463-476 | a run for any two ages: asking for one age finds that person, ranking finds the eldest, another worldline is refused |
| Queries.TopIsStablePrefix | include/memorial/query/executor.hpp:393-401 | any stably sorted arrangement has the same prefix: top-k does not depend on the sorting algorithm |
| Queries.TopIsOrdered | include/memorial/query/executor.hpp:393-401 | top-k keeps as many as it may, least keys first when ascending, greatest first when descending |
| Queries.TopKeepsTheBest | include/memorial/query/executor.hpp:393-401 | nothing left out comes strictly before anything kept |
| Queries.EqualityKeeps | include/memorial/query/executor.hpp:281-289 | an equality filter keeps exactly what comes neither before nor after the given value |
| Queries.ReachedFromAppend | include/memorial/query/executor.hpp:335-347 | a traverse step works through its inputs in order, repeated ones each time |
| Queries.ReachedExactly | include/memorial/query/executor.hpp:335-347 | a node is reached from a source exactly if an edge leads to it and it can be seen |
| Queries.TypedExactly | include/memorial/query/dsl.hpp:186-245 | a query is well typed exactly if each step passes its own static check, and its type is read off the pipeline |
| StableSorts.StableSortUnique | include/memorial/query/executor.hpp:394-398 | a sorted arrangement that keeps ties in input order is unique |
| StableSorts.StableSortSorts | include/memorial/query/executor.hpp:394-398 | the model's stable sort is sorted, rearranges its input, and keeps ties in input order |
| Values.LessIsTotalOrder | include/memorial/query/executor.hpp:149-172 | comparison of non-NaN values of one kind is a strict total order |
| Values.EqualToIsUnordered | include/memorial/query/executor.hpp:169-172 | two values of one kind are equal exactly if neither comes first; equality is both weak comparisons together |
| Values.NaNComparesWithNothing | include/memorial/query/executor.hpp:149-172 | no comparison with a NaN holds, on either side |
| Values.NumbersCompare | include/memorial/query/executor.hpp:149-172 | on numbers the five operators are those of the reals, truth values count as 0 and 1, infinities bound all numbers |
| Values.TextOrder | include/memorial/query/executor.hpp:159-162 | texts are ordered as in a dictionary |
| Values.KindsOrder | include/memorial/query/dsl.hpp:134-150 | values of one column can be ordered unless one is a NaN, and compare with every right-hand side the checks admit |
| Optimizers.NormalizeMeaning | include/memorial/query/optimizer.hpp:96-106 | normalizing keeps the ordered result or the error, for every expression and every graph |
| Optimizers.AppendWhereMeaning | include/memorial/query/optimizer.hpp:58-94 | a filter pushed below any run of selectors and fused still filters what it stood on |
| Optimizers.NormalizeType | include/memorial/query/optimizer.hpp:214-220 | the optimized query has the type and projection of the original |
| Optimizers.NormalizeMetrics | include/memorial/query/optimizer.hpp:123-200 | normalizing keeps the required columns (as a list), the filter count and the traversal count, and never deepens |
| Optimizers.NormalizeNormal | include/memorial/query/optimizer.hpp:42-94 | no filter is left directly above a selector or a filter, and no limit above a limit |
| Optimizers.NormalIsFixed | include/memorial/query/optimizer.hpp:96-106 | normalize leaves alone exactly the normal forms, and is idempotent |
| Optimizers.UniqueKeeps | include/memorial/query/optimizer.hpp:108-121 | deduplicating the column list keeps its members, each once |
| Optimizers.UniqueMore | include/memorial/query/optimizer.hpp:108-121 | an element met again moves to the end of the deduplicated list and the others keep their order |
| Optimizers.RequiredExactly | include/memorial/query/optimizer.hpp:123-160 | a column is required exactly if some step reads it |
| Optimizers.MetricsCount | include/memorial/query/optimizer.hpp:162-194 | depth counts the steps, the traversal count the traversals and, before fusing, the filter count the filters |
| Optimizers.OnlyRequiredColumnsMatter | include/memorial/query/optimizer.hpp:198-212 | graphs that agree on metadata, edges and the required columns give equal results |
| Snapshots.Publish | include/memorial/storage/snapshot.hpp:21-39 | publishing builds every index, keeps every row and edge, and establishes the snapshot invariant, or names the invalid identifier |
| Snapshots.PublishBranch | include/memorial/storage/snapshot.hpp:45-66 | a branch is accepted exactly under the four checks, in their order, and then satisfies the invariant of a chain |
| Branches.ApplyAll | include/memorial/storage/delta_store.hpp:200-226 | any appends, refused and throwing ones included, keep a delta valid and on its parent |
| Branches.PublishAppended | include/memorial/storage/snapshot.hpp:45-66 | a branch delta is accepted by its parent after any appends |
| Branches.LinkedBranch | include/memorial/storage/snapshot.hpp:45-66 | a run: a branch with its own node and an edge from an inherited node is published, shows both nodes, and a step over the edge arrives |
| Snapshots.MakeBranchDelta | include/memorial/storage/snapshot.hpp:41-43 | a branch delta is empty and starts at the parent's extents, so the parent accepts it |
| Snapshots.RowsPartition | include/memorial/storage/snapshot.hpp:75-79 | the rows of all layers carry consecutive identifiers from the root's base to the extent |
| Snapshots.EdgesPartition | include/memorial/storage/snapshot.hpp:81-85 | the edges of all layers carry consecutive identifiers from the root's base to the extent |
| Snapshots.VisibilityIsFlat | include/memorial/storage/snapshot.hpp:314-344 | the recursive visibility check agrees with one lookup in the flat list, judged at the owning layer's coordinates |
| Snapshots.VisibilityExactly | include/memorial/storage/snapshot.hpp:314-344 | which error an identifier meets or that it is seen: found, in its layer's worldline, and both times inside half-open intervals |
| Snapshots.OwnRowVisibility | include/memorial/storage/snapshot.hpp:325-342 | a layer's own row is seen exactly if its columns match the layer's worldline and times |
| Snapshots.PropertyIsFlat | include/memorial/storage/snapshot.hpp:182-195 | the recursive property lookup returns the flat row's value, or the visibility error |
| Snapshots.BranchIsConservative | include/memorial/storage/snapshot.hpp:314-368 | below the parent's extent a branch answers like the parent; at or above it the parent knows nothing |
| Snapshots.EdgesBelowExtent | include/memorial/storage/delta_store.hpp:475-478 | every edge of every layer ends below the extents of its node types |
| Snapshots.EdgeTargetIsFlat | include/memorial/storage/snapshot.hpp:281-294 | the recursive edge lookup is one lookup in the flat edge list |
| SnapshotQueries.BranchCandidates | include/memorial/storage/snapshot.hpp:110-128 | a branch's candidates are its parent's list followed by those of its own rows, strictly ascending |
| SnapshotQueries.SourceCandidates | include/memorial/storage/snapshot.hpp:110-128 | source candidates are the visible flat rows, in identifier order |
| FlatGraphs.VisibleIdsExactly | include/memorial/storage/snapshot.hpp:110-128 | that list is strictly ascending and holds exactly the identifiers whose lookup is visible |
| SnapshotQueries.PropertyCandidates | include/memorial/storage/snapshot.hpp:130-158 | property candidates are exactly the source candidates filtered by the predicate |
| SnapshotQueries.InheritedMatching | include/memorial/storage/snapshot.hpp:135-142 | inherited candidates are judged by the parent exactly as the child would judge them |
| SnapshotQueries.EstimatePropertyCandidates | include/memorial/storage/snapshot.hpp:160-180 | the estimate never fails on a published chain and is the sum of the layers' estimates |
| SnapshotQueries.Outgoing | include/memorial/storage/snapshot.hpp:197-237 | the outgoing edges of a visible node are, in order, the flat edges from it to visible targets; else the visibility error |
| SnapshotQueries.Incoming | include/memorial/storage/snapshot.hpp:239-279 | the incoming edges of a visible node are, in order, the flat edges to it from visible sources; else the visibility error |
| Traversals.OutgoingIsFlat | include/memorial/storage/snapshot.hpp:197-237 | outgoing edges ascend strictly, and an edge is listed exactly if it leaves the node for a visible target |
| Traversals.IncomingIsFlat | include/memorial/storage/snapshot.hpp:239-279 | incoming edges ascend strictly, and an edge is listed exactly if it enters the node from a visible source |
| Traversals.OutgoingIffIncoming | include/memorial/storage/snapshot.hpp:197-279 | between visible nodes, an edge is outgoing of one exactly if it is incoming of the other |
| TraversalEstimates.EstimateSufficesExactly | include/memorial/storage/snapshot.hpp:87-94 | for every chain and every input without repetitions, the rounded-up estimate is at least the number of nodes the traverse step emits exactly if the published averages miss less than one edge more than the step leaves out |
| TraversalEstimates.EstimateBoundsTraversal | include/memorial/storage/snapshot.hpp:87-94 | an input without repetitions that holds every source of layers without leftover lists never makes the step emit more than estimated |
| TraversalEstimates.EmittedAndLeftOut | include/memorial/query/executor.hpp:332-348 | what a traverse step emits and the edges it leaves out make up all edges of the chain |
| TraversalEstimates.EdgesAndShortfall | include/memorial/storage/snapshot.hpp:303-312 | the edges of all layers are the input size times the summed averages plus the layers' shortfalls, read off the published statistics |
| TraversalEstimates.LayerBoundExactly | include/memorial/storage/adjacency_store.hpp:57-72 | the average times the number of real sources covers a layer's edges exactly if no list was left over; rounded up, exactly if the leftover keys times the edges are fewer than the keys |
| TraversalEstimates.LooseSnapshot | include/memorial/storage/adjacency_store.hpp:101-112 | a run: one append throws between key and list, `n` more succeed, and a step on the only source emits `n` where half of `n`, rounded up, was estimated |
| TransactionTimes.LeaksFromParentOnly | include/memorial/storage/snapshot.hpp:314-344 | a snapshot shows only rows recorded by the time it knows, exactly if its parent does at that time |
| TransactionTimes.InOrderNothingLeaks | include/memorial/storage/snapshot.hpp:314-344 | a chain whose layers were all published as known by some time shows nothing recorded later |
| TransactionTimes.LeakyBranch | include/memorial/storage/snapshot.hpp:45-66 | for any two times, a branch known at the earlier one of a root known at the later one is accepted and shows a later row |
| NodeTables.NodeTable.IndexedCandidates | include/memorial/storage/delta_store.hpp:149-198 | whichever path is cheapest, the result is the ascending list of all rows of the worldline valid and known at the times; a conflict if the indices are stale |
| NodeTables.VisibleIdsAt | include/memorial/storage/delta_store.hpp:172-197 | that list is strictly ascending and holds exactly the rows whose columns contain both times, start included and end not |
| NodeTables.NodeTable.ChoosePath | include/memorial/storage/delta_store.hpp:159-194 | each of the three paths repeats no row and misses no visible one |
| NodeTables.UpperBound | include/memorial/storage/delta_store.hpp:159-168 | the search splits a sorted index into the entries at or before the point and those after it |
| NodeTables.StartPath | include/memorial/storage/delta_store.hpp:185-194 | the prefix of a start-time index, sorted in any order of ties, holds every row already started |
| NodeTables.SortedScan | include/memorial/storage/delta_store.hpp:172-197 | filtering any complete path and sorting it is the scan of all rows |
| NodeTables.NodeTable.IndexedPropertyCandidates | include/memorial/storage/delta_store.hpp:88-110 | exactly the rows whose value satisfies the predicate, ascending; a conflict if the indices are stale |
| NodeTables.MatchingIdsAt | include/memorial/storage/delta_store.hpp:98-109 | that list is strictly ascending and holds exactly the rows whose column value compares |
| NodeTables.CheckedRowExactly | include/memorial/storage/delta_store.hpp:260-268 | a row is found exactly if the store holds it, and the invalid identifier is told apart from an unknown one |
| NodeTables.ArithmeticExactly | include/memorial/storage/delta_store.hpp:314-318 | the columns with a histogram are those that can hold numbers |
| NodeTables.NodeTable.EstimatePropertyCandidates | include/memorial/storage/delta_store.hpp:112-147 | a conflict if the indices are stale, else the histogram estimate or, without one, the row count |
| NodeStores.IndexRows | include/memorial/storage/delta_store.hpp:66-78 | the worldline index lists each worldline's rows and the start indices pair each row with its start |
| NodeStores.DeltaNodeStore.BuildIndices | include/memorial/storage/delta_store.hpp:66-86 | after building, every index describes the current rows, which are unchanged |
| NodeStores.DeltaNodeStore.Append | include/memorial/storage/delta_store.hpp:204-226 | one whole row is appended, or all columns are as before, after an error or a push that throws; the identifier never truncates |
| NodeStores.DeltaNodeStore.AppendMetadata | include/memorial/storage/delta_store.hpp:280-291 | four columns grow together or not at all |
| NodeStores.NodeStore.Append | include/memorial/storage/node_store.hpp:52-64 | property columns grow together or not at all; the identifier is the old extent |
| NodeStores.AppendColumns | include/memorial/storage/node_store.hpp:113-124 | with enough room every column gets its value, otherwise every column is restored |
| NodeStores.RowOutcomeValid | include/memorial/storage/delta_store.hpp:200-226 | every outcome of an append keeps the store's invariant |
| Histograms.Build | include/memorial/storage/delta_store.hpp:314-353 | each bucket counts exactly the finite values that fall into it, with the true range and sample count |
| Histograms.ComputeEstimate | include/memorial/storage/delta_store.hpp:112-147 | the loop over midpoints computes the estimate, which is never negative when the histogram samples at most the rows |
| Histograms.BucketsSum | include/memorial/storage/delta_store.hpp:314-353 | the buckets sum to the sample count |
| Histograms.FloatingErrorBound | include/memorial/storage/delta_store.hpp:130-146 | for floating-point columns the estimate is off by at most the population of the threshold's bucket |
| Histograms.ExactOutside | include/memorial/storage/delta_store.hpp:130-146 | the estimate is exact for thresholds outside the range |
| Histograms.ExactWhenConstant | include/memorial/storage/delta_store.hpp:130-134 | the estimate is exact when all values are equal |
| Histograms.SafeTruncationBound | include/memorial/storage/delta_store.hpp:136-146 | for integral columns the bound holds on every safe range |
| Histograms.UnsafeTruncationFails | include/memorial/storage/delta_store.hpp:136-146 | on every other range a column, a threshold and an operator break the bound |
| Histograms.WideRangeSafe | include/memorial/storage/delta_store.hpp:136-146 | ranges of at least 32 are safe |
| Histograms.TruncationCounterexample | include/memorial/storage/delta_store.hpp:139-141 | the range 0 to 1 is not safe: every midpoint truncates to 0 |
| Histograms.CastTruncates | include/memorial/storage/delta_store.hpp:141 | the cast of a midpoint drops the fraction toward zero |
| Histograms.MidpointsEven | include/memorial/storage/delta_store.hpp:136-140 | midpoints lie evenly and symmetrically in the range |
| AdjacencyStores.AdjacencyStore.Append | include/memorial/storage/adjacency_store.hpp:84-116 | one edge is appended to columns and both maps, or the table is as before but for the keys allocated on the way; the identifier never truncates |
| AdjacencyStores.PushBack | include/memorial/storage/adjacency_store.hpp:101-112 | a push lists the identifier, or leaves an empty list under a missing key exactly if the key could still be allocated |
| AdjacencyStores.UndoneReadsAsBefore | include/memorial/storage/adjacency_store.hpp:101-112 | after a rolled-back append every lookup reads as before |
| AdjacencyStores.UndoneTight | include/memorial/storage/adjacency_store.hpp:101-112 | a throwing append leaves a key without edges exactly if the key is new and the failure came after its allocation |
| AdjacencyStores.AdjacencyInvertsEdges | include/memorial/storage/adjacency_store.hpp:146-156 | a node's lists are strictly ascending and hold exactly the edges with that source, or that target |
| AdjacencyStores.EndpointsExactly | include/memorial/storage/adjacency_store.hpp:118-132 | an edge has its two endpoints exactly if the store holds it, else the error for an invalid or an unknown identifier |
| AdjacencyStores.LengthsSumToEdges | include/memorial/storage/adjacency_store.hpp:146-156 | list lengths sum to the edge count in both directions |
| AdjacencyStores.AdjacencyStore.BuildStatistics | include/memorial/storage/adjacency_store.hpp:57-72 | edge count, source count, maximum and average out-degree describe the current maps |
| AdjacencyStores.AverageAtMostMaximum | include/memorial/storage/adjacency_store.hpp:57-72 | the average out-degree is at most the maximum |
| AdjacencyStores.TightUnlessThrown | include/memorial/storage/adjacency_store.hpp:101-112 | as long as no append throws, no node is listed without an edge |
| AdjacencyStores.AppendedValid | include/memorial/storage/adjacency_store.hpp:84-116 | an appended edge keeps the columns and both maps in step |
| DeltaStores.DeltaStore.AppendNode | include/memorial/storage/delta_store.hpp:200-226 | appending a node keeps the invariant of the whole delta and touches one store |
| DeltaStores.DeltaStore.AppendEdge | include/memorial/storage/delta_store.hpp:442-466 | endpoints must exist below the extents and two local ones share a worldline, else the error; the invariant is kept either way |
| DeltaStores.EdgeGuardExactly | include/memorial/storage/delta_store.hpp:445-478 | an edge is let pass exactly if it fits; otherwise a missing endpoint is named before differing worldlines, in terms of extents and columns |
| DeltaStores.RowKeepsBases | include/memorial/storage/delta_store.hpp:200-226 | every outcome of a node append keeps the delta on its parent |
| DeltaStores.EdgeKeepsBases | include/memorial/storage/adjacency_store.hpp:84-116 | every outcome of an edge append keeps the delta on its parent |
| DeltaStores.DeltaStore.BuildIndices | include/memorial/storage/delta_store.hpp:390-393 | every index and statistic becomes current and no row or edge changes |
| DeltaStores.DeltaStore.constructor | include/memorial/storage/delta_store.hpp:395-400 | a fresh delta is valid and starts at the parent's extents |
| EventLogs.EventLog.Append | include/memorial/runtime/event_log.hpp:88-116 | the guards in their order, else exactly one event at the end with the next sequence; recorded times stay monotone and references point back |
| EventLogs.GuardExactly | include/memorial/runtime/event_log.hpp:91-108 | the guards let an event pass exactly if the log with that event is valid; equal recorded times are fine |
| EventLogs.FindExactly | include/memorial/runtime/event_log.hpp:118-128 | a valid log finds exactly the sequences it holds, each with its event |
| MemoryHistories.MemoryHistory.HasRevision | include/memorial/runtime/memory_history.hpp:112-121 | whether the key has any event |
| MemoryHistories.MemoryHistory.LatestSequence | include/memorial/runtime/memory_history.hpp:123-134 | the last event of the key recorded by the time |
| MemoryHistories.LastBeforeIsLast | include/memorial/runtime/memory_history.hpp:123-134 | what "last" means: it satisfies the condition and no later event does |
| MemoryHistories.MemoryHistory.AppendOriginal | include/memorial/runtime/memory_history.hpp:57-67 | a second original is a conflict; otherwise the log's guards decide, and the history stays chained |
| MemoryHistories.MemoryHistory.Reinterpret | include/memorial/runtime/memory_history.hpp:69-81 | a revision needs an earlier one and refers to the newest of its key; the history stays chained |
| MemoryHistories.MemoryHistory.At | include/memorial/runtime/memory_history.hpp:83-107 | the last event of the key recorded by the known time and valid at the valid time, or the error |
| MemoryHistories.AnswersExactly | include/memorial/runtime/memory_history.hpp:91-101 | the selected event names the memory, perspective and worldline, is recorded in time and in force, start included and end not, and none behind it is; without a selection none is |
| MemoryHistories.KeyExactly | include/memorial/runtime/memory_history.hpp:112-121 | a key has a revision exactly if some event names its memory, perspective and worldline |
| MemoryHistories.NoFutureLeak | include/memorial/runtime/memory_history.hpp:83-107 | no events recorded after the known time change the answer |
| MemoryHistories.AnswerIsLatest | include/memorial/runtime/memory_history.hpp:90-101 | the answer has the latest recorded time among the events that qualify |
| MemoryHistories.ChainIsComplete | include/memorial/runtime/memory_history.hpp:69-81 | following `previous` visits every revision of the key once, newest first, and ends at the original |
| MemoryHistories.OneOriginal | include/memorial/runtime/memory_history.hpp:57-67 | each key has one original, and it is the key's first event |
| Replays.Replay | include/memorial/runtime/replay.hpp:60-104 | the guards in their order, else the fold of the events behind the anchor, or the first refusal |
| Replays.ResumeComposes | include/memorial/runtime/replay.hpp:45-104 | replay to s, checkpoint and resume equals one replay; an error by s is the error of every longer replay |
| Replays.ReplayOutlivesAppends | include/memorial/runtime/replay.hpp:60-104 | appending events changes no replay whose anchor and end were already there |
| Replays.ResumeOutlivesAppends | include/memorial/runtime/replay.hpp:45-104 | a checkpoint of a shorter log resumes in the longer one to that log's own replay |
| Replays.AnchorAccepted | include/memorial/runtime/replay.hpp:66-80 | a checkpoint is accepted exactly if its one event exists with its checksum |
| Replays.AnchorRefuses | include/memorial/runtime/replay.hpp:66-79 | which error a missing checksum, an unknown anchor and a differing checksum meet |
| Replays.EndRefuses | include/memorial/runtime/replay.hpp:83-94 | an unknown end and an end before the anchor are refused; the anchor itself is an end |
| Replays.ResumeElsewhere | include/memorial/runtime/replay.hpp:45-104 | a checkpoint resumed in another log that agrees through the anchor gives that log's own outcome, for every reducer and every end |
| Replays.ResumeElsewhereExactly | include/memorial/runtime/replay.hpp:66-104 | where the anchor's checksum is accepted, the events collected by a resumed replay are the log's own exactly if the logs agree through the anchor |
| Replays.AnchorHidesPrefix | include/memorial/runtime/replay.hpp:75-80 | logs that agree from the anchor on give the same outcome |
| Replays.AnchorMissesPrefix | include/memorial/runtime/replay.hpp:75-78 | for every checksum function, a checkpoint of one valid log resumes in another with a different past |
| CanonicalHashes.StepCancels | include/memorial/runtime/canonical_hash.hpp:26-29 | a hash step is one-to-one in the hash for each byte and in the byte for each hash |
| CanonicalHashes.FnvCancels | include/memorial/runtime/canonical_hash.hpp:26-35 | different hashes stay different under the same bytes |
| CanonicalHashes.OneByteShows | include/memorial/runtime/canonical_hash.hpp:26-60 | equally long streams that differ in one byte have different digests |
| CanonicalHashes.FnvVectors | include/memorial/runtime/canonical_hash.hpp:26-60 | the published FNV-1a digests of the empty text and of "a" |
| CanonicalHashes.LittleEndianReads | include/memorial/runtime/canonical_hash.hpp:43-51 | read least significant first, the bytes give the integer back |
| CanonicalHashes.TwosComplementWraps | include/memorial/runtime/canonical_hash.hpp:84-91 | negative numbers wrap around the word |
| CanonicalHashes.OrdinalsFollowDeclaration | include/memorial/runtime/canonical_hash.hpp:93-97 | enumerators are encoded by their place in the declaration |
| CanonicalHashes.LongExamples | include/memorial/runtime/canonical_hash.hpp:79-153 | the bytes of a string, a tag, a time before the epoch and an optional identifier |
| CanonicalHashes.EventExample | include/memorial/runtime/canonical_hash.hpp:198-207 | the bytes of one event, field by field |
| CanonicalHashes.CanonicalHasher.AppendUnsigned | include/memorial/runtime/canonical_hash.hpp:43-51 | the low bytes go on the stream, least significant first |
| CanonicalHashes.CanonicalHasher.AppendTag | include/memorial/runtime/canonical_hash.hpp:37-41 | a tag goes on the stream as a mark, its length and its bytes |
| CanonicalHashes.LittleEndianTells | include/memorial/runtime/canonical_hash.hpp:43-51 | the bytes of an integer determine it |
| CanonicalHashes.IntegralTells | include/memorial/runtime/canonical_hash.hpp:84-91 | no encoded integer is a prefix of another's, for each width |
| CanonicalHashes.StringTells | include/memorial/runtime/canonical_hash.hpp:121-125 | no encoded string is a prefix of another's |
| CanonicalHashes.StrongIdTells | include/memorial/runtime/canonical_hash.hpp:131-135 | no encoded identifier is a prefix of another's, for each width |
| CanonicalHashes.TimestampTells | include/memorial/runtime/canonical_hash.hpp:137-140 | no encoded time is a prefix of another's, negative times included |
| CanonicalHashes.OptionalTells | include/memorial/runtime/canonical_hash.hpp:142-153 | no encoded optional is a prefix of another's, for every prefix-free encoding of its values |
| CanonicalHashes.ProvenanceTells | include/memorial/runtime/canonical_hash.hpp:155-160 | no encoded provenance is a prefix of another's |
| CanonicalHashes.RevisionCode | include/memorial/runtime/canonical_hash.hpp:162-176 | revisions whose memory identifiers and values have prefix-free encodings have one themselves |
| CanonicalHashes.EventTells | include/memorial/runtime/canonical_hash.hpp:198-207 | no encoded event is a prefix of one that differs in a hashed field |
| CanonicalHashes.LogTells | include/memorial/runtime/canonical_hash.hpp:191-209 | one log's encoding starts with another's exactly if both say the same in every hashed field |
| CanonicalHashes.ValidLogTells | include/memorial/runtime/canonical_hash.hpp:191-209 | valid logs under one checksum function with equal encodings are equal |
| CanonicalHashes.CanonicalHashOfLog | include/memorial/runtime/canonical_hash.hpp:191-209 | the digest of a log is the FNV-1a hash of its encoding |
| Common.MakeInterval | include/memorial/runtime/time.hpp:17-23 | an interval can be made exactly if it contains some point, and then has the given ends |
| Common.IntervalsMeet | include/memorial/runtime/time.hpp:32-34 | two intervals that meet share no point and leave none out: the start belongs to an interval, the end does not |
| Common.MakeProvenance | include/memorial/runtime/provenance.hpp:24-38 | a provenance can be made exactly if it is attributed, and which error says why not |

## Left out

- Estimate: column values are reals (with infinities and NaN as values of their own), so rounding in
  `double`, the conversion of large integers to `double`, and the undefined cast of an out-of-range midpoint
  are not modelled.
- ShouldUsePropertyIndex: the factor 0.8 is a real number; rounding could only change a decision that never
  changes an answer.
- EvaluateTopK: the order of keys containing NaN, which is undefined in the original, is whatever the insertion
  sort of the model gives; uniqueness of the arrangement is stated without NaN.
- EstimateBoundsTraversal: stated for layers in which no failed append left an empty list; the exact condition with
  such lists is `EstimateSufficesExactly`.
- DeltaStore: stores embedded by value are taken out of a map, changed as objects, and put back; references to
  a store held across appends are not modelled.
- Publish: the moved-from delta is left in its published state; nothing of it should be used afterwards.
- BuildIndices: allocations of index building and of query execution do not fail in the model; only appends do.
- UnstableSort: an ordering by some algorithm; only its being sorted and a rearrangement is used.
- ChecksumOf: the mixing inside the checksum and payload hashing are an arbitrary function.
- CanonicalHashOfLog: the encoding of payloads is a parameter; the floating-point overload (which identifies
  both zeros and all NaNs, so is not one-to-one) and the hexadecimal form of a digest are not modelled.
- Replay: the reducer is a pure function; one that keeps state of its own or throws is not modelled.
- TypeTag: property types other than integers, floating-point numbers, truth values and text, and comparisons through
  user-defined operators, which the static checks also admit, are not in the model.
- Values: text is compared character by character as unsigned units; conversions between different arithmetic
  types in a comparison, truth values as 0 and 1 included, are exact.
- Identifiers are bounded by 32 bits as in the original; `size_t` sums of estimates are unbounded.
- Edge properties are stored and rolled back but never read by a query; reading them is not modelled.
- Templates, strong-identifier tagging, the pipe operators and the schema machinery are replaced by a typing
  function over arbitrary schemas.
- Plan explanations, plan signatures and the worldline registry.
- Lifetimes, shared ownership, allocators and hash-table iteration order.
- Described in the documents but not in the code: removal of duplicate filters, pushing filters below a
  traversal, looking up the newest layer first, compaction, frozen adjacency, probability and inverse replay.
