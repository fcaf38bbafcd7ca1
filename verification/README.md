# agent-wayfinder: a verified model of its core

agent-wayfinder keeps a graph of a source workspace: extractors turn files into
contributions, resolvers connect them, a SQLite store keeps every published version, and queries
walk the result. This project models the parts of it where a simple promise is kept by state,
loops or concurrency, and proves the promise for every input, every run or every interleaving.

## What is modelled

**The versioned graph store.** `GraphTables` holds the tables and each SQL statement as an update
of a table value; `StoreTransactions` composes them into the transactions of publish, session
commit, rollback and prune. `SnapshotHistory` is the specification: per workspace, a list of
complete snapshots that a publication extends, a rollback cuts at the end and a prune cuts at the
front. `RowIntervals`, `StoreRefinement` and `StoreRuns` prove that the interval-encoded tables
read exactly as those lists after every run, failures included; `RequestEffects` writes out on the
tables what each request does. `StoreStatements`, `GraphStore`, `ContributionSession` and
`ProjectionCache` are the imperative code: a store and a session that update their tables in place
and refine the transactions, with the projection cache kept coherent.
`EdgeOwnership` and `EdgeRuns` follow resolved edges through runs. `InsertBatches` and
`PublicationBatch` cover the buffering and chunking of the inserts.

**Bounded traversal and shortest paths.** `GraphWalks` defines walks and balls of nodes within k
steps, where steps start from nodes of the project scope. `Traversal` is the level-by-level search
with its limits and its scope, `ShortestPath` the second breadth-first search with predecessors and
in-place reversal, and `FindPath` composes them.

**Concurrent pipelines.** `ReorderWindow` and `ExtractionPipeline` are state machines whose
actions are the channel operations of the producer, the workers and the consumer; their theorems
quantify over all interleavings.

**The indexer queue.** `IndexerQueue` is the state machine of one workspace (enqueue, timer
callbacks that may be stale, publish outcomes, stop and restart), with a log from which "accepted
but not yet published" is defined. `IndexerSafety` proves the invariants, `IndexerManager` is the
imperative manager that refines the machine step by step.

**Module resolution.** `ReExports` and `ReExportConvergence` cover the bounded fixpoint over
re-exports; `Paging`, `PageResolution` and `ProjectionPages` the paged resolver behind its memo,
with `ModuleBindings` for the surfaces and bindings both use; and `Specifiers` the folding of
dynamic import expressions.

Composite keys that the program joins with NUL bytes are records here. Foreign outcomes (a failing
statement, a publisher's result, whether a timer could still be stopped, whether the owner lock was
acquired) are parameters or nondeterministic choices.

## Findings

Places where the code does less than its name suggests; each has its exact condition unless said
otherwise.

- A publication fails once its automatic retention boundary is gone
  (`StoreRuns.PublishSucceedsExactly`); a manual prune brings this about
  (`StoreRuns.ManualPruneBlocksPublication`).
- Rolling back a publication restores the tables exactly when retention dropped nothing
  (`StoreRuns.PublishThenRollback`).
- Queued work stalls exactly when, with no publish in flight and no callback left over, an enqueue
  meets a path that does not normalise or a stop fails to close the owner
  (`IndexerSafety.StallsExactly`, `IndexerSafety.StallIsReachable`). A callback that a late stop
  gave up still publishes the work (`IndexerSafety.GivenUpCallbackStillPublishes`).
- The retry delay is the capped doubling curve exactly when the base is at most the maximum
  (`IndexerSafety.BackoffIsCappedDoubling`).
- Caching projections again under a key that is still cached loses track of the byte total exactly
  when the old entry is not empty and the new value does not fit beside everything newer
  (`ProjectionCaching.ProjectionCache.Insert`, `ProjectionCaching.RecachingDrifts`). Readers of the
  same contents never cause it (`ProjectionCaching.SameValueFits`); a reader that missed before its
  version number was rolled back and published again with other contents can.
- Unless the node limit is reported, the depth limit is reported exactly when a reachable node was left
  out, if and only if no node of the scope at the last distance has a dangling edge or something lies
  beyond that distance anyway (`Traversal.DepthLimitExactly`, `Traversal.DanglingEdgeReportsDepth`).
- The node limit is reported exactly when more nodes are in reach than allowed, unless there is a project
  scope and exactly as many are in reach as allowed (`Traversal.NodeLimitExactly`). In that case it may be
  reported although nothing is left out (`Traversal.SelectedOutsideReportsLimit`): the full selection then
  met an edge to a node outside the scope, which one depends on the order of edges
  (`Traversal.LimitReportedExactly` is exact edge by edge).
- The re-export iteration can be cut short by a cycle that renames
  (`ReExportConvergence.RenamingCycleIsCutShort`). A caller can rule this out on the re-export graph:
  the result is complete when re-exports that lie on a cycle keep names
  (`ReExportConvergence.CyclesKeepNamesConverge`). This is one-way, because whether a renaming cycle
  is cut short depends on the names that actually travel it
  (`ReExportConvergence.RenamingCycleMayConverge`); afterwards the result is complete exactly when
  one more round would add nothing (`ReExports.CompleteExactly`).

## Model

| member | source | states |
|---|---|---|
| `StoreRuns.RunRefines` | storage/sqlite/sqlite.go:233-321 | Over every sequence of publish, commit, rollback and prune requests on any workspaces, within or over the byte budget, the tables read exactly as the lists of snapshots, and every request succeeds or fails with the same error on both sides. |
| `StoreRuns.NoConstraintViolation` | storage/sqlite/sqlite.go:3383 | In no run does a transaction hit a primary-key violation. |
| `StoreRuns.ReachableReadsAreFunctional` | storage/sqlite/sqlite.go:2806-2860 | In every reachable state a read at any version finds at most one contribution per path. |
| `StoreRuns.PublicationRunRetains` | storage/sqlite/sqlite.go:301-305 | However operations on other workspaces interleave, n publications or commits within the budget never fail, the newest version is n and exactly min(n, 25) versions are kept. |
| `StoreRuns.PublishSucceedsExactly` | storage/sqlite/sqlite.go:301-305 | A publication of distinct paths succeeds if and only if no retention is due or its boundary version is live. |
| `StoreRuns.BudgetRefusesExactly` | storage/sqlite/sqlite.go:306-308 | A publish or commit that would otherwise succeed is refused for the byte budget exactly when it does not fit, and a refused request changes no table; rollback and prune never are. |
| `StoreRuns.BlockedStays` | storage/sqlite/sqlite.go:2732-2738 | Once retention is due and its boundary is gone every publication and commit fails with version-not-found, and pruning keeps it so. |
| `StoreRuns.BlockedRun` | storage/sqlite/sqlite.go:301-305 | However a run goes on from there without rolling the workspace back, all its publications and commits on it fail. |
| `StoreRuns.ManualPruneBlocksPublication` | storage/sqlite/sqlite.go:2705-2741 | In the tables: after every run with 25 or more publications of the workspace, a manual prune to the newest succeeds and makes every later publication and commit fail until a rollback. |
| `StoreRuns.RollbackUndoesAppend` | storage/sqlite/sqlite.go:2668-2694 | Before retention, rolling back to the version before a publication restores every row of every table. |
| `StoreRuns.PublishThenRollback` | storage/sqlite/sqlite.go:2641-2703 | Publish then rollback to the prior version restores the database if and only if fewer than 25 versions were live. |
| `StoreRefinement.ApplyRefines` | storage/sqlite/sqlite.go:233-321 | One request, whatever its kind: tables and history agree afterwards, or both report the same error; other workspaces are untouched. |
| `RequestEffects.RefusedExactly` | storage/sqlite/sqlite.go:233-321 | On the tables: which error each request meets and when, with no other error possible. |
| `RequestEffects.OutcomeExactly` | storage/sqlite/sqlite.go:233-321 | The outcome of each operation: that error, or, last of all, the exceeded byte budget of a publish or commit; otherwise success. |
| `RequestEffects.VersionsAfter` | storage/sqlite/sqlite.go:301-305 | On the tables: the versions live after a request are the earlier ones up to a rollback's target, those from a prune's target on, or the newest 25 of the earlier ones and the new one. |
| `RequestEffects.LivingReadTheSame` | storage/sqlite/sqlite.go:2806-2860 | A version that lives through a request reads the same rows, nodes and edges. |
| `RequestEffects.PublishReads` | storage/sqlite/sqlite.go:1067-1151 | Read from the tables, a published version shows the written contributions and the last version's for other paths, the first fact written of each node, and of each edge the kept one or else the first written. |
| `RequestEffects.CommitReads` | storage/sqlite/sqlite.go:589-643 | A committed version shows the written contributions and the last version's staged others, and the first fact written of each node and edge. |
| `StoreRefinement.PublishRefines` | storage/sqlite/sqlite.go:288-305 | Publishing appends the prior sources overridden by the update, with its own facts and retained edges, then keeps the newest versions. |
| `StoreRefinement.CommitRefines` | storage/sqlite/sqlite.go:589-643 | Committing appends the staged part of the prior sources overridden by what was written, then keeps the newest versions. |
| `StoreRefinement.PruneRefines` | storage/sqlite/sqlite.go:2730-2780 | Pruning to a live version drops exactly the older snapshots; a missing version is refused on both sides. |
| `StoreRefinement.RollbackRefines` | storage/sqlite/sqlite.go:2641-2703 | Rolling back to a live version drops exactly the newer snapshots; a missing version is refused on both sides. |
| `StoreRefinement.FrameKeepsRefinement` | storage/sqlite/sqlite.go:2806-2860 | An operation on one workspace leaves what every other workspace reads unchanged. |
| `RowIntervals.AtMostOneVisible` | storage/sqlite/sqlite.go:1598-1608 | Disjoint intervals make a read at any version functional per path. |
| `RowIntervals.ReplaceKeepsIntervals` | storage/sqlite/sqlite.go:1332-1336 | Closing the prior rows of updated paths and inserting new ones keeps intervals disjoint and closed ends below the newest version. |
| `RowIntervals.ReplaceKeepsOldViews` | storage/sqlite/sqlite.go:2806-2813 | A publication changes no read at an earlier version. |
| `RowIntervals.ReplaceNewView` | storage/sqlite/sqlite.go:1332-1336 | The new version reads as the prior sources overridden by the update, nothing else. |
| `RowIntervals.CloseMissingKeeps` | storage/sqlite/sqlite.go:2815-2831 | Closing unstaged sources keeps the interval invariant and every earlier read. |
| `RowIntervals.CloseMissingNewView` | storage/sqlite/sqlite.go:2815-2831 | After closing unstaged sources the new version shows exactly the staged part. |
| `RowIntervals.RollbackKeeps` | storage/sqlite/sqlite.go:2833-2849 | Deleting newer rows and reopening keeps the invariant and every read up to the target. |
| `RowIntervals.RebaseNeverClashes` | storage/sqlite/sqlite.go:2851-2860 | Rebasing interval starts can never make two rows share a primary key. |
| `RowIntervals.PruneKeeps` | storage/sqlite/sqlite.go:2751-2756 | Rebasing then deleting keeps the invariant and every read from the retained version on. |
| `RowIntervals.RollbackUndoesReplace` | storage/sqlite/sqlite.go:2833-2849 | Reopening after deletion is the exact inverse of closing and inserting. |
| `StoreStatements.NextVersion` | storage/sqlite/sqlite.go:288-291 | The allocated number is one above the largest of the workspace, 1 when there is none. |
| `StoreStatements.CheckDistinct` | storage/sqlite/sqlite.go:3253-3277 | An update is accepted exactly when no source path occurs twice. |
| `StoreStatements.InsertFacts` | storage/sqlite/sqlite.go:3279-3344 | Inserting facts row by row leaves keys already present alone and adds the rest at the version. |
| `RequestEffects.InsertOrIgnoreExactly` | storage/sqlite/sqlite.go:3279-3344 | A key already present wins, and among the inserted rows the first. |
| `StoreStatements.ReplaceContributions` | storage/sqlite/sqlite.go:1307-1355 | Whatever the flush points, the loop over contributions has the effect of closing all updated paths and inserting all new rows. |
| `StoreStatements.ReplaceEdges` | storage/sqlite/sqlite.go:1131-1151 | Edges of owners not replaced are copied from the previous version, then the new edges stored; with no owner named nothing is copied. |
| `StoreStatements.PruneVersions` | storage/sqlite/sqlite.go:2730-2780 | The prune statements together, with the number of versions dropped. |
| `StoreStatements.WritePublication` | storage/sqlite/sqlite.go:1067-1129 | A prepared publication as one transaction on all tables. |
| `GraphStore.ApplyKeepsSurvivors` | storage/sqlite/sqlite.go:316-318 | A version live before and after a request is the same snapshot; the only new one is the next number, and only publish and commit make it. |
| `GraphStore.SurvivorsReadTheSame` | storage/sqlite/sqlite.go:1598-1608 | Every version live before and after an operation reads the same rows, in every workspace. |
| `GraphStore.StepKeepsCoherence` | storage/sqlite/sqlite.go:1889-1899 | Dropping the new version's cache key is enough to keep cached projections of live versions equal to fresh reads. |
| `GraphStore.Store.Publish` | storage/sqlite/sqlite.go:233-321 | The store's tables and abstract history both take exactly the publish step, or stay as they were with the error, the exceeded byte budget included; the cache stays coherent. |
| `GraphStore.Store.Rollback` | storage/sqlite/sqlite.go:2641-2703 | The same for rollback. |
| `GraphStore.Store.Prune` | storage/sqlite/sqlite.go:2705-2728 | The same for prune, returning the number of versions dropped. |
| `GraphStore.Store.ResolverProjections` | storage/sqlite/sqlite.go:1591-1651 | For a live version, a cached or fresh read returns the snapshot's sources. |
| `ContributionSessions.BeginContributionSession` | storage/sqlite/sqlite.go:325-357 | A session for a named workspace starts on the next version with nothing staged, written or stored. |
| `ContributionSessions.ContributionSession.StageSource` | storage/sqlite/sqlite.go:389-405 | Accepts exactly a new non-empty path while open and unsealed; otherwise the session fails. |
| `ContributionSessions.ContributionSession.AddToBatch` | storage/sqlite/sqlite.go:1332-1348 | Closing now and inserting later still amounts to the contributions written so far. |
| `ContributionSessions.ContributionSession.Flush` | storage/sqlite/sqlite.go:1357-1367 | On a store that refines its history a flush never fails, and flush points do not show in the session's tables. |
| `ContributionSessions.ContributionSession.WriteContribution` | storage/sqlite/sqlite.go:407-449 | On a store that refines its history a contribution is accepted exactly when the session is open and unsealed and the path is staged and not yet written; violations close the session. |
| `ContributionSessions.ContributionSession.SealContributions` | storage/sqlite/sqlite.go:451-463 | On such a store sealing succeeds exactly on an open session; it writes out what is buffered and loses nothing. |
| `ContributionSessions.ContributionSession.WriteWorkspaceFacts` | storage/sqlite/sqlite.go:530-548 | Facts accumulate page by page, only between sealing contributions and sealing facts. |
| `ContributionSessions.ContributionSession.CloseMissingSources` | storage/sqlite/sqlite.go:574-587 | With nothing left in the buffer, unstaged sources are closed, once, whether or not contributions were sealed. |
| `ContributionSessions.ContributionSession.SealWorkspaceFacts` | storage/sqlite/sqlite.go:550-572 | Succeeds exactly on an open session whose contributions are sealed, and returns how many distinct nodes and edges the pending version will show. |
| `ContributionSessions.ContributionSession.Commit` | storage/sqlite/sqlite.go:589-643 | The whole session is exactly one commit request on the store, or leaves it untouched, the exceeded byte budget included. |
| `ContributionSessions.ContributionSession.Rollback` | storage/sqlite/sqlite.go:645-654 | A session rolled back is closed and has no effect on the store. |
| `ContributionSessions.StoreFactsTwice` | storage/sqlite/sqlite.go:530-548 | Storing facts page by page equals storing them at once. |
| `EdgeOwnership.ReplacedOwnerExactly` | storage/sqlite/sqlite.go:1131-1151 | One publication: a replaced owner's edges are exactly the written ones if and only if no kept edge of another owner occupies their keys. |
| `EdgeOwnership.LatestReplacementWins` | storage/sqlite/sqlite.go:1067-1073 | Over any run of publications an owner's edges are those of the latest publication that replaced it. |
| `EdgeOwnership.NeverReplacedHasNone` | index/index.go:216-224 | An owner never replaced has no resolved edges. |
| `EdgeRuns.RunTracks` | storage/sqlite/sqlite.go:3279-3344 | In every run, rollbacks and prunes included, every live version's edges are determined by the publications up to it that were not rolled back. |
| `EdgeRuns.TableEdgesComeFromLatest` | storage/sqlite/sqlite.go:1131-1151 | In the tables after any run: an owner's edges read at a live version are those written by the latest publication up to it, among those not rolled back, that replaced the owner. |
| `ProjectionCaching.ProjectionCache.Oldest` | storage/sqlite/sqlite.go:1877-1887 | The entry with the least insertion order, none only when the cache is empty. |
| `ProjectionCaching.ProjectionCache.EvictFor` | storage/sqlite/sqlite.go:1864-1871 | Eviction ends and makes room; what survives is newer than what went, and nothing went that could have stayed. |
| `ProjectionCaching.ProjectionCache.Insert` | storage/sqlite/sqlite.go:1851-1875 | The value becomes the newest entry unless it is too large. The byte counter stays the sum of the entries if and only if the key was absent, its old entry was empty, or the value fits beside everything newer than the old entry, which the same contents always do; otherwise the counter falls behind by exactly the old bytes. |
| `ProjectionCaching.SurvivesExactly` | storage/sqlite/sqlite.go:1861-1871 | The old entry of a key that is cached again survives eviction exactly when the new value fits beside everything newer. |
| `ProjectionCaching.SameValueFits` | storage/sqlite/sqlite.go:1861-1871 | What is cached fits beside everything newer, so caching the same contents again keeps the counter exact. |
| `ProjectionCaching.RecachingDrifts` | storage/sqlite/sqlite.go:1861-1871 | With two entries in a cache of ten bytes, caching the older key again with larger contents leaves the counter four bytes short. |
| `ProjectionCaching.ProjectionCache.Invalidate` | storage/sqlite/sqlite.go:1889-1899 | Exactly the entries of the workspace whose version matches are removed, with their bytes. |
| `InsertBatches.BindChunk` | storage/sqlite/batch.go:29-35 | The bound arguments of a chunk decode to exactly its rows; a row of another width is refused. |
| `InsertBatches.InsertRows` | storage/sqlite/batch.go:10-42 | Success delivers exactly the rows in order, failure a prefix; every statement stays within the variable and row limits and all but the last are full; each error exactly in its case, unless a failing statement came first. |
| `InsertBatches.RowsPerStatementIsMost` | storage/sqlite/batch.go:18-21 | A statement carries the most rows that keep both limits. |
| `PublicationBatches.EstimateBytes` | storage/sqlite/sqlite.go:1369-1387 | Eight bytes per row plus its values, over all tables. |
| `PublicationBatches.RowBytesAppend` | storage/sqlite/sqlite.go:1369-1387 | Values add up over a row: texts and blobs by their length, anything else eight bytes, and eight for the row. |
| `PublicationBatches.JoinedTotals` | storage/sqlite/sqlite.go:1346-1348 | Counters of buffered rows add up when a contribution is appended to every table. |
| `PublicationBatches.PublicationBatch.FlushInsertion` | storage/sqlite/sqlite.go:1389-1405 | One table's buffer moves to the database; nothing is lost, repeated or reordered in any table. |
| `PublicationBatches.PublicationBatch.Flush` | storage/sqlite/sqlite.go:1357-1367 | All buffers move; the flush recorded holds at most the limits or a single contribution. |
| `PublicationBatches.PublicationBatch.Add` | storage/sqlite/sqlite.go:1307-1355 | Each table has received its earlier rows followed by the contribution's, and every flush was within the limits or of a single oversized contribution. It flushes first exactly when the contribution does not fit beside what is held, and again exactly when a limit is reached; otherwise no statement is executed. |
| `PublicationBatches.WriteAll` | storage/sqlite/sqlite.go:1077-1129 | Adds followed by a final flush deliver to each table exactly the prepared rows in order, within the variable limit, in flushes that together hold every source and row and each keep the limits or hold a single oversized source; without a failing statement, rows of one width per table are written if and only if every table can take them. |
| `GraphWalks.ClosedBallIsAll` | storage/sqlite/sqlite.go:2285-2296 | A ball that no step leaves contains everything reachable. |
| `GraphWalks.WalkInBall` | query/path.go:177-246 | The end of a walk lies within its length. |
| `GraphWalks.BallHasWalk` | query/path.go:177-246 | Every node within k steps has a walk of at most k steps. |
| `GraphWalks.LeadsExactly` | storage/sqlite/sqlite.go:3127-3135 | Outgoing follows an edge from source to target, incoming the other way, both is either; no relations permit all. |
| `Traversal.HasTraversableNeighbor` | storage/sqlite/sqlite.go:3167-3182 | True exactly when a permitted edge leads from the node to an unselected one, existing or not. |
| `Traversal.SelectStarts` | storage/sqlite/sqlite.go:2203-2231 | The first existing starts are selected up to the node limit, and the limit is reported exactly when it cut some off; it fails exactly when an existing start outside the scope comes before the cut. |
| `Traversal.ExpandLevel` | storage/sqlite/sqlite.go:2232-2284 | One level takes the search from distance d to distance d + 1 or to the node limit, keeping a shortest tree; every edge of the expanded nodes is dealt with and no other recorded. |
| `Traversal.CutIsNearest` | storage/sqlite/sqlite.go:2272-2284 | A cut between two consecutive balls is nearest-first. |
| `Traversal.Traverse` | storage/sqlite/sqlite.go:2186-2306 | For every request, with or without a project scope: refused exactly when malformed or when an existing start outside the scope is met; never more nodes than the limit, both ends of every edge selected. Reach continues from nodes in the scope only, and exactly the nodes in reach within the depth are selected unless cut, the cut nearest-first; the edges are exactly those followed to a selected node, except that some leaving the scope may be missing once the limit is reported, and that there are none when the starts alone exceed the limit; the depth limit is reported exactly when a node of the scope at the last distance leads on; everything in reach is selected when no reason is reported; the boundary names a selected or omitted node one step outside the scope, and none is named only if no such node is selected. |
| `Traversal.EdgesWithinDepth` | storage/sqlite/sqlite.go:2272-2280 | Unless the node limit is reported, every permitted edge from a node of the scope short of the depth limit to an existing node is returned, whether or not that node was reached before; at depth 0 there are none. |
| `Traversal.LimitReportedExactly` | storage/sqlite/sqlite.go:2257-2280 | Along one edge: with the selection full, the node limit is reported and the edge dropped exactly when the edge leads to an unselected node or to one outside the scope, selected or not; otherwise the edge is recorded, a new node selected, and expanded later only within the scope. |
| `Traversal.NodeLimitExactly` | storage/sqlite/sqlite.go:2257-2280 | The node limit is reported exactly when more nodes are in reach than allowed, unless there is a scope and exactly as many are in reach as allowed; then it may be reported although none is left out. |
| `Traversal.SelectedOutsideReportsLimit` | storage/sqlite/sqlite.go:2262-2270 | Two edges to the same node outside the scope: with room for all nodes the second is dropped and the node limit reported. |
| `Traversal.DepthLimitExactly` | storage/sqlite/sqlite.go:2285-2296 | Unless the node limit is reported, the depth limit is reported exactly when a reachable node was left out, if and only if no node of the scope at the last distance has a dangling edge or something lies beyond it anyway. |
| `Traversal.DanglingEdgeReportsDepth` | storage/sqlite/sqlite.go:3167-3182 | From a node whose only edge dangles, a traversal of depth 0 reports the depth limit although nothing was left out. |
| `ShortestPaths.ReverseInPlace` | query/path.go:252-263 | The array is reversed. |
| `ShortestPaths.BuildAdjacency` | query/path.go:189-195 | A node's list holds exactly the edges that can be followed from it, both ways when undirected. |
| `ShortestPaths.DistanceIsLeast` | query/path.go:207-230 | Queue order makes the recorded distance of every settled node the least one. |
| `ShortestPaths.Reconstruct` | query/path.go:235-245 | Following predecessors and reversing yields a path of the recorded length. |
| `ShortestPaths.ShortestPath` | query/path.go:177-246 | A path is returned exactly when the target is reachable, and it is as short as any. |
| `FindPaths.SubgraphBallReaches` | query/path.go:85-100 | Distances inside the bounded subgraph equal those of the whole graph for every selected node. |
| `FindPaths.BoundedShortestIsGlobal` | query/path.go:85-115 | A shortest path of the bounded subgraph is shortest in the whole graph. |
| `FindPaths.PathInScope` | query/path.go:85-115 | A path never has two successive nodes outside the scope, and none when no boundary node is reported. |
| `FindPaths.SearchBounded` | query/path.go:85-115 | One bounded search: it is refused exactly when the source exists outside the scope; any path returned is within depth and as short as any in the whole graph that continues from nodes in the scope only, and one is found exactly when the target is in reach, provided the node limit leaves room for all in reach. |
| `FindPaths.FindPathSnapshot` | query/path.go:55-116 | Directed search with undirected fallback, tried exactly when allowed and the directed search found nothing: paths returned are shortest in the graph they answer for, reachable targets are found, ambiguous endpoints are reported; it is refused exactly when the source exists outside the scope, and a path without a boundary node stays inside. |
| `FindPaths.CandidatesAndRemainder` | query/path.go:147-159 | Of several candidates for an endpoint the first three are shown and the others counted. |
| `ReorderWindow.StepKeepsInv` | storage/sqlite/sqlite.go:1162-1225 | Every channel step keeps each contribution in exactly one place and the tokens in balance. |
| `ReorderWindow.ReorderSafety` | storage/sqlite/sqlite.go:1077-1129 | In every interleaving contributions are written in index order, once each; at most three per worker are issued but unwritten, and only that bound holds the issuer back; returning a token never blocks. |
| `ReorderWindow.ReorderProgress` | storage/sqlite/sqlite.go:1162-1225 | Until all are written some step is enabled. |
| `ReorderWindow.ReorderTerminates` | storage/sqlite/sqlite.go:1162-1225 | Every step decreases a measure, so every run ends. |
| `ExtractionPipeline.Conservation` | index/initial_pipeline.go:148-322 | In every interleaving each source sent is in exactly one place: queued, in work, in results, written or dropped; and none is dropped unless something failed. |
| `ExtractionPipeline.WriteIsAllowed` | index/initial_pipeline.go:253-322 | The consumer only writes sources the session has staged and not yet seen written. |
| `ExtractionPipeline.SuccessWritesEverything` | index/initial_pipeline.go:253-322 | A run that reports success staged every source, each once, and wrote every one exactly once. |
| `ExtractionPipeline.SuccessExactly` | index/initial_pipeline.go:271-321 | A finished run reports success if and only if none of its steps was a failure, an abort or the caller's cancellation. |
| `ExtractionPipeline.FailureStopsWriting` | index/initial_pipeline.go:271-300 | After a failure nothing more is written, and the failure stays on record. |
| `ExtractionPipeline.Progress` | index/initial_pipeline.go:205-322 | Until the consumer finishes, some step that is not itself a failure is enabled: no deadlock. |
| `ExtractionPipeline.QueuesAreBounded` | index/initial_pipeline.go:148-165 | In every reachable state neither channel holds more than 32 entries, and a send waits only on a channel that holds 32. |
| `ExtractionPipeline.PipelineTerminates` | index/initial_pipeline.go:148-322 | Every step lowers a non-negative measure, except that the caller's cancellation leaves it alone: every run ends. |
| `ExtractionPipeline.SuccessfulRunIsTheSnapshot` | index/initial_pipeline.go:148-322 | After a successful run the committed version shows exactly the staged sources with their extracted contents, nothing left from before. |
| `IndexerQueue.WithRetryBackoff` | indexer/queue.go:46-55 | A positive base replaces the base, a maximum not below the resulting base replaces the maximum, nothing else changes; a valid configuration stays valid, and the base ends up at most the maximum exactly when it fits the maximum asked for or the one set before. |
| `IndexerSafety.StepKeepsInv` | indexer/queue.go:71-193 | Every action keeps the queue invariant, stale callbacks and restarts included. |
| `IndexerSafety.QueueSafety` | indexer/queue.go:71-193 | In every run at most one publish is in flight and holds the owner lock, pending has no duplicates and equals its set, and pending plus in flight is exactly what was accepted and not yet in a successful batch. |
| `IndexerSafety.RetryDelayIsBackoff` | indexer/queue.go:171-182 | The delay always matches the number of failures in a row. |
| `IndexerSafety.FailureArmsBackoff` | indexer/queue.go:162-192 | A failure of a worker that is not stopping leaves a callback outstanding with that delay, one failure further. |
| `IndexerSafety.SuccessArmsThrottle` | indexer/queue.go:179-192 | A successful publish that leaves work for a worker that is not stopping makes a new callback outstanding with exactly the throttle as its delay. |
| `IndexerSafety.EnqueueArmsThrottle` | indexer/queue.go:95-103 | So does an enqueue that leaves work for a worker with no callback or publish under way. |
| `IndexerSafety.BackoffIsCappedDoubling` | indexer/queue.go:171-178 | The curve is min(base * 2^(k-1), max) for every k if and only if base is at most max. |
| `IndexerSafety.StallsExactly` | indexer/queue.go:83-109 | A step leaves pending work that no publish in flight and no outstanding callback will pick up exactly in the two cases named under Findings. |
| `IndexerSafety.NotStalledIsScheduled` | indexer/queue.go:83-109 | In every run pending work is stalled exactly when no callback and no publisher return is possible; otherwise, with none in flight, whichever callback runs first publishes all of it. |
| `IndexerSafety.GivenUpCallbackStillPublishes` | indexer/lifecycle.go:164-183 | A stop that is too late for the timer and then fails to close the owner does not stall: the callback it gave up still publishes the queue. |
| `IndexerSafety.NoStall` | indexer/lifecycle.go:151-188 | Runs whose paths normalise and whose owner closes succeed never stall. |
| `IndexerSafety.StallIsReachable` | indexer/queue.go:83-87 | One bad path after a good one stalls a fresh worker. |
| `Common.UniqueInOrder` | indexer/queue.go:227-239 | First occurrences in order: no duplicates, no loss. |
| `Common.FirstOccurrencesPrefix` | indexer/queue.go:227-239 | What was kept of a sequence stays in front, in order, whatever follows. |
| `IndexerManager.AppendPaths` | indexer/queue.go:83-95 | New paths before the first that does not normalise are appended once each. |
| `IndexerManager.MergeBack` | indexer/queue.go:166-170 | A failed batch goes back in front of what was queued meanwhile, without duplicates. |
| `IndexerManager.Manager.Start` | indexer/lifecycle.go:79-117 | The start step of the machine: a fresh worker with its lock unless there is one or the lock is not acquired. |
| `IndexerManager.Manager.Enqueue` | indexer/queue.go:71-103 | The enqueue step, accepted exactly by a live worker that is not stopping when every path normalises. Field by field: the new paths follow the pending ones without duplicates, and exactly when all normalise, work is pending and neither publish nor timer is under way, a new timer waits for the throttle; otherwise the timers are untouched. |
| `IndexerManager.Manager.BeginCallback` | indexer/queue.go:144-161 | The first critical section of a publish callback, stale or not: all pending paths go into one flight, or nothing changes but the callback being spent. |
| `IndexerManager.Manager.EndCallback` | indexer/queue.go:162-193 | The second critical section, field by field: on success what was queued waits for the throttle, on failure the batch returns in front and waits for the base delay, or twice the last one up to the maximum; a worker replaced meanwhile is left alone. |
| `IndexerManager.Manager.StopPass` | indexer/lifecycle.go:151-188 | One pass of the stop loop, which repeats only while a publish is in flight: the timer is given up, and removed only if it could be stopped; a closed worker and its lock go, one that fails to close stays and may work again. |
| `ReExports.RoundsFacts` | extractors/typescript/resolver.go:456-494 | After k rounds every surface comes from a declared one by a finite chain, lists have no duplicates and all chains of k hops are covered. |
| `ReExports.DerivableExactly` | extractors/typescript/resolver.go:405-430 | A file exports what it declares and what its re-exports take by name or as a whole, under the names they give it; `export *` takes everything but the default export. |
| `ReExports.StarLeavesOutDefault` | extractors/typescript/resolver.go:416-428 | A file whose only bindings are `export *` and which declares no default export has none, neither derivable nor after any number of rounds. |
| `ReExports.RoundFollowsOrder` | extractors/typescript/resolver.go:465-492 | Within a round a file takes what the files before it gained in the same round. |
| `ReExports.CompleteExactly` | extractors/typescript/resolver.go:465-492 | The surfaces are exactly the derivable ones if and only if one more round adds nothing. |
| `ReExports.AddSurface` | extractors/typescript/resolver.go:496-507 | A surface is added exactly when it is new for the file. |
| `ReExports.ResolvedSurfaces` | extractors/typescript/resolver.go:456-507 | The loop computes the rounds; its result is sound and duplicate-free, and complete when it settles or when short chains suffice. |
| `ReExportConvergence.CyclesKeepNamesConverge` | extractors/typescript/resolver.go:456-494 | When re-exports that lie on a cycle keep names, while others may rename, the round bound suffices and the result is complete. |
| `ReExportConvergence.AcyclicConverges` | extractors/typescript/resolver.go:465-492 | With acyclic re-exports the round bound suffices and the result is complete. |
| `ReExportConvergence.KeptNamesConverge` | extractors/javascript/resolver.go:430-481 | With re-exports that keep names the round bound suffices and the result is complete, cycles included. |
| `ReExportConvergence.RenamingCycleIsCutShort` | extractors/typescript/resolver.go:465-492 | A one-file cycle that renames loses a derivable surface. |
| `ReExportConvergence.RenamingCycleMayConverge` | extractors/typescript/resolver.go:465-492 | A cycle that renames for which the bound still suffices: keeping names on cycles is not necessary. |
| `Paging.PageContinues` | storage/sqlite/sqlite.go:666-684 | A page taken at the last path seen is exactly the next stretch of the ordered sources. |
| `Paging.Memo.Get` | extractor/page_resolver_index.go:34-52 | The memo always answers what the index would. |
| `Paging.VisitPackage` | extractors/go/resolver.go:265-288 | For any page size the visit succeeds exactly when every source of the package can be read and is accepted, and then visited each once, in order; a refusal stops it at the source refused, a failed read at a page that holds an unreadable source; it always ends. |
| `PageResolution.PageTarget` | extractors/typescript/resolver.go:223-238 | Missing exactly when no candidate is indexed; otherwise the answer for the first candidate that is not missing, a hit or a failed read, through the memo. |
| `PageResolution.ReferenceEdges` | extractors/typescript/resolver.go:119-156 | A reference yields exactly the edge to the target file and to every surface its bindings take, or its error. |
| `PageResolution.ReferenceEdgeExactly` | extractors/typescript/resolver.go:119-156 | Without the functions the loops use: an edge of a reference starts at its source, has the relation of its language and kind and the evidence of the source's file, ambiguous where the reference is, and ends at the first file node of the first indexed candidate or at a surface of it that a binding names. |
| `PageResolution.ReferenceFailsExactly` | extractors/typescript/resolver.go:119-156 | A reference fails exactly when its first indexed candidate cannot be read, has no file node, or is the target of a require in TypeScript. |
| `PageResolution.SymbolEdges` | extractors/typescript/resolver.go:194-221 | A symbol reference yields exactly the surfaces imported under its name, unless an import's target cannot be read. |
| `PageResolution.SymbolEdgeExactly` | extractors/typescript/resolver.go:194-221 | An edge of a symbol ends at a surface that an import binds under that name, in the first indexed candidate of the import. |
| `PageResolution.FileOfIsFirst` | extractors/typescript/resolver.go:251-258 | The file fact of a list of nodes is its first file node. |
| `PageResolution.EdgeEnds` | extractor/contracts.go:213-262 | An edge leads from a node of its source to a node of one of the source's targets. |
| `PageResolution.PageDecidesPermission` | graph/facts.go:184-257 | Validating an edge against the nodes its page collected gives the verdict of the whole index. |
| `PageResolution.PageDecidesNodes` | graph/facts.go:184-211 | All nodes a page collected are valid exactly when those of its sources and of their targets are. |
| `PageResolution.ResolvePage` | extractors/typescript/resolver.go:88-192 | Edges, with their evidence, are exactly those of the page's sources; it fails exactly when one of the sources does, by a failed read, a missing file fact, an unsupported kind, an invalid node or evidence, or an edge the vocabulary does not permit, each decided without its page. |
| `ProjectionPages.PageDependencies` | index/index.go:576-602 | A source's dependencies do not depend on which sources share its page. |
| `ProjectionPages.WithResolvedDependencies` | index/index.go:576-624 | Each source of the page is given exactly the other files its edges reach. |
| `ProjectionPages.ResolveGroup` | index/initial_pipeline.go:406-452 | The keyset loop of one project and language: each source exactly once, for any page size. |
| `ProjectionPages.ResolveProjectionPages` | index/initial_pipeline.go:396-455 | All pages of all TypeScript and JavaScript groups together succeed exactly when every source of every group can be read and resolves, and then hold exactly the edges and dependencies of all sources. |
| `ProjectionPages.PageSizeDoesNotMatter` | index/initial_pipeline.go:396-455 | Two runs with different page sizes fail together, or give the same edges and the same dependencies. |
| `Specifiers.FailsAtFirstProblem` | extractors/typescript/typescript.go:649-716 | The analysis succeeds exactly on bounded expressions; otherwise it reports the first offending node in preorder. |
| `Specifiers.CandidatesExact` | extractors/typescript/typescript.go:649-716 | The candidates are exactly the values some choice of conditions leads to, without duplicates. |
| `Specifiers.DynamicExactly` | extractors/typescript/typescript.go:649-703 | The ambiguity flag is set exactly when there are several values or the expression is a conditional up to parentheses. |
| `Specifiers.UnambiguousIsConstant` | extractors/javascript/javascript.go:490-544 | An unflagged result is the expression's value under every choice. |
| `Specifiers.StringSpecifierCandidates` | extractors/typescript/typescript.go:649-716 | The recursive analysis with its loops over concatenations computes the candidates in order. |
| `Specifiers.ModuleSpecifiers` | extractors/typescript/typescript.go:605-630 | Static references pass through; a dynamic one yields every possible value once with the right flag, refused exactly when unbounded or above 100 values. |

## Left out

- The ten contribution tables are changed by the same statements with the same conditions; one row with bundled contents stands for them in the store model.
- ReplaceContributionDependencies is not a step of the session; the dependencies it would write are the result of `ProjectionPages.ResolveProjectionPages`.
- Isolation between a session and other writers is SQLite's; a session here commits on the store it began on, unchanged in between.
- GraphStore.Store.Publish: timestamps, progress and measurements are not part of the request or the result; that the database fits its byte budget is measured by SQLite and given as a parameter.
- ContributionSessions.ContributionSession.Commit: a failing commit is modelled as a failing transaction; the rollback error text is not.
- EdgeOwnership.LatestReplacementWins: assumes that new edges belong to replaced owners and that an edge key determines its owner; ReplacedOwnerExactly says what happens otherwise.
- Traversal.Traverse: the scope closure query is a parameter, and results hold for any order of starts and edges, so sorting is not modelled; which edges leaving the scope are dropped once the limit is reported depends on that order and is stated edge by edge (LimitReportedExactly).
- FindPaths.FindPathSnapshot: endpoint lookup is given as candidate lists.
- ReorderWindow.ReorderProgress: preparation errors and cancellation, which end the run early, are not modelled.
- Indexer: idle timers, reconciliation timers and status fields are not modelled, and durations are unbounded integers.
- PublicationBatches.PublicationBatch.Add: the closing of prior rows inside add belongs to `StoreStatements.ReplaceContributions` and the session, not to this class.
- InsertBatches.InsertRows: the text of the statement is not built; a statement is its table, width and arguments.
- ReExports.ResolvedSurfaces: which file a relative specifier resolves to is given; the ambiguity rules of section 16.2.1.6 of ECMA-262 are not implemented by the program and not modelled.
- ReExportConvergence.CyclesKeepNamesConverge: one-way; no condition on the re-export graph alone is exact, as RenamingCycleMayConverge shows.
- PageResolution.ResolvePage: diagnostics and the final sort are not modelled; candidate paths of a specifier, the vocabulary and the paths whose reads fail are given.
- ProjectionPages.ResolveProjectionPages: Go groups, which resolve by package, are not covered; `Paging.VisitPackage` covers their paging.
- ProjectionPages.PageSizeDoesNotMatter: Go groups are not covered.
- Paging.VisitPackage: membership in a package is an arbitrary ordered list, not the LIKE pattern of the query; which reads fail is fixed by the source, not by chance.
- Specifiers.ModuleSpecifiers: tree-sitter parsing and string unquoting are inputs of the expression.
- Equality of incremental update and fresh index, and of batch and page resolution with re-exports, do not hold in the program and are not stated.
- Workspace discovery, ignore rules, extraction, vocabulary validation, ranking, rendering, CLI, sockets and the installer would add foreign calls or easy members.
