# Verified model of code-memory's stateful core

code-memory indexes a source repository into a symbol graph, a vector collection,
a claims database and a few files beside the repository. This project models the
parts whose promises only show over whole runs, and proves them for all inputs and
all runs. The databases, git objects and files appear as maps and sequences;
queries are transcribed as updates of those maps.

| modules | part of the program |
|---|---|
| `SymbolKeys`, `Extraction`, `TemporalGraph`, `GraphIngest`, `GraphRows`, `GraphRefinement`, `TimeTravel`, `Vacuuming`, `GraphLimits`, `Callers` | the temporal symbol graph: the rows of a file, tombstones, revival, vacuum, the live view and the view at a commit |
| `Architecture`, `LayerLaws`, `LayerProjection` | classification of files into layers and its projection into the graph |
| `GitNames`, `GitDelta`, `Ingest` | what git prints and what is read back from it, incremental against full ingest over any number of rounds |
| `Rebuild`, `RebuildRoots` | the shadow rebuild with a crash or an exception after any step, for one root and for several |
| `ClaimsStore`, `ClaimsTimeline`, `ClaimsMetadata`, `ClaimsIndex` | the bi-temporal claims table and its semantic index |
| `Resolver`, `ResolverTiers`, `ResolverPass`, `ResolverOrder`, `ResolverLiveness`, `ResolverWriteback` | the call resolver: cascade, one law for each tier, counters, row order, tombstones among the rows, rewriting of the graph |
| `Float32`, `EmbedCodec`, `EmbedCache`, `EmbedRuns` | rounding to 32-bit floats, the embedding cache and the embedder around it |
| `GitTree`, `SnapshotStore`, `SnapshotDigest` | snapshots on a git branch and their digest |
| `Registry` | the watch registry under a file lock |
| `TextOps`, `Hooks` | string operations; editing of git hook files |
| `Wrappers`, `Folds` | options, results, folds over query rows |

Operations that change state in the program are methods here (of a class where the
program has an object), each proved against a function of the old state; the
promises are then proved about those functions as lemmas and preserved invariants.
Where such a function is itself a choice of branches or fields, laws on the stored data
say what it must be: `GraphRows`, `ResolverTiers` and `LayerLaws` hold nothing else.

## What does not hold, and exactly when it does

Each of these is a lemma that names the condition under which the promise is kept.

- Two files that declare parts of one partial class share a graph node. Deleting one
  hides the class in the other (`GraphLimits.DeleteHidesSibling`,
  `GraphLimits.DeletedFromAnswer`, `GraphLimits.PartialClassVanishes`); ownership by file is claimed for file-scoped
  keys only.
- The comment at `src/code_memory/graph/falkor_store.py:131-133` says that an upsert
  always clears tombstones. An unstamped one does not (`GraphLimits.UnstampedReingest`).
- An upsert merges properties and removes none. A symbol keeps the parameter count,
  namespace or partial flag of an earlier declaration under the same key when the
  present one has none (`GraphLimits.PropRightIff`, `GraphLimits.ParamsOutlive`), and
  where one call of a name has a receiver type and a later, different one has none, the
  edge carries the arity of the one and the receiver of the other
  (`GraphLimits.ReceiverRightIff`).
- Without a commit a deleted file leaves its symbols in the graph, with nothing that
  defines them (`GraphLimits.UnstampedDelete`).
- `delete_file` restamps what is already tombstoned, so `at_sha` reports some symbols
  that were dead at the time, and never misses one (`TimeTravel.AtShaExactly`).
- Outside git nothing retires an IN_LAYER edge, so a file keeps every layer it ever
  had and a dead edge is not revived (`LayerProjection.UnstampedIsRightIff`).
- A sweep at a commit buries the Layer nodes that only files under another root need,
  while those files keep their IN_LAYER edges (`LayerProjection.ElsewhereLayerSweptIff`,
  `LayerProjection.SecondRootBuriesLayers`).
- The git delta misses some changes of the worktree, and deletes some files that are
  there (`GitDelta.CoversIff`, `GitDelta.UnreportedIff`, `GitDelta.DeletedButPresent`):
  - The comment in `dirty_deleted_files` says that a staged rename is covered by the
    diff. It is not: the old path stays in the index until the rename is committed
    (`GitDelta.StagedRenameIsMissed`).
  - A D column is taken for a deletion, but in a conflict of a change with a deletion
    the file is on disk: it is not reingested (`GitDelta.DeletedByUs`) or taken out
    (`GitDelta.DeletedByThem`). The source of a copy is deleted as well
    (`GitDelta.CopyDropsItsSource`).
  - Names come back only as git prints them bare: a name with a blank, a quote, an
    arrow or anything beyond ASCII is not found on disk
    (`GitNames.ReadsBackIff`, `GitDelta.UnreadableNameIsMissed`,
    `GitDelta.QuotedChangeIsMissed`).
- Every ingest takes in the dirty worktree and records HEAD. A dirty file that was
  indexed and is then reverted appears in no later report and stays stale
  (`Ingest.RevertedStaysStale`, `GitDelta.GoneBackIsUnreported`).
- An incremental ingest also differs from a full one for touched files that the walk
  would ignore and for indexed files that stop being extractable
  (`Ingest.CoveredIsFullIff`), and after a change of the ignore rules
  (`Ingest.NewRulesAreMissed`).
- A crash during the copy of vector points, or between the deletion and the copying of
  the live graph, leaves the shadow as the only complete copy, and the next rebuild
  starts by dropping it (`Rebuild.RestartKeepsVectorsIff`,
  `Rebuild.RestartKeepsGraphIff`, `Rebuild.VectorsCanBeLost`, `Rebuild.GraphCanBeLost`).
- A rebuild that ends in an exception leaves the process routing its upserts to the
  shadows; a reingest from a save hook then deletes from a live store and writes
  elsewhere, and where one store was promoted and the other not, the two part
  (`Rebuild.FailedRebuildMisroutes`).
- Checkpoints are kept per root and the live stores per project: a rebuild of another
  root, finished or crashed after it has emptied the live collection, leaves this
  root's checkpoint behind, and so does an incremental ingest of a process that still
  routes to a shadow (`RebuildRoots.RowRightIff`,
  `RebuildRoots.CrashedOtherRootLeavesWrongRow`,
  `RebuildRoots.MisroutedIncrementLeavesWrongRow`).
- An index payload carries the confidence, the start and the commit of the last
  assertion; the row keeps the highest confidence, its first start and the last commit
  that was named (`ClaimsIndex.RefreshedFields`, `ClaimsMetadata.MetadataOfTurns`).
- A row without a point stays without one until a new indexer is made, because the
  check is done once per indexer (`ClaimsIndex.MissingUntilNewIndexer`).
- The DEFINES rows come in the order of their start lines only. Where two contenders of
  a call's own file start on one line, which takes a shared partial declaration, the
  target depends on the order the database gives (`ResolverOrder.OrderIndependentIff`,
  `ResolverOrder.FileScopedRowsDoNotTie`).
- A definition that a file imports under two module names counts twice among what the
  imports reach, so the edge stays ambiguous (`ResolverTiers.TwiceImportedIsAmbiguous`).
- The resolver's load query does not ask whether a definition is alive. A symbol that
  moved down its file leaves a tombstone with a smaller line: references in the file go
  to the tombstone, others turn ambiguous (`ResolverLiveness.SameFileIff`,
  `ResolverLiveness.PlainIff`, `ResolverLiveness.MovedResolvesToTombstone`,
  `ResolverLiveness.MovedIsAmbiguous`).
- `edges_total` leaves references out, so it is the sum of the outcome counters only for
  a graph without them (`ResolverPass.PassConserves`).
- A repeated cached text counts as a miss (`EmbedRuns.MissesCountComputationsIff`);
  a vector that is not made of 32-bit values changes when it comes from the cache
  (`EmbedCodec.RoundTripInvisibleIff`), and one too large cannot be stored
  (`Float32.TooLargeIff`); a model that changes behind a memoised id spoils the cache
  (`EmbedRuns.StaleIdIff`). The module documentation speaks of
  entries not read for some days; the vacuum goes by insertion time.
- Writing an unchanged snapshot again does not make it recent, writing a changed one
  does (`SnapshotStore.RewriteKeepsItsAge`, `SnapshotStore.FreshWriteIsKept`), and `gc` returns the number of removed paths,
  manifests included, where its documentation says snapshots.
- Edges that differ only in their end labels tie in the digest's sort, so a reordered
  snapshot can be rejected (`SnapshotDigest.OrderInvisibleIff`,
  `SnapshotDigest.SameEndsRejected`).
- A start marker without an end marker in a hook file makes the second install swallow
  what lies between (`Hooks.InstallTwiceIff`); an end marker inside the trigger is
  taken for the block's end (`Hooks.TriggerWithEndIff`); a file whose end markers all
  stand before its start marker makes install and uninstall raise (`Hooks.FailsIff`).

## Model

| member | source | states |
|---|---|---|
| SymbolKeys.KeyInjective | src/code_memory/orchestrator/pipeline.py:1865-1881 | keys of file-scoped symbols determine file, name and line, whatever `:` and `#` the name contains |
| SymbolKeys.PartsShareAKey | src/code_memory/orchestrator/pipeline.py:1865-1881 | the parts of one partial class are one symbol, whatever their files and lines |
| SymbolKeys.OwnerOfSymbolKey | src/code_memory/orchestrator/pipeline.py:1865-1881 | a key belongs to the file that wrote it unless it is a shared partial declaration |
| SymbolKeys.ClashIff | src/code_memory/orchestrator/pipeline.py:1865-1881 | exactly which pairs of paths can produce the same key |
| TemporalGraph.FalkorStore.UpsertNodeRows | src/code_memory/graph/falkor_store.py:107-170 | batching by label gives the graph that upserting row by row gives |
| TemporalGraph.FalkorStore.UpsertEdgeRows | src/code_memory/graph/falkor_store.py:172-226 | batching by end labels and type gives the graph that upserting row by row gives, end nodes created on the way |
| TemporalGraph.FalkorStore.Delete | src/code_memory/graph/falkor_store.py:247-307 | the three tombstoning queries together, or the two detaching ones without a commit, against the deletion as one function of the old graph |
| TemporalGraph.FalkorStore.SweepStale | src/code_memory/graph/falkor_store.py:309-358 | exactly the live nodes of the label that this commit did not confirm are tombstoned; other labels are refused and nothing changes |
| TemporalGraph.FalkorStore.VacuumStore | src/code_memory/graph/falkor_store.py:364-450 | exactly one policy is accepted; a dry run changes nothing; otherwise precisely the collected tombstones go |
| TemporalGraph.VacuumInThreeQueries | src/code_memory/graph/falkor_store.py:434-450 | deleting files, then symbols, then edges removes what the policy collects, no more |
| Vacuuming.VacuumByAge | src/code_memory/graph/falkor_store.py:401-450 | a vacuum by age removes a file or symbol exactly if it is a tombstone of that time or earlier, and an edge exactly if it is one or an end went; the store's method, on the stamps |
| Vacuuming.VacuumByOrdinal | src/code_memory/graph/falkor_store.py:394-450 | the same for ordinals |
| Vacuuming.VacuumOfAll | src/code_memory/graph/falkor_store.py:411-450 | no tombstoned file or symbol and no tombstoned edge is left, nothing alive goes |
| Vacuuming.DeletedFileStaysIff | src/code_memory/graph/falkor_store.py:247-450 | over any run: a deleted file that is not worked on again is still in the graph exactly if it was there and no vacuum since reaches back to the deletion |
| Vacuuming.DroppedSymbolStaysIff | src/code_memory/graph/falkor_store.py:247-450 | the same for each symbol that was deleted with its file or left out by a reingest |
| TemporalGraph.NodeRowsCommute | src/code_memory/graph/falkor_store.py:134-170 | upserts of different labels may run in any order |
| GraphIngest.UpsertGraph | src/code_memory/orchestrator/pipeline.py:1578-1730 | one extraction becomes its file, symbol, module and placeholder rows with duplicates collapsed, written as one graph function |
| GraphIngest.ReingestFile | src/code_memory/orchestrator/pipeline.py:1505-1526 | nothing is deleted when extraction yields nothing; otherwise delete, then write |
| GraphRows.RowsOfUses | src/code_memory/orchestrator/pipeline.py:1641-1722 | the CALLS, REFERENCES and INJECTS edges that an extraction writes run from its file to `name::n` exactly for the names it calls, references and injects |
| GraphRows.CallEdgeAfter | src/code_memory/orchestrator/pipeline.py:1645-1666 | a CALLS edge carries the arity of the last distinct call of the name |
| GraphRows.ReceiverAfter | src/code_memory/orchestrator/pipeline.py:1645-1666 | and the receiver type of the last distinct call of the name that has one |
| GraphRows.SymbolPropsSay | src/code_memory/orchestrator/pipeline.py:1592-1611 | which properties a declaration gives its symbol |
| GraphRefinement.WrittenProp | src/code_memory/orchestrator/pipeline.py:1592-1611 | after a write a symbol carries what the last declaration that gives a property gives |
| GraphRefinement.RunRefines | src/code_memory/graph/falkor_store.py:107-450 | over every run of reingest, delete, vacuum and layer sweep the tombstoned graph refines the map from path to last extraction: files with language and flag, symbols with all they declare, definitions, imports, uses, and placeholders that are never buried |
| GraphRefinement.DefinitionsAreCurrent | src/code_memory/graph/falkor_store.py:960-977 | `definitions(name)` returns exactly the file-scoped symbols of that name in the last extractions, with the lines and kind of the deciding declaration |
| GraphRefinement.ImportersAreCurrent | src/code_memory/graph/falkor_store.py:927-940 | `importers(m)` returns exactly the files whose last extraction imports the module |
| GraphRefinement.UsesAreCurrent | src/code_memory/orchestrator/pipeline.py:1641-1730 | after every run the live call, reference and injection edges are exactly those of the last extractions, unresolved, with the arity and receiver of the deciding calls, to nodes that exist |
| GraphRefinement.ReingestKeeps | src/code_memory/orchestrator/pipeline.py:1505-1526 | one reingest replaces one file in the map and touches no other |
| GraphLimits.DeleteHidesSibling | src/code_memory/orchestrator/pipeline.py:1879-1881 | deleting a file hides another file's symbol exactly when the deleted file was linked to the same node |
| GraphLimits.DeletedFromAnswer | src/code_memory/graph/falkor_store.py:960-977 | so `definitions` of its name drops the other file exactly then |
| GraphLimits.ReingestHidesSibling | src/code_memory/orchestrator/pipeline.py:1505-1526 | the same for a reingest: hidden exactly if it was linked and no longer declares the key |
| GraphLimits.UnstampedReingest | src/code_memory/graph/falkor_store.py:142-170 | an upsert without a commit shows a symbol exactly when its node was absent or alive |
| GraphLimits.PartialClassVanishes | src/code_memory/orchestrator/pipeline.py:1879-1881 | a run in which `definitions` lists a file for a partial class, and no longer does after another file was deleted, though the file still declares it |
| GraphLimits.PropRightIff | src/code_memory/graph/falkor_store.py:155-170 | a property of a symbol is the present declaration's exactly if that gives it, or if no declaration in the file gives it and the node had none |
| GraphLimits.ParamsOutlive | src/code_memory/graph/falkor_store.py:155-170 | a run after which a symbol has a parameter count that its declaration does not have |
| GraphLimits.ReceiverRightIff | src/code_memory/orchestrator/pipeline.py:1641-1666 | the receiver type of a CALLS edge is that of the call that gives its arity exactly if that call has one, or if no call of the name has and the edge had none |
| GraphLimits.DeleteSpares | src/code_memory/graph/falkor_store.py:270-307 | a stamped delete leaves unresolved nodes, other files, symbols that the file never defined and other files' edges as they are |
| GraphLimits.UnstampedDelete | src/code_memory/graph/falkor_store.py:264-272 | a delete without a commit takes the file's definitions and imports out of the answers and leaves its symbols |
| TimeTravel.LifeOfRun | src/code_memory/graph/falkor_store.py:134-307 | the stamps of one symbol after a whole run follow a small automaton over the steps of its own file |
| TimeTravel.StampsOfRun | src/code_memory/graph/falkor_store.py:134-307 | from its first write until a vacuum a symbol's stamps name the first step that declared it, the last one, and, if its file was worked on since, the last step that did, with commit, ordinal and time |
| TimeTravel.AtShaExactly | src/code_memory/graph/falkor_store.py:452-482 | exactly which symbols the view at an ordinal reports after a whole run |
| TimeTravel.AtShaLosesNothing | src/code_memory/graph/falkor_store.py:452-482 | every symbol that was alive after the last step at or before the ordinal is reported |
| TimeTravel.AtShaIsHistory | src/code_memory/graph/falkor_store.py:452-482 | for files not worked on again, the view equals the history of that moment |
| TimeTravel.VacuumKeepsTheView | src/code_memory/graph/falkor_store.py:394-450 | vacuuming before an ordinal changes no view at or after it |
| TimeTravel.VacuumChangesTheView | src/code_memory/graph/falkor_store.py:394-450 | any vacuum keeps a view exactly when it collects nothing that the view reports |
| Callers.FindCallers | src/code_memory/graph/falkor_store.py:646-683 | each file within the clamped depth is reported exactly once, no other is, despite the pruning by seen names and seen callers |
| Callers.VisitFrontier | src/code_memory/graph/falkor_store.py:655-683 | one ring of the walk: the callers of every waiting name that were not seen before |
| Callers.HopCompletes | src/code_memory/graph/falkor_store.py:655-683 | after a ring nothing within one more hop is missing |
| Callers.CallsNameInGraph | src/code_memory/graph/falkor_store.py:685-704 | a one-hop row exists exactly for a live file with a call or reference edge, dead or alive, to a live resolved symbol of the name |
| Callers.RowTells | src/code_memory/graph/falkor_store.py:685-704 | the row of a call carries the file, lines and kind that the called symbol's declaration has |
| Callers.CallersAreTrails | src/code_memory/graph/falkor_store.py:646-704 | on the graph itself: a file is within the depth exactly when a walk of at most that many calls, alternating call and definition edges, leads from it to the name |
| Architecture.SegmentTable | src/code_memory/config.py:647-650 | of all layers that spell a segment the last wins |
| Architecture.AncestorContext | src/code_memory/config.py:588-598 | the nearest ancestor that is not generic, or the root |
| Architecture.ClassifyFileLayer | src/code_memory/config.py:601-676 | the scan against the table agrees with the first matching segment |
| Architecture.ShallowestDecides | src/code_memory/config.py:601-676 | no class exactly when no segment matches; otherwise the class of the first segment that matches, every earlier one matching nothing; an empty table matches nothing |
| LayerLaws.MatchIs | src/code_memory/config.py:539-676 | what one segment says: the rule of the last layer that spells it with the nearest non-generic ancestor as context; failing that the rule that spells what stands behind its last dot or dash, with what stands before as context; failing that the presentation rule for `.api` |
| LayerLaws.ClassifyIs | src/code_memory/config.py:601-676 | a path has the class that its first segment with one says, and none exactly if no segment says anything |
| LayerLaws.DotApi | src/code_memory/config.py:572-586 | `X.Api` is the presentation layer of `X`, or nothing without that rule; but if some rule spells `api`, that rule's |
| LayerLaws.DashApi | src/code_memory/config.py:556-586 | `x-api` says nothing unless a rule spells it or `api` |
| LayerLaws.EmptySideIsSilent | src/code_memory/config.py:542-586 | a segment that starts or ends with its last delimiter has no tail |
| LayerProjection.IndexArchitecture | src/code_memory/orchestrator/pipeline.py:1117-1219 | the marking of stale edges, context writes, upserts and sweep together, as one function of the graph |
| LayerProjection.EachFileInItsLayer | src/code_memory/orchestrator/pipeline.py:1117-1219 | at a commit each live file under the root has a live edge to exactly the layer it classifies to |
| LayerProjection.LayerDescribed | src/code_memory/orchestrator/pipeline.py:1117-1219 | the Layer node of a class, under the root's key, is alive and carries name, rank and context, those of the first file in it |
| LayerProjection.RetiredStamps | src/code_memory/orchestrator/pipeline.py:1149-1162 | an edge that its file's class contradicts becomes a tombstone of this commit, otherwise unchanged |
| LayerProjection.LiveLayers | src/code_memory/orchestrator/pipeline.py:1117-1219 | exactly which layer nodes are alive afterwards |
| LayerProjection.LiveLayersAtNewCommit | src/code_memory/orchestrator/pipeline.py:1117-1219 | at a commit not used before they are exactly those that some live file classifies to |
| LayerProjection.ElsewhereLayerSweptIff | src/code_memory/orchestrator/pipeline.py:1117-1219 | a file under another root keeps its layer edge, and its layer is buried exactly if it was last confirmed at another commit and no file under this root needs it |
| LayerProjection.SecondRootBuriesLayers | src/code_memory/orchestrator/pipeline.py:1117-1219 | two roots indexed in turn at different commits: the first root's files keep their edges to layers that are alive only if the second root needs them |
| LayerProjection.ContextFollows | src/code_memory/orchestrator/pipeline.py:1117-1219 | classified files get their context, unclassified ones lose it, files elsewhere keep theirs |
| LayerProjection.UnstampedNeverRetires | src/code_memory/orchestrator/pipeline.py:1117-1219 | without a commit an edge lives exactly if it already did or is new and right |
| LayerProjection.UnstampedIsRightIff | src/code_memory/orchestrator/pipeline.py:1117-1219 | without a commit the layer is right exactly when no wrong edge is alive and the right one is no tombstone |
| LayerProjection.ProjectionKeepsRefinement | src/code_memory/orchestrator/pipeline.py:1117-1219 | the projection disturbs neither definitions, imports and uses nor any property but contexts |
| GitDelta.ChangedSince | src/code_memory/orchestrator/git_delta.py:120-211 | the loops over diff and status lines gather exactly what each line contributes |
| GitDelta.DiffTells | src/code_memory/orchestrator/git_delta.py:120-142 | from diff lines that are true letter by letter and miss no change, the paths read as changed are those that changed, and the paths read as deleted those that went or were copied |
| GitDelta.RenameIsFollowed | src/code_memory/orchestrator/git_delta.py:131-136 | a committed rename, for all bare names: the new name is reingested and the old one deleted |
| GitDelta.CopyDropsItsSource | src/code_memory/orchestrator/git_delta.py:131-136 | a committed copy: the new name is reingested, and the source deleted though it stays |
| GitDelta.AdditionIsFollowed | src/code_memory/orchestrator/git_delta.py:137-140 | an added file is reingested |
| GitDelta.ModificationIsFollowed | src/code_memory/orchestrator/git_delta.py:137-140 | so is one that was modified or changed its type |
| GitDelta.RemovalIsFollowed | src/code_memory/orchestrator/git_delta.py:137-140 | a removed file is deleted |
| GitDelta.ReingestPaths | src/code_memory/orchestrator/git_delta.py:108-117 | changed and dirty paths, each once, in order of first appearance |
| GitNames.ReadsBackIff | src/code_memory/orchestrator/git_delta.py:145-168 | exactly the names that git prints bare and that hold no arrow are read as they are; on a rename line the old name must hold none |
| GitDelta.CoversIff | src/code_memory/orchestrator/git_delta.py:120-211 | whatever tree was indexed: the delta deals with every difference to the worktree exactly when each such path is told by a diff line under a bare name, by a readable status line with the right columns, or by the misread line of another path |
| GitDelta.MistakesNeedOddNames | src/code_memory/orchestrator/git_delta.py:145-199 | the last only happens to names that start with a quote, or where some printed name holds an arrow |
| GitDelta.UnreportedIff | src/code_memory/orchestrator/git_delta.py:145-199 | which differences to the recorded commit are not told: quoted committed changes, paths with only D columns or unreadable names, removals under an unreadable name or behind a staged rename, none of them with another name mistaken for theirs |
| GitDelta.GoneBackIsUnreported | src/code_memory/orchestrator/git_delta.py:120-211 | a path that is back at the recorded content is told by nothing |
| GitDelta.DeletedButPresent | src/code_memory/orchestrator/git_delta.py:120-199 | a present path is deleted and not reingested exactly when it was the source of a copy, a removal since recreated, has a D column, or is mistaken for a deleted one, and no diff line or other status line brings it back |
| GitDelta.DeletedByThem | src/code_memory/orchestrator/git_delta.py:171-199 | our file in a conflict with their deletion is on disk and is deleted from the index |
| GitDelta.DeletedByUs | src/code_memory/orchestrator/git_delta.py:145-168 | their file in a conflict with our deletion is on disk and is not indexed |
| GitDelta.UnreadableNameIsMissed | src/code_memory/orchestrator/git_delta.py:145-168 | every new file whose name does not come back is missed |
| GitDelta.QuotedChangeIsMissed | src/code_memory/orchestrator/git_delta.py:120-142 | so is every committed change under a name that the diff quotes |
| GitDelta.StagedRenameIsMissed | src/code_memory/orchestrator/git_delta.py:171-199 | one staged rename is missed |
| Ingest.IngestDelta | src/code_memory/orchestrator/pipeline.py:1381-1460 | after the delta the graph refines the updated map; a dry run counts the same and writes nothing |
| Ingest.StatsAre | src/code_memory/orchestrator/pipeline.py:1381-1460 | the counters: a file or a skip for every path, symbols as extracted, a chunk for every symbol and for every file without one |
| Ingest.DeltaAt | src/code_memory/orchestrator/pipeline.py:1381-1460 | path by path: reingested as it is now, even if also deleted; else deleted; else untouched |
| Ingest.IncrementalIsFullIff | src/code_memory/orchestrator/pipeline.py:1381-1460 | any delta gives what a full walk gives, by the extractor and the ignore rules of now, exactly when no path is smuggled in, lost or overlooked |
| Ingest.CoveredIsFullIff | src/code_memory/orchestrator/pipeline.py:1381-1460 | under the same rules a covering delta does exactly when no touched file is ineligible, no indexed one stops being extractable, no present one is deleted |
| Ingest.GitIncrementalIsFullIff | src/code_memory/orchestrator/pipeline.py:434-455 | the same from git's reports, for whatever tree was indexed last and whatever commit is recorded |
| Ingest.GitIncrementalIsFull | src/code_memory/orchestrator/pipeline.py:434-455 | equality with the full walk under the same rules when every difference is told, nothing ineligible is touched, and no present file is told as deleted only |
| Ingest.AlwaysUpToDateIff | src/code_memory/orchestrator/pipeline.py:434-455 | over any number of ingests, dirty or clean, whatever happens to files and rules between them, the index is that of a full walk after each exactly when no round is misled about a path |
| Ingest.RevertedStaysStale | src/code_memory/orchestrator/pipeline.py:434-455 | a dirty file that is indexed and reverted stays as it was |
| Ingest.NewRulesAreMissed | src/code_memory/orchestrator/pipeline.py:434-455 | a file that the ignore rules newly exclude stays, one that they newly admit is not brought in |
| Ingest.RedoRepairs | src/code_memory/orchestrator/pipeline.py:1381-1460 | a delta interrupted anywhere is repaired by applying it again |
| Ingest.IngestWalk | src/code_memory/orchestrator/pipeline.py:628-643 | a walk into an empty graph builds the index of every eligible, extractable file |
| Rebuild.CheckpointMeansComplete | src/code_memory/orchestrator/pipeline.py:541-688 | with rebuilds of one root that stop anywhere, its checkpoint means that both live stores are exactly those of the ingest it names; RebuildRoots.RowRightIff has several roots |
| Rebuild.AlwaysACompleteCopy | src/code_memory/orchestrator/pipeline.py:557-688 | from a complete index, at every step each store has a complete live or shadow copy |
| Rebuild.RestartKeepsVectorsIff | src/code_memory/orchestrator/pipeline.py:557-563 | after a crash the next rebuild leaves no complete vectors exactly if the crash hit the copying of points while the copied ones were neither the old index nor the new |
| Rebuild.RestartKeepsGraphIff | src/code_memory/graph/falkor_store.py:610-639 | and no complete graph exactly if it came between the deletion of the live graph and the copying of a shadow that was not empty |
| Rebuild.VectorsCanBeLost | src/code_memory/orchestrator/pipeline.py:1305-1379 | a run after which no store holds the vectors of any index with points |
| Rebuild.GraphCanBeLost | src/code_memory/graph/falkor_store.py:610-639 | and one after which none holds the graph |
| RebuildRoots.RowRightIff | src/code_memory/orchestrator/ingest_state.py:86-114 | over any rebuilds of any roots that stop anywhere and any incremental ingests between them: a row names its root's last ingest, and the live stores hold what that ingest left of the root exactly when none of it was lost since, key by key: to another root's rebuild that emptied or deleted the live store, or to an incremental ingest routed to the shadow |
| RebuildRoots.OneRootIsRight | src/code_memory/orchestrator/pipeline.py:541-688 | with rebuilds and incremental ingests of one root, failures ending the process, its row is always right |
| RebuildRoots.CrashedOtherRootLeavesWrongRow | src/code_memory/orchestrator/pipeline.py:557-584 | a rebuild of an empty root that crashes after emptying the live collection leaves a wrong row for every root with points |
| RebuildRoots.MisroutedIncrementLeavesWrongRow | src/code_memory/orchestrator/pipeline.py:557-584 | a rebuild that fails after making its shadow collection, and the next incremental ingest of the process: the commit is recorded, its points are not in the live collection |
| Rebuild.FailedRebuildMisroutes | src/code_memory/orchestrator/pipeline.py:557-584 | after an exception a reingest reaches each live store exactly when its shadow was not in use, and otherwise takes the key out of it; after a restart it reaches both |
| Rebuild.Coordinator.CommitShadowCollection | src/code_memory/orchestrator/pipeline.py:1305-1379 | paged scroll and batched upsert copy the shadow exactly, whatever order the pages come in |
| Rebuild.Coordinator.PromoteShadow | src/code_memory/graph/falkor_store.py:610-639 | the live graph becomes the shadow and the shadow is gone |
| Rebuild.Coordinator.IngestFull | src/code_memory/orchestrator/pipeline.py:541-688 | an undisturbed rebuild leaves exactly the new index, no shadow, the checkpoint, and routing back on the live stores; and it is a run of the machine that the crash theorems are about |
| ClaimsStore.Store.Upsert | src/code_memory/claims/store.py:168-229 | closing, refreshing or inserting, with the returned id, closed ids and novelty, and the error for a reused id |
| ClaimsStore.Store.CloseConflictingRows | src/code_memory/claims/store.py:300-340 | the open rows of the key with another object or polarity are closed and reported |
| ClaimsStore.UpsertKeepsThePast | src/code_memory/claims/store.py:168-229 | an upsert changes no answer before its own validity, for any table |
| ClaimsTimeline.RowsAreTurns | src/code_memory/claims/store.py:168-340 | after any run the rows of a single-valued key are the turns of what was said, each closed by the next |
| ClaimsTimeline.AsOfIsTurns | src/code_memory/claims/store.py:359-378 | the answer at any time is exactly the turns that hold then |
| ClaimsTimeline.ExactlyOneRowIff | src/code_memory/claims/store.py:359-378 | exactly one row answers exactly when the turns begun by then come before all others |
| ClaimsTimeline.AsOfIsLatest | src/code_memory/claims/store.py:359-378 | for assertions in order, one row answers from the first on, and it says what was asserted last by then |
| ClaimsMetadata.MetadataOfTurns | src/code_memory/claims/store.py:193-295 | after any run the row of each turn of a single-valued key carries the highest confidence, the last evidence, time and commit, and the first session, prompt and entities of exactly that turn's claims |
| ClaimsIndex.Indexer.EnsureBackfilled | src/code_memory/claims/indexer.py:166-207 | once per indexer, all rows are embedded unless the index is at least as large as the table |
| ClaimsIndex.Indexer.Upsert | src/code_memory/claims/indexer.py:65-122 | collapse into a near duplicate, or store upsert followed by closing, inserting or refreshing points |
| ClaimsIndex.ClosingInserts | src/code_memory/claims/store.py:193-229 | whenever an upsert closes a row it also inserts one |
| ClaimsIndex.FreshCheckRestores | src/code_memory/claims/indexer.py:166-207 | from any recoverable state the count check of a fresh indexer restores agreement |
| ClaimsIndex.AlwaysRecoverable | src/code_memory/claims/indexer.py:65-207 | every run of indexed writes, direct writes and crashes stays recoverable |
| ClaimsIndex.NewIndexerRecovers | src/code_memory/claims/indexer.py:166-207 | after any such run the next indexer's first check makes ids, triples and open flags agree with the table |
| ClaimsIndex.FailureFreeRunsAgree | src/code_memory/claims/indexer.py:65-122 | without failures the index agrees at all times |
| ClaimsIndex.MissingUntilNewIndexer | src/code_memory/claims/indexer.py:166-180 | a row without a point gets none from an indexer that has already checked |
| ClaimsIndex.InsertedPoint | src/code_memory/claims/indexer.py:99-122 | the point of a new claim carries the claim |
| ClaimsIndex.BackfilledPoint | src/code_memory/claims/indexer.py:166-207 | a check that embeds leaves at every row's id what the row says, ended rows as closed |
| ClaimsIndex.RefreshedFields | src/code_memory/claims/indexer.py:65-122 | after a re-assertion point and row agree on confidence, start and commit exactly when the new confidence is at least the old, both start together, and the claim names a commit or the row had none |
| Resolver.ResolutionIsGrounded | src/code_memory/orchestrator/resolver.py:276-571 | every symbol target is a defined symbol of the placeholder's name, every type target the one type that the used assemblies expose under it |
| Resolver.ArityPickIff | src/code_memory/orchestrator/resolver.py:603-631 | an arity tiebreak answers exactly when no two namespaces compete and exactly one candidate has the arity |
| Resolver.TargetIffResolved | src/code_memory/orchestrator/resolver.py:276-544 | an edge has a target exactly when it counts as resolved |
| ResolverTiers.NamelessLaw | src/code_memory/orchestrator/resolver.py:305-310 | an edge without a name is external |
| ResolverTiers.SameFileLaw | src/code_memory/orchestrator/resolver.py:312-330 | a definition in the file itself, the first of the call's arity, else the first |
| ResolverTiers.ImportedLaw | src/code_memory/orchestrator/resolver.py:332-364 | nothing here: the only definition that a relative import reaches; of several the only one of the arity, unless namespaces compete, else ambiguous |
| ResolverTiers.TwiceImportedIsAmbiguous | src/code_memory/orchestrator/resolver.py:332-364 | one definition reached by two imports is ambiguous |
| ResolverTiers.ReceiverLaw | src/code_memory/orchestrator/resolver.py:366-404 | nothing imported: the only definition beside the receiver's type, or the only one of the arity |
| ResolverTiers.ReceiverFallsThrough | src/code_memory/orchestrator/resolver.py:366-404 | a receiver that narrows to none or to several that the arity does not tell apart counts for nothing |
| ResolverTiers.OwnNamespaceLaw | src/code_memory/orchestrator/resolver.py:406-462 | then the file's own namespace: one definition, or one of the arity, else ambiguous |
| ResolverTiers.OpenedNamespaceLaw | src/code_memory/orchestrator/resolver.py:463-485 | nothing there: the only definition in a namespace that an import spells |
| ResolverTiers.ProjectLaw | src/code_memory/orchestrator/resolver.py:487-516 | otherwise the only definition of the project, or the only one of the arity, with medium confidence, else ambiguous |
| ResolverTiers.AssemblyLaw | src/code_memory/orchestrator/resolver.py:518-571 | no definition at all: the only type that an assembly of the file's project exposes under the name, else external |
| ResolverPass.Load | src/code_memory/orchestrator/resolver.py:152-183 | the dictionaries built from the DEFINES rows are the candidates, names and namespaces of those rows |
| ResolverPass.ImportedSymbols | src/code_memory/orchestrator/resolver.py:634-655 | for every name, the definitions that the file's relative imports reach, import by import |
| ResolverPass.ResolveAll | src/code_memory/orchestrator/resolver.py:276-544 | the cached walk over calls, injections and references gives each edge its cascade outcome, the counters count the tiers, the resolutions come in order |
| ResolverPass.AllResolutionsAre | src/code_memory/orchestrator/resolver.py:276-544 | what is resolved: calls with their arity and receiver, injections and references without either, each under its kind, and nothing else |
| ResolverPass.CountersAre | src/code_memory/orchestrator/resolver.py:60-75 | each counter counts its own tier |
| ResolverPass.CountersConserve | src/code_memory/orchestrator/resolver.py:276-544 | the seven counters add up to all edges and the five resolved ones to the resolutions |
| ResolverPass.PassConserves | src/code_memory/orchestrator/resolver.py:76-96 | the same for the pass, and when `edges_total` is that sum |
| ResolverOrder.OrderIndependence | src/code_memory/orchestrator/resolver.py:153-183 | permuting the DEFINES rows moves no counter, and no target unless the edge's file defines the name more than once |
| ResolverOrder.OrderIndependentIff | src/code_memory/orchestrator/resolver.py:153-183 | over the orders that ORDER BY start allows, an outcome is always the same exactly when the contenders of the edge's file that start first are one symbol |
| ResolverOrder.FileScopedRowsDoNotTie | src/code_memory/orchestrator/resolver.py:574-600 | which holds whenever no partial declaration is among them |
| ResolverLiveness.LivingAreCurrent | src/code_memory/orchestrator/resolver.py:152-183 | after every run of the temporal graph the living file-scoped rows of the load query are the symbols of the last extractions |
| ResolverLiveness.SameFileIff | src/code_memory/orchestrator/resolver.py:574-600 | in the same-file tier tombstones change nothing exactly when the first row is alive; otherwise the target is a tombstone |
| ResolverLiveness.SameFileOverRunsIff | src/code_memory/orchestrator/resolver.py:574-600 | after every run: exactly when the first row's symbol is still declared by its file |
| ResolverLiveness.PlainIff | src/code_memory/orchestrator/resolver.py:276-544 | an edge that only the whole project decides is resolved as without tombstones exactly when there is none of its name or two living definitions make it ambiguous anyway |
| ResolverLiveness.TombstonesUnnoticed | src/code_memory/orchestrator/resolver.py:276-544 | through the whole cascade: an edge that can notice no tombstone, by name, receiver, namespace or project file, is resolved as if there were none |
| ResolverLiveness.UnnoticedIsCurrent | src/code_memory/orchestrator/resolver.py:276-544 | after every run such an edge goes to a symbol that its file still declares |
| ResolverLiveness.MovedResolvesToTombstone | src/code_memory/orchestrator/resolver.py:153-158 | every symbol that moves down its file: references in the file are resolved to the tombstone |
| ResolverLiveness.MovedIsAmbiguous | src/code_memory/orchestrator/resolver.py:153-158 | and plain references from other files are left as ambiguous |
| ResolverWriteback.WritebackIsImage | src/code_memory/orchestrator/resolver.py:814-915 | every link after the rows in terms of the graph before them, confidence and assembly included |
| ResolverWriteback.BatchesAreImage | src/code_memory/orchestrator/resolver.py:814-915 | the grouping into six queries is invisible |
| ResolverWriteback.Writeback.ApplyResolutions | src/code_memory/orchestrator/resolver.py:814-915 | the six batches as a loop write that image |
| ResolverWriteback.Writeback.CleanupOrphans | src/code_memory/orchestrator/resolver.py:918-944 | the clean-up query, skipped when the snapshot had no placeholder, deletes exactly the unreferenced ones |
| ResolverWriteback.Writeback.Finish | src/code_memory/orchestrator/resolver.py:76-96 | write-back and clean-up together |
| ResolverWriteback.TargetsAreReplaced | src/code_memory/orchestrator/resolver.py:814-915 | a file's targets per relation are its old ones with the resolved placeholders replaced |
| ResolverWriteback.ResolvedCarries | src/code_memory/orchestrator/resolver.py:814-915 | the edge of a resolved row carries its confidence and keeps its `via_assembly`, or is external with the row's assembly |
| ResolverWriteback.PlaceholdersAreNamed | src/code_memory/orchestrator/resolver.py:814-944 | placeholders are the nodes that the pipeline writes uses to, and no declared symbol is one |
| ResolverWriteback.OthersAreKept | src/code_memory/orchestrator/resolver.py:814-915 | no other link changes |
| ResolverWriteback.SecondTimeIsIdle | src/code_memory/orchestrator/resolver.py:814-915 | writing the same resolutions again does nothing |
| ResolverWriteback.NothingDangles | src/code_memory/orchestrator/resolver.py:814-944 | no link dangles after write-back and clean-up |
| ResolverWriteback.CleaningIsExact | src/code_memory/orchestrator/resolver.py:918-944 | exactly the placeholders that nothing points at go, and no link with them |
| ResolverWriteback.PlaceholderSurvivesIff | src/code_memory/orchestrator/resolver.py:814-944 | a placeholder survives exactly when some edge to it was left unresolved |
| ResolverWriteback.PassIsWellFormed | src/code_memory/orchestrator/resolver.py:276-544 | a pass resolves each edge once and never to a placeholder, which is what the write-back relies on |
| Float32.NearestIsNearest | src/code_memory/embed/cache.py:63-69 | no 32-bit float is nearer to a number than the one stored, and of two equally near ones the even is stored |
| Float32.UnroundedIff | src/code_memory/embed/cache.py:63-69 | a number is stored unchanged exactly when it is a multiple of the step between floats at its size |
| Float32.TooLargeIff | src/code_memory/embed/cache.py:63-64 | packing fails exactly from halfway between the largest float and the next power of two on |
| Float32.PackedUnpacked | src/code_memory/embed/cache.py:63-69 | every word comes back, except that the words for not-a-number become one |
| EmbedCodec.LeastFirst | src/code_memory/embed/cache.py:63-78 | words are stored least significant byte first |
| EmbedCodec.WordsRoundTrip | src/code_memory/embed/cache.py:63-78 | packed words unpack to themselves |
| EmbedCodec.BlobRoundTrip | src/code_memory/embed/cache.py:63-78 | unpacked blobs pack to themselves |
| EmbedCodec.IntsRoundTrip | src/code_memory/embed/cache.py:72-78 | signed 32-bit integers survive |
| EmbedCodec.DecodeEncode | src/code_memory/embed/cache.py:145-183 | a stored vector comes back with every number replaced by its nearest 32-bit float, NULL blobs included |
| EmbedCodec.RoundTripInvisibleIff | src/code_memory/embed/cache.py:63-78 | it comes back unchanged exactly when all its numbers lie on the 32-bit grid |
| EmbedCache.EmbedCache.GetMany | src/code_memory/embed/cache.py:123-157 | batches of 800 find exactly the cached vectors of the model, and hits and misses move by the distinct hits and the rest |
| EmbedCache.EmbedCache.PutMany | src/code_memory/embed/cache.py:161-191 | all vectors are packed before the first row is written; it fails exactly when one cannot be packed, and then changes nothing |
| EmbedCache.EmbedCache.VacuumOlderThan | src/code_memory/embed/cache.py:205-212 | exactly the entries inserted before the cutoff go, and they are counted |
| EmbedCache.CachedEmbedder.Embed | src/code_memory/embed/__init__.py:119-151 | position by position the cached vector or the backend's, the new rows, the counters, the memoised id |
| EmbedCache.CachedEmbedder.EmbedOne | src/code_memory/embed/__init__.py:153-154 | one text gets its answer, cached or computed |
| EmbedCache.CachedEmbedder.ModelId | src/code_memory/embed/__init__.py:89-102 | resolved once, then fixed |
| EmbedCache.CachedEmbedder.FlushCacheStats | src/code_memory/embed/__init__.py:104-117 | counters are handed over and reset, and nothing is recorded when both are zero |
| EmbedRuns.CacheIsInvisible | src/code_memory/embed/__init__.py:119-151 | after any run of embeds, model changes, vacuums and flushes the answer is the backend's, rounded if cached |
| EmbedRuns.CountersConserve | src/code_memory/embed/__init__.py:104-117 | flushed and unflushed hits and misses add up to the hashes looked up |
| EmbedRuns.SecondLookComputesNothing | src/code_memory/embed/__init__.py:119-151 | embedding the same texts again computes nothing |
| EmbedRuns.SpareUntilReached | src/code_memory/embed/cache.py:205-212 | over any run a cached vector stays as it is until a vacuum whose cutoff lies after the time it was written at, which takes it |
| EmbedRuns.StampedNow | src/code_memory/embed/cache.py:161-191 | a row is written with the time of its call |
| EmbedRuns.StaleIdIff | src/code_memory/embed/__init__.py:89-102 | an embed under a stale id leaves the cache right exactly when it writes nothing or both models agree on every text that was not cached |
| EmbedRuns.MissesCountComputationsIff | src/code_memory/embed/cache.py:155-157 | misses equal computations exactly when no cached text repeats in a call |
| GitTree.BuildTree | src/code_memory/sync/store.py:401-434 | grouping by first component and recursing builds the nested tree |
| GitTree.FlattenUndoesBuild | src/code_memory/sync/store.py:341-350 | listing a built tree gives the entries back, for every prefix-free set |
| GitTree.BuildUndoesFlatten | src/code_memory/sync/store.py:401-434 | building from a listing gives the tree back, for every tree without empty directories |
| SnapshotStore.SnapshotStore.Write | src/code_memory/sync/store.py:162-213 | a no-op exactly for an unchanged blob; otherwise one snapshot changes, the index keeps listing exactly the snapshots |
| SnapshotStore.SnapshotStore.ReadIndex | src/code_memory/sync/store.py:140-213 | the index lists exactly the snapshots, with size and time of writing |
| SnapshotStore.PathsAre | src/code_memory/sync/store.py:162-213 | where snapshots, manifests and the index lie on the branch |
| SnapshotStore.SnapshotStore.Read | src/code_memory/sync/store.py:140-150 | the stored blob, or the error for a commit without one |
| SnapshotStore.SnapshotStore.Gc | src/code_memory/sync/store.py:238-275 | keeps a choice of the most recent snapshots with their manifests, drops the others, counts removed paths |
| SnapshotStore.SlicedIsMostRecent | src/code_memory/sync/store.py:240-243 | the head of the stable descending sort is the most recent snapshots, for negative limits too |
| SnapshotStore.ReadsLastWritten | src/code_memory/sync/store.py:140-213 | over any run, a snapshot that is still there reads as the last blob written |
| SnapshotStore.OnlyCollectionLoses | src/code_memory/sync/store.py:238-275 | a written snapshot is lost only to a collection that kept others at least as recent |
| SnapshotStore.CollectionSize | src/code_memory/sync/store.py:238-275 | how many snapshots are left for every limit |
| SnapshotStore.KeptIff | src/code_memory/sync/store.py:238-243 | some collection to n snapshots keeps a given one exactly when fewer than n are more recent |
| SnapshotStore.RewriteKeepsItsAge | src/code_memory/sync/store.py:177-180 | after rewriting an unchanged blob whether a collection can keep it still depends on how many were written after its first write, for every store and limit |
| SnapshotStore.FreshWriteIsKept | src/code_memory/sync/store.py:177-213 | after writing a changed blob any collection but an empty one can keep it |
| SnapshotDigest.CanonicalDigest | src/code_memory/sync/snapshot.py:399-416 | feeding the hash line by line hashes the sorted rows of the three lists and the state |
| SnapshotDigest.LinesInOrder | src/code_memory/sync/snapshot.py:399-416 | what is hashed is every row once: points by id, nodes by label and key, edges by type and keys, the state last |
| SnapshotDigest.SortIsStable | src/code_memory/sync/snapshot.py:405-415 | rows of one place keep their order |
| SnapshotDigest.StringLeIs | src/code_memory/sync/snapshot.py:405-415 | strings are compared code point by code point, a prefix first |
| SnapshotDigest.FirstMismatch | src/code_memory/sync/snapshot.py:366-396 | the first mismatch, of format, model or dimension, is the one reported |
| SnapshotDigest.VerifyAcceptsExactlyReorderings | src/code_memory/sync/snapshot.py:359-396 | with unique keys, and for every model and dimension the caller may expect, exactly the reorderings of the built contents verify: nothing lost, added, changed or moved between lists |
| SnapshotDigest.OrderInvisibleIff | src/code_memory/sync/snapshot.py:405-415 | the sorted rows are the same for every order exactly when no two different rows share their sort key |
| SnapshotDigest.SameEndsRejected | src/code_memory/sync/snapshot.py:409-414 | two edges that differ in what the key omits make a reordered snapshot fail |
| SnapshotDigest.DumpRoundTripIff | src/code_memory/sync/snapshot.py:183-240 | dump and restore are inverse exactly for vectors without sparse values lacking indices |
| SnapshotDigest.RedumpIff | src/code_memory/sync/snapshot.py:183-240 | dump, restore and dump again agree exactly for points with a dense vector, in either layout |
| SnapshotDigest.OlderDump | src/code_memory/sync/snapshot.py:183-240 | a bare list of an older dump restores as a dense vector and is dumped as one |
| Registry.Linearizable | src/code_memory/sync/registry.py:80-170 | over any steps, crashes and failures of any processes the file is the composition of the mutations in lock order, no returned call is missing, every lock-free load saw a state of the file |
| Registry.LoadAnswers | src/code_memory/sync/registry.py:80-119 | every load answers for every key with the entry that the last mutation to touch it, of those in place when it opened the file, leaves, and never with a malformed one |
| Registry.HistoryOnlyGrows | src/code_memory/sync/registry.py:104-119 | what was in place stays in front of everything that gets the lock later |
| Registry.CompletedCallsStand | src/code_memory/sync/registry.py:122-170 | the effect of a completed call on a key is in the file until a later mutation of that key |
| Hooks.MarkersAreSound | src/code_memory/sync/hooks.py:19-20 | what the edits rely on is true of the real markers |
| Hooks.BlockFound | src/code_memory/sync/hooks.py:148-157 | the first start marker and the next end marker are the block's, across both splice boundaries |
| Hooks.InstallTwiceIff | src/code_memory/sync/hooks.py:29-62 | for every file that installing does not fail for, a second install is idle exactly unless the file had a start marker and no end marker |
| Hooks.ReplacedTwice | src/code_memory/sync/hooks.py:148-151 | a file with a block anywhere: the block just written is found again and replaced by itself |
| Hooks.FailsIff | src/code_memory/sync/hooks.py:148-157 | installing raises exactly for files with both markers whose end markers all stand before the first start marker; uninstalling also for a start marker without an end |
| Hooks.TriggerWithEndIff | src/code_memory/sync/hooks.py:139-151 | and exactly when the block's body holds no end marker |
| Hooks.BodyHasEndIff | src/code_memory/sync/hooks.py:139-145 | which is to say when the trigger holds none |
| Hooks.ReinstallChangesOnlyTheBlock | src/code_memory/sync/hooks.py:148-151 | another trigger changes the block and nothing around it |
| Hooks.UninstallUndoesInstall | src/code_memory/sync/hooks.py:65-90 | uninstalling gives the stripped original and a newline, or removes a file that held nothing else |
| Hooks.CreatedFileIsRemoved | src/code_memory/sync/hooks.py:55-56 | a hook file that an install created is removed |
| Hooks.RestoredIff | src/code_memory/sync/hooks.py:154-157 | the original comes back unchanged exactly when it was trimmed and more than a header |
| Hooks.FirstRun | src/code_memory/sync/hooks.py:41-62 | the installer's loop writes every hook and leaves other files alone |
| Hooks.SecondRun | src/code_memory/sync/hooks.py:41-62 | run again it skips every hook and changes nothing |
| Hooks.DirectoryRoundTrip | src/code_memory/sync/hooks.py:65-90 | install and uninstall of a whole directory |
| Hooks.UninstallReports | src/code_memory/sync/hooks.py:65-90 | exactly the hooks whose files have a start marker are reported as taken out, the others as skipped and left as they are |
| Hooks.DefaultInstallIsClean | src/code_memory/sync/hooks.py:124-145 | all conditions hold of the real markers, names and default command |
| Hooks.HooksDir.InstallHooks | src/code_memory/sync/hooks.py:29-62 | the loop over the hook files, an exception leaving earlier files written |
| Hooks.HooksDir.UninstallHooks | src/code_memory/sync/hooks.py:65-90 | the same for taking them out |

## Left out

- Tree-sitter extraction, project files, solutions, assemblies and NuGet: an extraction is an opaque record, and the assembly index a parameter of the resolver.
- Embedding models, cosine search and score blending: the backend is a function of model and text, near-duplicate search any open point of equal polarity.
- File-system probing of relative imports and the import aliases that the resolver adds afterwards: resolution of an import is an uninterpreted function, `importers` is stated for edges that are not derived.
- Resolver-written edges in the temporal graph: they carry no stamps; write-back is proved on a graph of its own.
- `callers` liveness: one-hop rows follow dead call edges as the query does; result limits and ORDER BY are abstracted.
- Failures of SQLite, Qdrant and FalkorDB other than a crash or an exception between steps; `count` of points is exact here.
- Vectors in the incremental ingest: deleting and reinserting points by path follows the same loop as the graph and is not modelled twice.
- The health check, dry runs of a full ingest, metrics, progress output, retries, slugs and configuration parsing.
- Remote push and fetch of snapshots, and a branch that exists only on the remote: local runs only.
- JSON, gzip, tar and SHA-256: canonical lines are prefix-free, hashes injective, content is passed as values.
- Git's own behaviour: GitDelta assumes that the diff and the status name every difference, of which the rename and copy detection, submodules and the choice of columns are git's; a worktree here is its non-ignored regular files, its root the top level git prints paths for, and symbolic links are not resolved.
- GitNames.ReadsBackIff: the escapes that git prints for characters outside ASCII are a parameter, and names are not normalised.
- RebuildRoots.RowRightIff: an incremental ingest is one step (Ingest.RedoRepairs has the interrupted ones), starts from a checkpoint row, and touches keys of its own root; what roots share in the graph is left open, and save hooks, which record nothing, are not steps.
- Float32.PackedUnpacked: not-a-number is one value, without its payload.
- File modes and the executable bit of hook files; `core.hooksPath`.
- GitTree.BuildTree: entries with an empty path component are excluded, because the code would file them under the wrong name and no caller produces them.
- Hooks.InstallTwiceIff: stated for triggers without an end marker; TriggerWithEndIff has the others for files without a start marker.
- `sync/single_flight.py`: its steps on the PID file are not atomic across processes.
