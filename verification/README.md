# SYNC_ENGINE in Dafny

SYNC_ENGINE keeps the state of game servers consistent across a cluster. This project models the parts
of it that have to be right for that to work, and proves what they do.

**Delta pipeline.** Entities are JSON trees edited by path operations. `JsonTree` and `Operations` give
their meaning, and the algebra that lets operations on disjoint paths change places. `MapKeys`, `CellCollapse`, `Collapse`,
`CollapseTheorems` and `TidyOperations` treat the compressor as an optimiser and say exactly when it preserves meaning;
`OperationEffects` says in numbers and items what operations and merged operations do to a document.
`DeltaCompressor`, `StateManager`, `ConflictResolver`, `SharedData`, `RemoteDeltas`, `Replication` and
`StateSynchronizer` carry that to histories, conflicts, merges and a follower node.

**Durability.** `WriteAheadLog` models the rotating log over a directory of named files, `Recovery` what
a snapshot plus the log rebuilds, `SnapshotManager` the snapshot files, their pruning and recovery.

**Components.** `BinaryProtocol` (framing and batches), `RateLimiter` (fixed windows, tiers),
`Matchmaker` (sort, split, refilter), `Cluster` (node health and the election it triggers in mid-loop),
`StateChecksum`, `MessageBroker` (ring buffer and sequence numbers) and `GameServers` (lifecycle with
delayed callbacks). `Common` holds options, filters and stable sorting.

Each class of the program that updates its fields is a Dafny class. Its methods are proved equal to
functions on values (`Model()`, `AfterUpdate`, `Appended`, `Happen`, ...), and the theorems are about
those functions, over all inputs and all runs. Clocks, generated ids, serialised lengths and directory
listings are parameters.

## What the code does not do

Some properties a reader would expect are false of the code. The model keeps the code as it is, shows
a failing case, and states when the property does hold.

- Collapsing a batch changes its meaning when a path's run increments after a delete (`DeletedCounterBreaks`), when merged
  increments total 0 (`ZeroTotalBreaks`), when a value is removed and appended again (`ReappendBreaks`), when an edit of an
  overlapping path sits in between (`SandwichBreaks`), or when a path spells one of the derived keys
  (`KeyCollisionBreaks`). The exact test is in `CollapsePreservesIff`, a form that can be recognised at a glance in
  `TidyCollapses`.
- README.md line 36 promises crash recovery. Creations and deletions advance the state version without being logged
  (src/index.ts:244-249), checkpoints advance the log without changing the state, and the state version is used as a
  log sequence. So two creations are enough to lose the first update after a snapshot (`TwoCreationsSuffice`), and two
  checkpoints to apply one before it twice (`TwoCheckpointsSuffice`). `RecoveryIff` says when one run is recovered,
  `SnapshotRecoversIff` what can be told at the snapshot about every later run.
- An idle node saves the same cached snapshot under one file name again and again, until pruning deletes that
  file (`SavedIsLatestIff`, `IdleSnapshotsVanish`).
- After a restart the index is sorted as text, so the newest snapshot is loaded if and only if no other version exceeds
  the newest one's leading digits (`RestartLoadsNewestIff`); versions of equal length are safe
  (`EqualLengthsLoadNewest`), 9 and 10 are not (`RestartPrefersNine`).
- README.md line 33 promises conflict resolution. The resolver computes a winner, but the synchronizer applies the
  remote operations whichever side won (`WinnerIgnored`). The node ends with the winner's data if and only if the remote
  side wins or its operations change nothing (`WinnerHonouredIff`); a newer local value is lost to an older remote one
  (`LocalWinLost`).
- With the merge strategy a cell gets the remote sets and deletes, then the last local operation on it once more, or
  else only the first remote one (`MergedCell`). `MergeKeepsLocalIff`, `MergeRepeatsLocalIff` and `MergeAppliesRemoteIff`
  say when that is the right value; a local increment counts twice (`LocalCountedTwice`), two remote ones count once
  (`RemoteCountedOnce`).
- A remote delta that was applied is queued for broadcast again (`EveryDeltaEchoes`, `EchoesUnlessDropped`).
- A fixed window admits up to 2 * maxRequests - 1 calls within one window length (`RateBoundTight`); the nominal limit
  holds if and only if it is 1 or a window is a single tick (`NominalLimitIff`).
- A player with two queued requests, one of them matched, has the matched one queued again. A pass conserves requests
  if and only if no player has requests on both sides of the cut in the sorted list (`ConservationIff`); three requests
  are enough to fail (`MatchedPlayerQueuedAgain`).
- "Recent" messages are the oldest ones buffered once the buffer is full (`RecentIsLatestIff`).
- A pass that the server limit ends by an exception keeps every unexpired request queued, the matched ones too
  (`InterruptedConservesIff`).
- The players of a match are all counted on its server if and only if that server was running already and had seats for
  all of them (`MatchCountedIff`). A server created for the match counts nobody (`FreshServerCountsNobody`), and an
  available one is taken for a whole group when it has a single free seat (`RunningServerDropsPlayer`).

## Model

| member | source | states |
|---|---|---|
| JsonTree.JoinSplit | src/core/state-manager.ts:125 | joining the split segments gives the path back, so different paths never name the same cell |
| JsonTree.SplitJoin | src/core/state-manager.ts:125 | a path is cut at every dot: segments without dots are what their joined path splits into |
| JsonTree.ReadWriteSame | src/core/state-manager.ts:128-144 | what was written at a path is read back, and a second write there hides the first |
| JsonTree.DisjointWrites | src/core/state-manager.ts:128-144 | writes at disjoint paths neither see nor order each other |
| Operations.EditIsWrite | src/core/state-manager.ts:124-158 | the walk that creates missing objects is one write of the operation's effect on its cell |
| Operations.OnePathRun | src/core/state-manager.ts:85-87 | a run of operations on one path is one write of the folded cell |
| Operations.ApplyCommutes | src/core/state-manager.ts:124-158 | operations on disjoint paths commute on every document |
| Operations.PullFirst | src/core/state-manager.ts:85-87 | the operations on a path can run first when nothing overlapping precedes any of them |
| Operations.RunReadsOwn | src/core/state-manager.ts:85-87 | among disjoint paths the final cell depends on the path's own operations only |
| MapKeys.NumberRoundTrip | src/core/state-manager.ts:146 | coercing the printed form of a number gives the number back |
| MapKeys.JsonInjective | src/sync/delta-compressor.ts:92 | different scalar values have different JSON texts |
| MapKeys.DerivedKeyInjective | src/sync/delta-compressor.ts:92 | on colon-free paths a derived key determines path, kind and value |
| MapKeys.ColonFreeKeys | src/sync/delta-compressor.ts:90-93 | without colons in paths the compressor's keys never collide |
| CellCollapse.CollapseCellIff | src/sync/delta-compressor.ts:74-94 | a path's collapsed operations do the same to every cell if and only if a test on the list passes: no bumped delete, totals that survive, and the same surviving values when all appends and removes or only first occurrences count |
| Collapse.CollapseMapPart | src/sync/delta-compressor.ts:66-95 | with collision-free keys the entries of one path evolve as if the other paths were absent |
| Collapse.CollapsePart | src/sync/delta-compressor.ts:63-98 | selecting a path commutes with collapsing |
| Collapse.OnePathCollapse | src/sync/delta-compressor.ts:63-98 | on one path the result is the absorbed main operation followed by the array operations without repetition |
| CollapseTheorems.CollapsePreserves | src/sync/delta-compressor.ts:63-98 | the collapsed list acts on every document like the original, if no overlapping edit is sandwiched and each path passes the test |
| CollapseTheorems.CollapsePreservesIff | src/sync/delta-compressor.ts:63-98 | on prefix-free paths the collapsed list acts on every document like the original if and only if each path passes the test |
| CollapseTheorems.CaughtAt | src/sync/delta-compressor.ts:81-92 | a path failing the test yields a document on which the two lists differ |
| CollapseTheorems.SandwichBreaks | src/sync/delta-compressor.ts:76 | a replaced entry keeps its place, so a set of a child moves before the set of its parent and is lost, on every document |
| CollapseTheorems.KeyCollisionBreaks | src/sync/delta-compressor.ts:92 | a set whose path spells the derived key of an append wipes the append out |
| CollapseTheorems.ReappendBreaks | src/sync/delta-compressor.ts:92 | a value removed and appended again: some document shows that it is missing |
| TidyOperations.TidyIsExact | src/sync/delta-compressor.ts:74-94 | the test passes when appends and removes come last and differ pairwise, no increment directly follows a delete, and totals survive |
| TidyOperations.TidyCollapses | src/sync/delta-compressor.ts:63-98 | so the collapsed list then acts on every document like the original |
| OperationEffects.CellStartsFrom | src/core/state-manager.ts:146 | counting starts from the number a cell holds or spells, from 1 for true, and from 0 for a missing cell, null, false, an object or text that is no number |
| OperationEffects.ArrayStartsFrom | src/core/state-manager.ts:146 | an array counts like its only item unless that is a boolean, otherwise as 0 |
| OperationEffects.IncrementAdds | src/core/state-manager.ts:145-147 | on every document an increment adds 1 without a value, with 0, null, false, true or text that is no number, and otherwise the integer given as a number or as text |
| OperationEffects.IncrementsAddUp | src/core/state-manager.ts:145-147 | a run of increments on one path adds the sum of what they are worth |
| OperationEffects.PlainIncrementsCount | src/core/state-manager.ts:145-147 | k increments without a value add k |
| OperationEffects.MergedTotal | src/sync/delta-compressor.ts:81-86 | a set or increment and the increments after it become one operation, whose value is the first number plus the sum of what the others are worth |
| OperationEffects.MergedOnce | src/sync/delta-compressor.ts:83-86 | merging one increment adds 1 when nothing is given and the integer otherwise |
| OperationEffects.ZeroTotalBreaks | src/core/state-manager.ts:146 | increments that cancel: on every document the cell should keep its number, and the collapsed list adds 1 to it |
| OperationEffects.DeletedCounterBreaks | src/sync/delta-compressor.ts:86-88 | an increment after a delete: on every document the cell should hold the amount, and the collapsed list adds it to the old number |
| OperationEffects.OperationLeaves | src/core/state-manager.ts:138-157 | what set, delete, append and remove leave in their cell, on every document |
| OperationEffects.WayIsKept | src/core/state-manager.ts:128-134 | objects and arrays on the way to a cell keep their kind, items and other members; anything else becomes an object holding at most that member |
| OperationEffects.CollapsedIsShort | src/sync/delta-compressor.ts:63-98 | of a path's operations one is left in front, then each append or remove at most once, and never more than there were |
| DeltaCompressor.IdsMembers | src/sync/delta-compressor.ts:13-19 | the groups are those of the entities that occur in the batch, each once |
| DeltaCompressor.GroupOfCompressed | src/sync/delta-compressor.ts:21-32 | an entity's part of the compressed batch is the compaction of its part of the batch |
| DeltaCompressor.MergeSpans | src/sync/delta-compressor.ts:48-60 | a merged delta starts at the version of an earliest delta of its group and ends at the version and time of a latest one |
| DeltaCompressor.CompressedInOrder | src/sync/delta-compressor.ts:13-32 | the compressed batch holds one delta per entity, in the order of the entities' first deltas |
| DeltaCompressor.DeltaCompressor.constructor | src/sync/delta-compressor.ts:7-8 | no deltas saved so far |
| DeltaCompressor.DeltaCompressor.Absorbed | src/sync/delta-compressor.ts:66-94 | one turn of the loop is one step of the collapsing fold |
| DeltaCompressor.DeltaCompressor.CollapseOperations | src/sync/delta-compressor.ts:63-98 | the loop over the keyed map computes the collapsed list |
| DeltaCompressor.DeltaCompressor.MergeEntityDeltas | src/sync/delta-compressor.ts:45-61 | nothing for an empty group, otherwise the time-sorted group as one delta from the first start version to the last end version |
| DeltaCompressor.DeltaCompressor.GroupByEntity | src/sync/delta-compressor.ts:13-19 | the map holds each entity's deltas in order, its keys in order of first occurrence |
| DeltaCompressor.DeltaCompressor.CompressGroups | src/sync/delta-compressor.ts:21-32 | one output delta per group, single deltas untouched |
| DeltaCompressor.DeltaCompressor.Compress | src/sync/delta-compressor.ts:10-43 | the compressed batch, with the counter of saved deltas moved by what was saved |
| StateManager.UpdateKeepsHistory | src/core/state-manager.ts:75-107 | an update extends every history's chain without a gap and within the bound |
| StateManager.HistoryAlwaysOk | src/core/state-manager.ts:52-122 | in every reachable state each history is a gapless chain of bounded length ending at the entity's version |
| StateManager.CreateKeepsHistoryIff | src/core/state-manager.ts:52-73 | creating keeps the chains if and only if no history is retained under that id |
| StateManager.ExistsIff | src/core/state-manager.ts:52-122 | after any run an entity exists if and only if a creation or a loaded snapshot brought it, or it was there before, and no deletion of it and no snapshot without it came afterwards |
| StateManager.DeletedStaysAway | src/core/state-manager.ts:109-122 | a deleted entity and its history stay away until the id is created again or comes with a loaded snapshot |
| StateManager.UpdatesAddUp | src/core/state-manager.ts:75-107 | over any run an entity that is only updated keeps id, type and owner, gains a version per update, is stamped by the last one, and holds its data with all their operations applied in order |
| StateManager.NewestDeltaStamped | src/core/state-manager.ts:96-104 | the newest retained delta carries the entity's own modification time and version |
| StateManager.SinceIsSuffix | src/core/state-manager.ts:172-178 | selecting by start version keeps exactly the last deltas, as many as versions have passed |
| StateManager.UpdateReplays | src/core/state-manager.ts:75-107 | an update keeps the retained deltas sufficient to lead from an old version to the new data |
| StateManager.HistoryReplays | src/core/state-manager.ts:160-178 | after any run of updates the deltas since a version rebuild the current data from the data at that version, unless more than the maximum lie between |
| StateManager.StateManager.constructor | src/core/state-manager.ts:11-27 | an empty state at version 0 with nothing cached |
| StateManager.StateManager.CreateEntity | src/core/state-manager.ts:52-73 | the entity appears at version 1 and the global version moves by one |
| StateManager.StateManager.ApplyAll | src/core/state-manager.ts:85-87 | the loop computes the run of the operations |
| StateManager.StateManager.UpdateEntity | src/core/state-manager.ts:75-107 | data, both versions and history move together and the delta is announced; an unknown id changes nothing |
| StateManager.StateManager.AddToHistory | src/core/state-manager.ts:160-170 | the delta is appended and the oldest one is shifted out beyond the bound |
| StateManager.StateManager.DeleteEntity | src/core/state-manager.ts:109-122 | entity and history disappear and the version moves; an unknown id is refused |
| StateManager.StateManager.FilterSince | src/core/state-manager.ts:175 | the filtering loop keeps the order |
| StateManager.StateManager.GetEntityHistory | src/core/state-manager.ts:172-178 | all that is retained, or exactly the deltas that start at a version or later, which in a chained history are the last ones, one per version passed |
| StateManager.StateManager.CreateSnapshot | src/core/state-manager.ts:180-195 | a snapshot of the present version and entities, with the old timestamp when it was cached |
| StateManager.StateManager.LoadSnapshot | src/core/state-manager.ts:197-204 | entities and version of the snapshot, with no history |
| StateManager.StateManager.ReplaceData | src/sync/state-synchronizer.ts:130-132 | one entity's shared data changes behind the manager's back, nothing else does |
| ConflictResolver.MergeKeys | src/sync/conflict-resolver.ts:118-135 | the merge of two objects has exactly the members of both |
| ConflictResolver.SourceLeafSurvives | src/sync/conflict-resolver.ts:118-135 | every non-object leaf of the source is found at its path |
| ConflictResolver.TargetSurvives | src/sync/conflict-resolver.ts:119 | what the source leaves alone keeps the target's value, at any depth |
| ConflictResolver.MergeIdempotent | src/sync/conflict-resolver.ts:118-135 | merging a tree with itself changes nothing |
| ConflictResolver.MergeAbsorbsTarget | src/sync/conflict-resolver.ts:118-135 | merging the result into the target again changes nothing |
| ConflictResolver.MergeAbsorbsSource | src/sync/conflict-resolver.ts:118-135 | merging the source again changes nothing |
| ConflictResolver.CoversIff | src/sync/conflict-resolver.ts:118-135 | the merge is the source alone if and only if the source covers the target |
| ConflictResolver.MergeAssociativeIff | src/sync/conflict-resolver.ts:118-135 | deep merge is associative on a triple of trees if and only if a path-by-path condition on objects and non-objects holds |
| ConflictResolver.MergeMember | src/sync/conflict-resolver.ts:121-132 | one member of the result: merged when both sides are plain objects, otherwise the source's |
| ConflictResolver.DeepMerge | src/sync/conflict-resolver.ts:118-135 | the loop over the source's keys computes the merge |
| ConflictResolver.MergeOperations | src/sync/conflict-resolver.ts:137-148 | both loops compute the merged operation list |
| ConflictResolver.MergedGet | src/sync/conflict-resolver.ts:137-148 | per path the result holds the last local operation, or else the first remote one |
| ConflictResolver.MergedOn | src/sync/conflict-resolver.ts:137-148 | at most one operation per path survives a merge, the chosen one, and each comes from one of the two lists |
| ConflictResolver.MergeChooses | src/sync/conflict-resolver.ts:137-148 | a merge keeps for a path exactly the last local operation on it, or the first remote one if there is no local one |
| ConflictResolver.BlendKeeps | src/sync/conflict-resolver.ts:79-98 | a merged entity is the local one with a version one above the higher, the time of the merge, the remote leaves, and the local value wherever the remote side has nothing |
| ConflictResolver.ConflictResolver.constructor | src/sync/conflict-resolver.ts:22-26 | last write wins, no custom resolvers, nothing counted |
| ConflictResolver.ConflictResolver.SetDefaultStrategy | src/sync/conflict-resolver.ts:28-30 | the strategy is replaced |
| ConflictResolver.ConflictResolver.RegisterResolver | src/sync/conflict-resolver.ts:32-34 | the entity type's resolver is replaced, the others stay |
| ConflictResolver.ConflictResolver.ResolveLastWriteWins | src/sync/conflict-resolver.ts:54-63 | the local version wins unless the remote one is strictly newer |
| ConflictResolver.ConflictResolver.ResolveMerge | src/sync/conflict-resolver.ts:75-94 | the deep merge of the data, a version above both, and the merged operations |
| ConflictResolver.ConflictResolver.ResolveWithCustom | src/sync/conflict-resolver.ts:96-116 | the custom choice, or the last write when the resolver throws, which is counted as failed |
| ConflictResolver.ConflictResolver.Resolve | src/sync/conflict-resolver.ts:36-52 | a registered resolver for the local entity's type goes before the strategy |
| SharedData.EditKeepsAlike | src/sync/state-synchronizer.ts:130-132 | the same edit keeps two documents equal but for one cell, whatever path it takes |
| SharedData.OverwriteHidden | src/sync/state-synchronizer.ts:126-137 | running operations over data they already overwrote has the effect of running them once, for every list and document |
| SharedData.OverwriteReads | src/sync/state-synchronizer.ts:130-132 | among disjoint paths, overwriting leaves in a cell what its last set or delete says |
| SharedData.LastOverwriteStays | src/sync/state-synchronizer.ts:150-163 | the overwritten cell holds the value of the last remote set on its path, or nothing after a delete, whatever other operations there are |
| SharedData.OverwriteSpares | src/sync/state-synchronizer.ts:150-163 | without a set or delete on its path the cell stays as it is |
| RemoteDeltas.HandleIsReceive | src/sync/state-synchronizer.ts:110-121 | without a conflict a batch is simply applied, whatever the policy |
| RemoteDeltas.VersionDecides | src/sync/state-synchronizer.ts:113-139 | a delta starting at the local version or later is applied as it is; an earlier one is dropped without local history, and otherwise applied, as merged operations if and only if merging is asked for |
| RemoteDeltas.WinnerIgnored | src/sync/state-synchronizer.ts:123-138 | unless operations are merged, a contested delta is applied like an uncontested one: timestamps, strategies and custom resolvers make no difference |
| RemoteDeltas.WinnerHonouredIff | src/sync/state-synchronizer.ts:134-138 | for every policy that picks a winner and every operation list, the node ends with the winner's data if and only if the remote version wins or its operations change nothing, or a custom choice is what they make of the local version; on prefix-free paths the former is told cell by cell |
| RemoteDeltas.LocalWinLost | src/sync/conflict-resolver.ts:54-63 | a newer local value that wins is overwritten by an older remote set all the same |
| RemoteDeltas.MergedCell | src/sync/state-synchronizer.ts:126-137 | after a merge a cell holds its value after the remote sets and deletes, with the last local operation on it applied, or else the first remote one |
| RemoteDeltas.MergeKeepsLocalIff | src/sync/conflict-resolver.ts:137-148 | a cell the local delta edited keeps its value if and only if the last local operation, after the remote sets and deletes, gives it |
| RemoteDeltas.MergeRepeatsLocalIff | src/sync/conflict-resolver.ts:139-141 | where only the local delta edited, the cell is kept if and only if that operation can be repeated: never an increment or append |
| RemoteDeltas.MergeAppliesRemoteIff | src/sync/conflict-resolver.ts:142-146 | a cell only the remote delta edited gets its effect if and only if its first operation, after its sets and deletes, has the effect of all |
| RemoteDeltas.LocalCountedTwice | src/sync/conflict-resolver.ts:139-141 | a local increment is counted twice although the remote delta leaves the counter alone |
| RemoteDeltas.RemoteCountedOnce | src/sync/conflict-resolver.ts:142-146 | two remote increments count once although the local delta leaves the counter alone |
| RemoteDeltas.UnmovedIff | src/core/state-manager.ts:85-87 | a prefix-free list changes nothing if and only if each cell it names is there and keeps its value |
| Replication.CompactMeans | src/sync/delta-compressor.ts:45-61 | a collapsible group becomes one delta with the same start, end and effect |
| Replication.FlushSends | src/sync/state-synchronizer.ts:97-105 | a flush moves the oldest pending deltas, at most a batch, behind those already sent; none is lost or reordered |
| Replication.EditKeepsStep | src/core/state-manager.ts:75-107 | an update on the primary keeps the two nodes in step |
| Replication.FlushKeepsStep | src/sync/state-synchronizer.ts:97-140 | sending a batch and handling it, version tests and conflict branch included, keeps the two nodes in step |
| Replication.AlwaysInStep | src/sync/state-synchronizer.ts:97-141 | the nodes are in step after every run of updates and handled batches |
| Replication.FlushesNeverConflict | src/sync/state-synchronizer.ts:118-122 | no flush of any run makes the follower enter the conflict branch, whatever its policy |
| Replication.FollowerIsPastPrimary | src/sync/state-synchronizer.ts:97-141 | at every moment the follower holds, for all entities at once, the primary's data at its last flushed delta, at a version no newer |
| Replication.DrainedFollowerAgrees | src/sync/state-synchronizer.ts:97-141 | with nothing pending, both nodes hold the same data |
| StateSynchronizer.EveryDeltaEchoes | src/sync/state-synchronizer.ts:52-55 | a conflict-free batch for known entities is queued for broadcast again, delta by delta |
| StateSynchronizer.StateSynchronizer.constructor | src/sync/state-synchronizer.ts:37-49 | nothing pending, no peers |
| StateSynchronizer.StateSynchronizer.AddPeer | src/sync/state-synchronizer.ts:79-90 | a new peer starts at zero, a known one is kept |
| StateSynchronizer.StateSynchronizer.OnEntityUpdated | src/sync/state-synchronizer.ts:52-55 | the announced delta joins the queue's end |
| StateSynchronizer.StateSynchronizer.FlushDeltas | src/sync/state-synchronizer.ts:97-105 | the first deltas, at most a batch, leave the queue compressed; the others stay in order; nothing happens on an empty queue |
| StateSynchronizer.StateSynchronizer.ApplyUpdate | src/sync/state-synchronizer.ts:114 | an update made here is also queued, if the entity exists |
| StateSynchronizer.StateSynchronizer.OverwriteShared | src/sync/state-synchronizer.ts:130-132 | the entity's own data receives the remote sets and deletes, and objects on the way to other operations |
| StateSynchronizer.StateSynchronizer.HandleOne | src/sync/state-synchronizer.ts:111-140 | one remote delta, by version comparison, including the resolver in the conflict branch and what is announced |
| StateSynchronizer.StateSynchronizer.ResolveShared | src/sync/state-synchronizer.ts:124-136 | both versions share the overwritten data while the resolver looks; its merged operations, or the remote ones, come out |
| StateSynchronizer.StateSynchronizer.ResolveAndApply | src/sync/state-synchronizer.ts:123-139 | the conflict branch as a whole, and what it announces |
| StateSynchronizer.StateSynchronizer.HandleDeltas | src/sync/state-synchronizer.ts:110-141 | the loop handles the deltas in order |
| StateSynchronizer.StateSynchronizer.HandleRemoteDelta | src/sync/state-synchronizer.ts:107-148 | the whole batch in order, what it announces, and the known sender's bookkeeping |
| WriteAheadLog.AppendKeepsGood | src/persistence/write-ahead-log.ts:48-71 | appending adds exactly the next-numbered entry at the end of the log's contents, rotation or not |
| WriteAheadLog.ReplayIgnoresListing | src/persistence/write-ahead-log.ts:81-106 | replay returns the entries above its argument in sequence order, however the directory lists its files |
| WriteAheadLog.TruncateKeepsReplay | src/persistence/write-ahead-log.ts:108-129 | truncating before b leaves a consecutive log and changes no replay from b - 1 on |
| WriteAheadLog.TruncateDeletesIff | src/persistence/write-ahead-log.ts:108-129 | after any run a truncation deletes a file if and only if it is not current, not empty and its last entry is below the bound; the others keep their entries |
| WriteAheadLog.TruncateLeavesLittle | src/persistence/write-ahead-log.ts:108-129 | what is still held of the entries below the bound lies in the current file or in a file with an entry the bound protects |
| WriteAheadLog.RunContents | src/persistence/write-ahead-log.ts:48-139 | after every run of appends, rotations and truncations the log holds what was appended, above the truncation bound |
| WriteAheadLog.ReplayIsExact | src/persistence/write-ahead-log.ts:81-106 | after every run replay from k returns exactly the entries k+1, k+2, ... that were appended |
| WriteAheadLog.JournalNumbered | src/persistence/write-ahead-log.ts:49-55 | the appended entries are numbered 1, 2, 3, ... |
| WriteAheadLog.FilesFit | src/persistence/write-ahead-log.ts:57-62 | after every run each file respects the size limit or holds a single entry |
| WriteAheadLog.AppendRotatesIff | src/persistence/write-ahead-log.ts:57-67 | after any run the next entry goes to the current file if and only if both fit the limit together, otherwise alone to a new file named by time and number |
| WriteAheadLog.WriteAheadLog.constructor | src/persistence/write-ahead-log.ts:24-38 | one empty open file in an empty directory |
| WriteAheadLog.WriteAheadLog.RotateFile | src/persistence/write-ahead-log.ts:131-151 | the current file is the one named by time and sequence, created when missing |
| WriteAheadLog.WriteAheadLog.Append | src/persistence/write-ahead-log.ts:48-71 | the next number, a rotation when the line does not fit, and the entry in the current file when one is open |
| WriteAheadLog.WriteAheadLog.Stop | src/persistence/write-ahead-log.ts:40-46 | the stream is closed and nothing else changes |
| WriteAheadLog.WriteAheadLog.Replay | src/persistence/write-ahead-log.ts:81-106 | the nested loops and the sort compute the replay |
| WriteAheadLog.WriteAheadLog.Truncate | src/persistence/write-ahead-log.ts:108-129 | files other than the current one whose last entry is below the bound are deleted, in any listing order |
| Recovery.RunIsReplay | src/index.ts:244-249 | the crashed state is the snapshot plus the entries logged after it |
| Recovery.NodeHasIff | src/core/state-manager.ts:52-122 | a node has an entity if and only if it was made, or there from the start, and not dropped afterwards |
| Recovery.RecoveryIff | src/persistence/snapshot-manager.ts:139-163 | recovery rebuilds data, versions and global version if and only if no update of a snapshot entity is numbered between the snapshot's version and its checkpoint |
| Recovery.AlignedVersionsRecover | src/persistence/snapshot-manager.ts:145 | when version and log sequence agree at the snapshot, or differ by the checkpoint, recovery is exact after every run of updates |
| Recovery.UnloggedChangesLoseUpdates | src/persistence/snapshot-manager.ts:145-146 | with the version two or more ahead of the log, the first update after the snapshot is lost |
| Recovery.TwoCreationsSuffice | src/core/state-manager.ts:52-73 | two creations on a blank node bring that about |
| Recovery.UpdateAppliedTwice | src/persistence/snapshot-manager.ts:145-153 | an update in the snapshot whose number exceeds the snapshot version is applied once more |
| Recovery.SnapshotRecoversIff | src/persistence/snapshot-manager.ts:145 | every later run of updates is recovered if and only if no update in the snapshot is numbered above its version and, unless it is empty, the version is at most one ahead of the log |
| Recovery.TwoCheckpointsSuffice | src/persistence/snapshot-manager.ts:85 | two checkpoints before an update bring a repeated update about |
| SnapshotManager.SavedIsLatestIff | src/persistence/snapshot-manager.ts:56-105 | a new snapshot can be loaded if and only if pruning drops no older entry of the same name; otherwise none can |
| SnapshotManager.SavedKeeps | src/persistence/snapshot-manager.ts:56-105 | saving adds the new name last and touches no file but the new one and those that pruning drops from the front |
| SnapshotManager.PrunedIs | src/persistence/snapshot-manager.ts:165-175 | pruning keeps exactly the newest index entries, up to the maximum, and deletes the files the others name |
| SnapshotManager.IdleSnapshotsVanish | src/persistence/snapshot-manager.ts:165-175 | repeating one snapshot more often than the maximum leaves an index without a file |
| SnapshotManager.NumberTextOrder | src/persistence/snapshot-manager.ts:181 | as text the smaller of two numbers comes first if and only if it does not exceed the larger one's leading digits |
| SnapshotManager.RestartLoadsNewestIff | src/persistence/snapshot-manager.ts:177-204 | after a restart the newest snapshot is loaded if and only if no other version exceeds the newest one's leading digits, nor a timestamp of the same version, in any listing order |
| SnapshotManager.EqualLengthsLoadNewest | src/persistence/snapshot-manager.ts:177-204 | versions and timestamps of equal length are enough |
| SnapshotManager.RestartPrefersNine | src/persistence/snapshot-manager.ts:181 | with versions 9 and 10 on disk, 9 is loaded |
| SnapshotManager.LeadingDigitDecides | src/persistence/snapshot-manager.ts:59 | a version with the larger leading digit is never sorted before the other |
| SnapshotManager.RestartPrefersLeadingDigit | src/persistence/snapshot-manager.ts:177-204 | a single version with the highest leading digit is the one loaded, however old |
| SnapshotManager.RecoverStateIff | src/persistence/snapshot-manager.ts:139-163 | over every run of the log that was given the node's journal, with rotations anywhere and truncations up to the snapshot's version, the procedure restores the crashed node if and only if it was aligned |
| SnapshotManager.LoggedJournal | src/index.ts:244-249 | a node's journal is what its log was given, entry by entry |
| SnapshotManager.SnapshotManager.constructor | src/persistence/snapshot-manager.ts:31-42 | the directory as it is, an empty index |
| SnapshotManager.SnapshotManager.LoadSnapshotIndex | src/persistence/snapshot-manager.ts:177-204 | the index is the listing sorted as text, without files that are gone |
| SnapshotManager.SnapshotManager.Existing | src/persistence/snapshot-manager.ts:184-200 | the loop keeps the files that exist, in order |
| SnapshotManager.SnapshotManager.TakeSnapshot | src/persistence/snapshot-manager.ts:56-95 | the present state is saved, old ones are pruned and a checkpoint with its version is logged |
| SnapshotManager.SnapshotManager.PruneOldSnapshots | src/persistence/snapshot-manager.ts:165-175 | oldest index entries and the files they name go until the maximum is met |
| SnapshotManager.SnapshotManager.LoadLatestSnapshot | src/persistence/snapshot-manager.ts:97-137 | the last index entry is loaded when its file exists, otherwise nothing changes |
| SnapshotManager.SnapshotManager.RecoverState | src/persistence/snapshot-manager.ts:139-163 | latest snapshot, or the present state, plus every delta logged above its version |
| BinaryProtocol.UInt16Inverse | src/network/protocol.ts:42 | reading and writing two bytes are inverse in both directions |
| BinaryProtocol.UInt32Inverse | src/network/protocol.ts:39 | reading and writing four bytes are inverse in both directions |
| BinaryProtocol.SumOfBytes | src/network/protocol.ts:117-123 | the checksum counts every byte once with its own value |
| BinaryProtocol.FrameLayout | src/network/protocol.ts:35-50 | the header byte by byte: "SENG", version 1, type, id and length with the high byte first, the payload's byte sum modulo 256 |
| BinaryProtocol.ChunkLayout | src/network/protocol.ts:87-90 | in a batch every frame stands behind its length, high byte first |
| BinaryProtocol.DecodeIffFramed | src/network/protocol.ts:52-79 | decoding yields a packet if and only if the data begins with its encoding |
| BinaryProtocol.SingleByteError | src/network/protocol.ts:53-71 | a changed byte stays unnoticed if and only if it is in the type or id, or shortens the length over a tail summing to 0 modulo 256 |
| BinaryProtocol.PayloadErrorCaught | src/network/protocol.ts:69-71 | any changed payload byte is caught, with or without trailing bytes |
| BinaryProtocol.WholeIsLargest | src/network/protocol.ts:99-107 | the number of packets wholly contained in a prefix, characterised by their lengths |
| BinaryProtocol.DecodeBatchPrefix | src/network/protocol.ts:95-110 | a truncated batch payload decodes to exactly the packets wholly contained in it |
| BinaryProtocol.BatchRoundTrip | src/network/protocol.ts:81-110 | a batch payload decodes to the packets put in, in order |
| BinaryProtocol.SentIsReceived | src/network/protocol.ts:81-115 | what is encoded as a batch is decoded as the same messages with consecutive ids modulo 65536 |
| BinaryProtocol.BinaryProtocol.constructor | src/network/protocol.ts:33 | the sequence starts at 0 |
| BinaryProtocol.BinaryProtocol.NextSequence | src/network/protocol.ts:112-115 | the next id modulo 65536 |
| BinaryProtocol.BinaryProtocol.ComputeChecksum | src/network/protocol.ts:117-123 | the loop with masking computes the byte sum modulo 256 |
| BinaryProtocol.BinaryProtocol.WriteBytes | src/network/protocol.ts:39-48 | bytes land at the offset and the others stay |
| BinaryProtocol.BinaryProtocol.Encode | src/network/protocol.ts:35-50 | the buffer holds the frame of the packet with the next id |
| BinaryProtocol.BinaryProtocol.DecodePacket | src/network/protocol.ts:52-79 | field by field reading computes the decoding, null included |
| BinaryProtocol.BinaryProtocol.EncodeAll | src/network/protocol.ts:82 | the messages' frames with consecutive ids |
| BinaryProtocol.BinaryProtocol.TotalLength | src/network/protocol.ts:83 | the length of the batch payload |
| BinaryProtocol.BinaryProtocol.WriteChunk | src/network/protocol.ts:88-89 | length and frame land at the offset, what precedes stays |
| BinaryProtocol.BinaryProtocol.AssembleBatch | src/network/protocol.ts:83-90 | the filled buffer is the batch payload |
| BinaryProtocol.BinaryProtocol.EncodeBatch | src/network/protocol.ts:81-93 | the frame of a BATCH packet around the numbered messages |
| BinaryProtocol.BinaryProtocol.ChunkLength | src/network/protocol.ts:100-102 | none exactly where the batch ends early, otherwise the length of a chunk that fits |
| BinaryProtocol.BinaryProtocol.DecodeNext | src/network/protocol.ts:100-106 | one turn of the loop: stop at an incomplete chunk, skip an undecodable one |
| BinaryProtocol.BinaryProtocol.DecodeBatchPayload | src/network/protocol.ts:95-110 | the loop at a moving offset computes the batch decoding |
| RateLimiter.CleanupUnobservable | src/security/rate-limiter.ts:76-83 | cleanups inserted anywhere into a run change no verdict |
| RateLimiter.CleanupForgetsIff | src/security/rate-limiter.ts:76-83 | after any run a cleanup forgets a key if and only if its window has ended |
| RateLimiter.RemainingIsExact | src/security/rate-limiter.ts:52-69 | exactly `remaining` further calls of the key are allowed before `resetAt`, whatever happens to other keys; the denied ones are told how long it is to `resetAt` |
| RateLimiter.ResetOpensWindow | src/security/rate-limiter.ts:47-50 | from `resetAt` on the next call opens a new window of full length |
| RateLimiter.RetryAfterIsExact | src/security/rate-limiter.ts:57-62 | a denied caller gets through if and only if it waits at least `retryAfterMs` |
| RateLimiter.RateBound | src/security/rate-limiter.ts:43-70 | in every run, at most 2 * maxRequests - 1 calls of a key are allowed in any interval of one window length, and maxRequests if a window is one tick |
| RateLimiter.RateBoundTight | src/security/rate-limiter.ts:47-50 | some run reaches that bound, for every configuration |
| RateLimiter.NominalLimitIff | src/security/rate-limiter.ts:43-70 | every run keeps to maxRequests per window length if and only if maxRequests is 1 or a window is one tick |
| RateLimiter.SeenState | src/security/rate-limiter.ts:99-108 | each tier is a plain limiter that sees only the calls the tiers before it allowed |
| RateLimiter.SeenCount | src/security/rate-limiter.ts:99-108 | what all tiers allow, each tier allows |
| RateLimiter.TieredRateBound | src/security/rate-limiter.ts:90-108 | the tiered limiter meets every tier's bound at once |
| RateLimiter.RateLimiter.constructor | src/security/rate-limiter.ts:26-29 | no windows and no counts; missing or zero arguments mean the configured defaults |
| RateLimiter.RateLimiter.Check | src/security/rate-limiter.ts:43-70 | the window is opened or continued, the verdict and the counters follow |
| RateLimiter.RateLimiter.Reset | src/security/rate-limiter.ts:72-74 | the key's window is forgotten |
| RateLimiter.RateLimiter.Stop | src/security/rate-limiter.ts:35-41 | all windows are forgotten |
| RateLimiter.RateLimiter.CleanUp | src/security/rate-limiter.ts:76-83 | exactly the ended windows are deleted |
| RateLimiter.TieredRateLimiter.constructor | src/security/rate-limiter.ts:91 | no tiers |
| RateLimiter.TieredRateLimiter.AddTier | src/security/rate-limiter.ts:93-97 | a new name is asked last, a known one gets a fresh limiter in its place |
| RateLimiter.TieredRateLimiter.ChargeTier | src/security/rate-limiter.ts:101 | one tier is charged and the others are not |
| RateLimiter.TieredRateLimiter.Stop | src/security/rate-limiter.ts:110-115 | all limiters are stopped and no tier is left |
| RateLimiter.TieredRateLimiter.Check | src/security/rate-limiter.ts:99-108 | tiers up to the first denial are charged, the later ones are not, and its verdict is returned |
| Matchmaker.SplitBlocks | src/orchestration/matchmaker.ts:132-140 | blocks and remainder are consecutive pieces of the sorted list, blocks have admissible size, and the remainder's length is n mod max when below min, otherwise 0 |
| Matchmaker.SplitUnusable | src/orchestration/matchmaker.ts:134-137 | with the maximum below the minimum nobody is matched and nobody lost |
| Matchmaker.SplitConserves | src/orchestration/matchmaker.ts:132-140 | the loop neither loses nor duplicates a request |
| Matchmaker.ConservationIff | src/orchestration/matchmaker.ts:132-148 | matches and new queue together are the unexpired requests if and only if no player has requests on both sides of the cut in the sorted list, which depends on its length only |
| Matchmaker.MatchedPlayerQueuedAgain | src/orchestration/matchmaker.ts:142-143 | two requests of one player around a match of two: the matched one is in the new queue beside the other |
| Matchmaker.PassConserves | src/orchestration/matchmaker.ts:115-149 | with distinct players a pass conserves requests, with admissible matches and a queue of closed-form length |
| Matchmaker.WaitingIff | src/orchestration/matchmaker.ts:118-148 | a request gets into a match or stays queued if and only if it was queued and has waited no longer than the limit |
| Matchmaker.AllExpired | src/orchestration/matchmaker.ts:118-128 | when everybody has waited too long there is no match and nobody stays queued |
| Matchmaker.MatchesInRatingOrder | src/orchestration/matchmaker.ts:130-140 | ratings in a match never exceed those in later matches or those left over |
| Matchmaker.RatingsRise | src/orchestration/matchmaker.ts:130 | the same in numbers, a missing rating counting as 0 |
| Matchmaker.QueueKeepsEnqueueOrder | src/orchestration/matchmaker.ts:142-148 | the new queue is a subsequence of the old one |
| Matchmaker.InterruptedConservesIff | src/orchestration/matchmaker.ts:124-139 | a pass ended by the server limit conserves requests if and only if it had made no match |
| Matchmaker.Matchmaker.constructor | src/orchestration/matchmaker.ts:38-47 | no queues and no matches, on the given server manager |
| Matchmaker.Matchmaker.Enqueue | src/orchestration/matchmaker.ts:63-71 | the request joins the end of its mode's queue |
| Matchmaker.Matchmaker.Dequeue | src/orchestration/matchmaker.ts:73-85 | the player's first request goes, and with it an empty queue; otherwise nothing changes |
| Matchmaker.Matchmaker.CreateMatch | src/orchestration/matchmaker.ts:151-197 | the match with the group's players and the first one's map is recorded on its server, and the players are placed there; without a server nothing changes |
| Matchmaker.Matchmaker.MakeMatches | src/orchestration/matchmaker.ts:132-140 | the splicing loop terminates, records one match per block and leaves the remainder, or ends early at the first block without a server |
| Matchmaker.Matchmaker.ProcessQueue | src/orchestration/matchmaker.ts:115-149 | one pass: expiry, sorting, matches, and the queue that remains; ended by an exception, the queue holds all unexpired requests |
| Cluster.SeniorIsOrder | src/cluster/cluster-coordinator.ts:143-146 | seniority is a total order on start times and ids |
| Cluster.WinnerIsSenior | src/cluster/cluster-coordinator.ts:143-148 | the winner is active and no active node is more senior |
| Cluster.WinnerStartedFirst | src/cluster/cluster-coordinator.ts:133-148 | the winner is the active node that started first, the smallest id deciding ties; the local node wins if and only if it is that node or none is active |
| Cluster.ActiveInOrder | src/cluster/node-registry.ts:67-69 | the active nodes are listed in the order of their registration |
| Cluster.ElectionsAgree | src/cluster/cluster-coordinator.ts:133-151 | nodes seeing the same active members elect the same leader, whatever their insertion orders, loads and heartbeats |
| Cluster.ElectionIsSafe | src/cluster/cluster-coordinator.ts:133-151 | an election ends with the local node or an active registered node |
| Cluster.AnnounceSafeIff | src/cluster/cluster-coordinator.ts:100-107 | an announcement keeps the leader usable if and only if it does not declare a remote leader offline |
| Cluster.EventIsSafe | src/cluster/cluster-coordinator.ts:76-118 | every event keeps the leader usable and never lowers the term |
| Cluster.GoodbyeElectsIff | src/cluster/cluster-coordinator.ts:100-118 | announcements and heartbeats never elect; a goodbye does if and only if the leader leaves, and then the first of the remaining active nodes leads |
| Cluster.StartsAlone | src/cluster/cluster-coordinator.ts:51-62 | a node starts as its own leader in term 1, with itself registered |
| Cluster.RegisteredIff | src/cluster/node-registry.ts:29-48 | after any run a node is registered if and only if it was announced, or is the local one, and has not said goodbye since |
| Cluster.StartTimeKept | src/cluster/node-registry.ts:50-108 | heartbeats and health passes leave the announced start time alone |
| Cluster.LeaderAlwaysUsable | src/cluster/cluster-coordinator.ts:51-118 | after start and any interleaving of events the leader is the local node or registered and not offline, and terms never go back |
| Cluster.PassElectsOnce | src/cluster/node-registry.ts:90-108 | a health pass elects at most once, although the election runs in mid-loop |
| Cluster.PassElectsIff | src/cluster/node-registry.ts:90-108 | a health pass holds an election if and only if the leader is a remote suspect silent for more than twice the timeout |
| Cluster.PassMarks | src/cluster/node-registry.ts:90-108 | a pass marks each remote node by its own silence and status alone, as if all were examined at once |
| Cluster.SilenceDecides | src/cluster/node-registry.ts:90-108 | a pass makes an active remote node a suspect if and only if it was silent for longer than the timeout, and a suspect offline if and only if for longer than twice that |
| Cluster.NodeRegistry.constructor | src/cluster/node-registry.ts:14-18 | no nodes |
| Cluster.NodeRegistry.RegisterNode | src/cluster/node-registry.ts:29-39 | the entry is replaced in its place or added last |
| Cluster.NodeRegistry.DeregisterNode | src/cluster/node-registry.ts:41-48 | the entry goes, the others keep their order |
| Cluster.NodeRegistry.UpdateHeartbeat | src/cluster/node-registry.ts:50-61 | a known node's heartbeat is refreshed, load and connections if given, and a suspect becomes active |
| Cluster.NodeRegistry.GetActiveNodes | src/cluster/node-registry.ts:67-69 | exactly the registered active nodes, those registered earlier first |
| Cluster.NodeRegistry.CheckNodeHealth | src/cluster/node-registry.ts:90-108 | the loop, with elections re-entering from its body, equals the node-by-node examination |
| Cluster.ClusterCoordinator.constructor | src/cluster/cluster-coordinator.ts:51-62 | the local node registered and the first election held |
| Cluster.ClusterCoordinator.ElectLeader | src/cluster/cluster-coordinator.ts:135-148 | the active node that started first, or the local one when none is active |
| Cluster.ClusterCoordinator.StartElection | src/cluster/cluster-coordinator.ts:133-151 | the next term with its winner as leader |
| Cluster.ClusterCoordinator.OnNodeOffline | src/cluster/cluster-coordinator.ts:91-97 | an election when the leader went offline, nothing otherwise |
| Cluster.ClusterCoordinator.HandleNodeAnnounce | src/cluster/cluster-coordinator.ts:100-107 | the node is registered |
| Cluster.ClusterCoordinator.HandleNodeGoodbye | src/cluster/cluster-coordinator.ts:109-114 | the node goes, followed by an election when it led |
| Cluster.ClusterCoordinator.HandleHeartbeat | src/cluster/cluster-coordinator.ts:116-118 | the registry's entry is refreshed |
| StateChecksum.HashIsPoly | src/core/state-manager.ts:222-226 | shifting, subtracting and wrapping per unit computes the base-31 polynomial, wrapped once |
| StateChecksum.ToInt32Iff | src/core/state-manager.ts:225 | wrapping identifies exactly the numbers congruent modulo 2^32 |
| StateChecksum.StreamInOrder | src/core/state-manager.ts:220-221 | the hashed stream is the descriptors one after the other |
| StateChecksum.OneUnitChangesHash | src/core/state-manager.ts:218-229 | streams of equal length differing in one unit hash differently |
| StateChecksum.SwapChangesHash | src/core/state-manager.ts:218-229 | swapping two different neighbours changes the hash |
| StateChecksum.ComputeChecksum | src/core/state-manager.ts:218-229 | the nested loops hash the concatenated descriptors |
| MessageBroker.StampedGapless | src/core/message-broker.ts:167-172 | the messages of a channel carry 1, 2, ..., k |
| MessageBroker.PostHeld | src/core/message-broker.ts:67-81 | the buffer takes messages while it has room and is frozen afterwards |
| MessageBroker.RecentIsConsecutive | src/core/message-broker.ts:139-142 | a request for recent messages returns consecutive sequence numbers ending at the last buffered one |
| MessageBroker.RecentLength | src/core/message-broker.ts:139-142 | a request returns the end of the channel's buffered messages, as many as asked for or all there are; what 0 and negative counts return |
| MessageBroker.StampedPosts | src/core/message-broker.ts:67-81 | the i-th published message is the i-th post, with its number on the channel |
| MessageBroker.RecentIsLatestIff | src/core/message-broker.ts:139-142 | the last returned message is the channel's latest if and only if none was published on it after the buffer filled |
| MessageBroker.RingBuffer.constructor | src/utils/buffer-pool.ts:42-45 | an empty queue |
| MessageBroker.RingBuffer.Push | src/utils/buffer-pool.ts:47-55 | the item joins the end, or is refused exactly when the buffer is full |
| MessageBroker.RingBuffer.Pop | src/utils/buffer-pool.ts:57-64 | the first item leaves, if there is one |
| MessageBroker.RingBuffer.Peek | src/utils/buffer-pool.ts:66-69 | the first item, if there is one |
| MessageBroker.RingBuffer.Clear | src/utils/buffer-pool.ts:83-88 | an empty queue |
| MessageBroker.RingBuffer.ToArray | src/utils/buffer-pool.ts:90-98 | the contents in order, across the wrap-around |
| MessageBroker.MessageBroker.constructor | src/core/message-broker.ts:31-34 | nothing published |
| MessageBroker.MessageBroker.NextSequence | src/core/message-broker.ts:167-172 | the channel's counter moves by one |
| MessageBroker.MessageBroker.Buffer | src/core/message-broker.ts:81 | the numbered message is buffered, or silently dropped when the buffer is full |
| MessageBroker.MessageBroker.Publish | src/core/message-broker.ts:67-81 | the message gets its channel's next number and is buffered if there is room |
| MessageBroker.MessageBroker.GetRecentMessages | src/core/message-broker.ts:139-142 | the last buffered messages of the channel, with JavaScript's reading of zero and negative counts |
| GameServers.StepCoherent | src/orchestration/game-server-manager.ts:34-161 | every call and callback keeps player counts and status coherent and revives no server |
| GameServers.ServersStayCoherent | src/orchestration/game-server-manager.ts:34-161 | in every run: players within 0 and the maximum, STARTING empty, RUNNING with a free seat, FULL at the maximum |
| GameServers.NeverRevives | src/orchestration/game-server-manager.ts:65-92 | a server that left STARTING, RUNNING and FULL never returns to them, whatever callbacks are pending |
| GameServers.ServerExistsIff | src/orchestration/game-server-manager.ts:42-108 | after any run a server exists if and only if it was created, or there before, and not removed afterwards |
| GameServers.CallbackDecides | src/orchestration/game-server-manager.ts:65-92 | a start callback makes its server run if and only if it is still starting, a stop callback stops it if it exists, and no other server is touched |
| GameServers.StopsWhenFired | src/orchestration/game-server-manager.ts:78-95 | a stopped server drains until its stop callback runs and is stopped from then on, whatever else happens short of another stop, a removal or a shutdown |
| GameServers.JoinsFill | src/orchestration/game-server-manager.ts:136-148 | joining players fill the free seats of a running server and the rest are turned away |
| GameServers.JoinsCountedIff | src/orchestration/game-server-manager.ts:136-148 | everyone who joins is counted if and only if nobody joins, or the server is running and has that many seats |
| GameServers.LeavesFree | src/orchestration/game-server-manager.ts:150-161 | leaving players free their seats down to none, and a full server runs again as soon as one has left |
| GameServers.LeavesUndoJoins | src/orchestration/game-server-manager.ts:136-161 | as many leaving as joined, with seats for all, restore the running server |
| GameServers.MatchCountedIff | src/orchestration/matchmaker.ts:152-185 | all players of a match are counted if and only if its server was running already and had seats for all |
| GameServers.RunningServerDropsPlayer | src/orchestration/matchmaker.ts:155-157 | a running server with one free seat is available for a match of two and drops one player |
| GameServers.FreshServerCountsNobody | src/orchestration/matchmaker.ts:158-185 | players added to a server before its start callback are not counted |
| GameServers.GameServerManager.constructor | src/orchestration/game-server-manager.ts:20-27 | no servers and no timers |
| GameServers.GameServerManager.CreateServer | src/orchestration/game-server-manager.ts:42-76 | refused exactly at the limit, otherwise an empty starting server with a pending start callback |
| GameServers.GameServerManager.StopServer | src/orchestration/game-server-manager.ts:78-95 | the server drains with a pending stop callback; an unknown id is refused |
| GameServers.GameServerManager.RemoveServer | src/orchestration/game-server-manager.ts:97-108 | the server is stopped first unless stopped, then deleted |
| GameServers.GameServerManager.AddPlayerTo | src/orchestration/game-server-manager.ts:136-148 | a seat is taken exactly on a running server with one free, and the last seat makes it full |
| GameServers.GameServerManager.RemovePlayerFrom | src/orchestration/game-server-manager.ts:150-161 | a seat is freed, never below zero, and a full server runs again |
| GameServers.GameServerManager.ChooseServer | src/orchestration/matchmaker.ts:152-157 | an available server of the mode with the fewest players, if there is one |
| GameServers.GameServerManager.AddPlayers | src/orchestration/matchmaker.ts:183-185 | every player is added in turn |
| GameServers.GameServerManager.PlaceMatch | src/orchestration/matchmaker.ts:152-185 | the least filled available server, or else a new one, receives the players; at the server limit nothing changes |
| GameServers.GameServerManager.StopManager | src/orchestration/game-server-manager.ts:34-40 | every server is stopped at once |
| GameServers.GameServerManager.OnTimer | src/orchestration/game-server-manager.ts:65-92 | a start callback acts on a starting server only, a stop callback on any that still exists |
| Common.SortPermutes | src/sync/delta-compressor.ts:48 | sorting keeps the elements |
| Common.SortSorts | src/sync/delta-compressor.ts:48 | sorting by a total preorder sorts |
| Common.SortKeepsSorted | src/sync/delta-compressor.ts:48 | sorting is stable enough to keep sorted input as it is |
| Common.SortToUnique | src/persistence/write-ahead-log.ts:105 | arrangements of distinguishable elements sort to one list |

## Left out

- CollapseTheorems.CollapsePreserves: one direction only for lists whose paths overlap; the equivalence is proved for prefix-free paths, where no edit of one path can mask another. Segments are names of members; see the next line.
- CollapseTheorems.CollapsePreservesIff: path segments that index into an array, or name its `length`, are not modelled; with indices a set followed by a delete leaves a longer array, so collapsing would not be exact there.
- JsonTree.DisjointWrites: likewise for segments that are indices or `length`, which do see each other on one array.
- Operations.ApplyCommutes: likewise for segments that are indices or `length`.
- RemoteDeltas.WinnerHonouredIff: that a custom resolver changes the shared entity it is handed is not modelled.
- RemoteDeltas.MergedCell: says nothing of a cell while an overlapping path is edited in the same deltas; there the order in which the merged operations run matters.
- StateManager.StateManager.UpdateEntity: data is a value, so sharing of an entity's `data` object with cached snapshots, and of the returned entity with the map, is not captured; the one place where sharing changes results (the conflict branch) is modelled by `OverwriteShared`.
- StateManager.StateManager.CreateSnapshot: the snapshot's checksum field is left out; nothing compares it.
- StateSynchronizer.EveryDeltaEchoes: for conflict-free batches; per delta `EchoesUnlessDropped` covers conflicts and unknown entities.
- WriteAheadLog.WriteAheadLog.Replay: corrupt lines and unreadable files, which the program skips, do not occur; files hold whole entries.
- Recovery.RecoveryIff: covers runs of updates and checkpoints after the snapshot; creations and deletions after it are never logged and cannot be recovered.
- SnapshotManager.SnapshotManager.TakeSnapshot: writing always succeeds, so the null result after an I/O error, and the checksum in the file, are not modelled.
- SnapshotManager.SnapshotManager.RecoverState: that the updates made while recovering are logged again is not modelled, nor are repeated recoveries.
- Replication.FollowerIsPastPrimary: the set of entities is fixed, because creations and deletions are not broadcast, and the follower is a separate node without writes of its own.
- Matchmaker.Matchmaker.CreateMatch: which of several least filled servers is taken, the later statuses of a match, and ending matches are not modelled.
- Matchmaker.Matchmaker.ProcessQueue: the minimum is at least 1; below that the program would make a match of nobody and fail on its first player.
- MessageBroker.MessageBroker.Publish: delivery to subscribers, filters, targets, statistics and time to live are not modelled.
- Cluster.ClusterCoordinator.HandleNodeAnnounce: the leader's own re-announcement is not modelled. The in-process broker hands it straight back to the leader's own handler, which announces again, without bound; what the model says is what each of those handlings does to the registry.
- StateChecksum.ComputeChecksum: descriptors come as sequences of UTF-16 units; building them from the entities and printing the hash in hexadecimal are left out.
- Operation values are scalars, since object values would be shared by reference between operations, data and history.
- Numbers are mathematical integers: floating point, NaN, -0 and numeric strings other than decimal integers are not modelled.
- JSON text escapes other than quotes, backslash, newline, carriage return and tab.
- Object prototypes: keys such as `__proto__` are ordinary keys.
- State requests, `getDeltasSince` and snapshots received from other nodes.
- Log files left by an earlier process, whose sequence numbers restart at 0, stream buffering and I/O errors.
- Packet timestamps, and the exceptions for types or payloads that do not fit their fields (preconditions here).
- `localeCompare` is modelled as code-unit order.
- The load computation of heartbeats, regions and zones.
- Uptime, latency, names and maps of game servers, and the ERROR status.
- Express routes, WebSocket server, connection pool, dashboard, authentication, metrics, alerting, configuration and logging: I/O or bookkeeping without an algorithm of its own.
