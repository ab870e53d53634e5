# SeaSearch protocols in Dafny

SeaSearch is a search server built from small protocols whose correctness is about whole runs: a
log-structured vector segment with a background rebuild, a list cache with in-flight invalidation, a
write-ahead-log consumer with redo markers, managers that load and free shared objects, an allocator of
index prefixes, a scatter/gather search, a bulk request splitter, a segmented vector index and a
histogram that coarsens itself. This project models them and proves what each promises over every
input, run, interleaving and crash point.

Concurrent parts are state machines. A trace is a sequence of events, one per lock section or durable
step; `Exec` gives the state it leads to, and a theorem about a trace is about every run. Beside the
machine stands the object the source has, with the same fields and methods; each method either is proved
against a specification function or records the events it takes. External stores (bluge, usearch, faiss,
the object store, the metadata store, the log file) are maps or multisets with atomic updates; vectors,
distances and scores are over `real`; whatever the environment decides (map iteration order, a shuffle,
which I/O fails, which goroutine moves next) is a parameter, a nondeterministic choice or an event.

| file | component |
|---|---|
| `HnswProtocol.dfy`, `HnswSafety.dfy` | the HNSW vector segment as a state machine, and its theorems |
| `VectorCache.dfy`, `HnswSegment.dfy` | its flat cache with swap-delete and the segment object |
| `Metric.dfy`, `NearestIds.dfy`, `HnswSearch.dfy`, `HnswSearchByIds.dfy` | the metric, and nearest-neighbour search over cache, index and stored documents, and among given ids |
| `KeyCache.dfy`, `KeyCacheObject.dfy` | the object key cache |
| `WalMerge.dfy`, `WalFaithful.dfy` | merging log entries per document, writing them, and what the write makes of each document |
| `WalConsumer.dfy`, `WalShard.dfy` | the log consumer: redo markers, batching, truncation, rollback |
| `WalRollback.dfy` | rolling a batch back and consuming it again |
| `VecManager.dfy`, `VecManagerObject.dfy` | the vector index manager: loading, reference counts, freeing |
| `IndexManager.dfy`, `IndexManagerObject.dfy` | the index manager: single-flight load, store and delete |
| `Distribute.dfy` | sharing out the 256 prefixes |
| `TopHits.dfy`, `ScatterGather.dfy`, `Stats.dfy` | distributed search and its statistics |
| `QueryNodes.dfy`, `QueryPlan.dfy` | the plan of a distributed search, and carrying it out |
| `Bulk.dfy`, `BulkLoops.dfy`, `BulkServer.dfy` | splitting a bulk request, the loops of server and proxy, and what they make of each request |
| `IvfPq.dfy` | segments of an IVFPQ index |
| `DateHistogram.dfy` | re-bucketing and merging of the auto date histogram |
| `Arithmetic.dfy`, `Sequences.dfy`, `Wrappers.dfy` | helpers |

`dafny verify dfyconfig.toml` checks everything.

## Findings

Some things one would expect do not hold of the code as it is. Each has a lemma that shows the failure and
one that says exactly when it does not happen, but for bulk lines with several actions, where the failure is
shown for a whole family.

- Closing a vector index: `CloseVectorIndex` with `wait` claims the name without looking whether the cache
  still holds its instance. Of two waiting closers the second frees the instance again and drops a newer
  instance from the cache while a caller holds it (`VecManager.TwoClosersFreeTwice`,
  `VecManager.TwoClosersMeet`); the collector and one waiting closer free it twice as well
  (`VecManager.CollectorAndCloserFreeTwice`, `VecManager.CloserWaits`). Once every claim has been carried
  out, something was freed twice exactly if a waiting closer claimed an instance that was no longer cached
  (`VecManager.FreedTwiceIffStray`). A closer's claim drops another instance exactly if the cache holds
  another one under the name at that moment (`VecManager.CloserDropsAnother`).
- Consuming a batch twice: after a crash between a merged write and its commit the batch is rolled back and
  written again, but the rollback write skips the latest shard, where every insert goes, and so undoes
  nothing (`WalRollback.RollbackUndoesNothing`, `WalRollback.CrashWritesAgain`). An inserted document then has
  two copies and, in flat and IVFPQ indexes, two rows (`WalRollback.InsertConsumedTwice`). A document that was
  deleted by the batch and created again behind it is in two groups of the second write, and is lost with its
  vectors if the latest shard's group comes first (`WalRollback.ReinsertIsLogged`,
  `WalRollback.ReinsertIsLost`). The second write comes out right, in every order of its groups, exactly if it
  mishandles no document (`WalRollback.ConsumedTwiceIff`). It mishandles a document that only the latest
  group writes and that is there already, unless it lies in the latest shard, is not inserted first and is set
  last; and one that both its groups write, unless they agree: both remove it, or both set the same content in
  the latest shard without inserting, or an older shard loses it, there are no vector fields and setting it
  was asked for last (`WalFaithful.Mishandled`).
- Long lists of operations: they are checked against the store first and then written chunk after chunk, so a
  new id in two chunks is inserted twice without any crash (`WalFaithful.InsertedByBoth`). The later chunk
  comes out right exactly if it neither inserts again nor leaves behind a new document that the earlier one
  stored (`WalFaithful.TwoBatchesIff`).
- Splitting a bulk body: the server falls back to the index of the request path when a metadata line has no
  `_index`; the proxy panics on such a line (`Bulk.UnnamedIndexPanics`). Of the bodies the server accepts it
  splits exactly those in which every action that does something names its index and no data line is orphaned
  by an unknown key visited after the announcement (`Bulk.SplitsExactlyIfNamed`).
- A bulk body that ends in wait for data: a node that is sent the awaited index's lines first takes the next
  index's metadata line for the data (`Bulk.AwaitedDataIsSwallowed`). With one action per metadata line, a
  node executes exactly its indexes' operations if and only if nothing follows the awaited index's lines in
  what it is sent (`Bulk.NodeExecutesExactlyIff`). A line that removes a document of one index and announces
  one of another makes the node of the second execute the removal, whatever comes before and after
  (`Bulk.MixedLineLeaks`).
- One id in one IVFPQ segment: one of the ids that filled a segment can be added again to the next
  (`IvfPq.AddedAgain`). A run of calls keeps ids apart exactly if every added id is deleted in its batch or
  lives in no segment but the current one (`IvfPq.RunsStayUniqueIff`).
- Searching among given ids: an id of the overlay that is listed twice is answered twice
  (`HnswSearchByIds.AddedIdIsAnsweredTwice`). An answer with room for all candidates is free of duplicates
  exactly if no such id is listed twice (`HnswSearchByIds.DuplicateFreeIffNoneRepeated`); with less room, and
  no two documents equally far, exactly if each document with two candidates has k - 1 candidates nearer than
  it (`HnswSearchByIds.DuplicateFreeIffOutOfReach`).
- Merging date histograms: the interval is raised only for a bucket that was not found, so a coarse
  calculator merged into a finer one with the same bucket names leaves its instants in the wrong buckets
  (`DateHistogram.CoarseIntoFineMisplaces`); when exactly is `DateHistogram.MergedIsBucketedIff`.
- Finishing a date histogram over a long range: the first loop of `Finish` raises the interval and leaves the
  buckets at the keys of the finer one, so instants can end beside the bucket they belong to
  (`DateHistogram.RaisedIntervalMisplaces`). They end in it exactly if the interval is not raised, or there are
  more buckets than asked for and a pass follows, or the keys are multiples of the raised interval anyway
  (`DateHistogram.AutoDateHistogramCalculator.Finish`).

## Model

| member | source | states |
|---|---|---|
| `HnswSafety.NextKeepsInv` | pkg/core/hnsw_segment.go:222-583 | every step of writers, of the rebuild phases and of a crash with reload keeps the relation between durable rows, overlay, stored documents, index and the worker's snapshot |
| `HnswSafety.RunsKeepInv` | pkg/core/hnsw_segment.go:222-583 | that relation holds in every reachable state |
| `HnswSafety.ViewIsReplay` | pkg/core/hnsw_segment.go:222-315 | in every run the view (overlay for ids in docTS, stored documents for the rest) is the map from applying all batches in order, deletes before adds |
| `HnswSafety.RebuildKeepsView` | pkg/core/hnsw_segment.go:410-583 | no phase of a rebuild changes the view, wherever it interleaves with writers |
| `HnswSafety.CrashRestoresReplay` | pkg/core/hnsw_segment.go:91-220 | after a crash at any point, loading restores exactly the replay of every batch made durable |
| `HnswSafety.ReplayAfterBatch` | pkg/core/hnsw_segment.go:222-315 | the replay starts empty; a batch puts each added document with the vector given last for it, removes what it deletes and does not add, and leaves every other document alone |
| `HnswSafety.LoadedIndexAgrees` | pkg/core/hnsw_segment.go:190-220 | the loaded index agrees with the stored documents on every id outside docTS |
| `HnswSafety.ReachableIsSearchable` | pkg/core/hnsw_segment.go:585-683 | every reachable state meets what the search assumes of overlay and index and, after batches of the segment's dimension, every stored, cached and indexed vector has it |
| `HnswSafety.RunsKeepSized` | pkg/core/hnsw_segment.go:247-257 | no vector of another dimension reaches disk, memory, index or the worker's snapshots in a run of batches that passed the check |
| `HnswSafety.LogIdsAreNeverReused` | pkg/core/hnsw_segment.go:259-315 | a log id ever given to a row is never given to another one, across truncation and crashes |
| `HnswSafety.RunsKeepHistory` | pkg/core/hnsw_segment.go:259-315 | the durable rows are numbered entries of the history of all operations |
| `HnswSafety.CountDeltaIsExact` | pkg/core/hnsw_segment.go:317-376 | countDelta is the change in size of the view, for ids deleted and added at once, without an index or in the middle of a rebuild |
| `HnswSafety.CountIsLive` | pkg/core/vec_index.go:726-740 | in runs without a crash the count, once owed deltas are added, is the number of live documents |
| `VectorCache.SwapDeleteIds` | pkg/core/hnsw_segment.go:798-819 | moving the last id into the hole keeps id list and position map inverse to each other |
| `VectorCache.SwapDelete` | pkg/core/hnsw_segment.go:798-819 | swap-delete on the flat lists removes exactly one id from the map they stand for |
| `VectorCache.UnflattenOverwrite` | pkg/core/hnsw_segment.go:787-796 | writing one slot of the flat list changes that vector and no other |
| `VectorCache.Cache.Update` | pkg/core/hnsw_segment.go:787-796 | the cache stands for the old map with the id set to the vector |
| `VectorCache.Cache.Delete` | pkg/core/hnsw_segment.go:798-819 | the cache stands for the old map without the id, cached or not |
| `VectorCache.Cache.Restore` | pkg/core/hnsw_segment.go:164-188 | loading the selected rows in any order gives their overlay |
| `VectorCache.Cache.ApplyBatch` | pkg/core/hnsw_segment.go:306-311 | applying a batch's rows to the cache is applying them to the map |
| `HnswSegment.NewestRows` | pkg/core/hnsw_segment.go:410-440 | scanning the log selects, for every document, its newest row up to a number |
| `HnswSegment.NumberRows` | pkg/core/hnsw_segment.go:259-294 | a batch writes its rows under consecutive new numbers and stamps each document with its last one |
| `HnswSegment.CountSigns` | pkg/core/hnsw_segment.go:317-376 | the loops over added and deleted ids compute the specified delta |
| `HnswSegment.FoldNewest` | pkg/core/hnsw_segment.go:410-455 | folding the selected rows into the stored documents is the specified materialisation |
| `HnswSegment.Segment.LoadStore` | pkg/core/hnsw_segment.go:91-162 | loading an object over what any run has left on disk is the machine's crash-and-load step of that run |
| `HnswSegment.Segment.Batch` | pkg/core/hnsw_segment.go:222-315 | Batch fails exactly on mismatched sizes or a wrong dimension and then changes nothing; otherwise its run is extended by the machine's write and commit steps, the replay changes document by document as the batch says, and it returns the change in the number of documents |
| `HnswSegment.Segment.WriteRows` | pkg/core/hnsw_segment.go:259-299 | the durable write of a batch is the machine's write step, with worker steps before and after it |
| `HnswSegment.Segment.Publish` | pkg/core/hnsw_segment.go:300-314 | making the rows visible is the machine's commit step, whatever the worker wrote since the durable write |
| `HnswSegment.AddRows` | pkg/core/hnsw_segment.go:486-500 | adding the document rows of a reader to an empty index, in any order, gives an index of exactly those documents |
| `HnswSegment.Segment.ApplyBegin` | pkg/core/hnsw_segment.go:410-415 | the read-locked section of applyLogs hands out the rows and the number of its snapshot |
| `HnswSegment.Segment.ApplyWrite` | pkg/core/hnsw_segment.go:421-454 | folding the newest rows of a snapshot, taken any number of batches ago, into the documents stored now is the machine's apply step |
| `HnswSegment.Segment.BuildIndex` | pkg/core/hnsw_segment.go:457-519 | from a reader opened any number of batches ago, the built and saved index holds exactly the documents stored at the moment it is saved; it is the machine's save step |
| `HnswSegment.Segment.CleanWrite` | pkg/core/hnsw_segment.go:537-562 | removing the applied rows of a snapshot and writing the marker is the machine's clean step on the log as it is now |
| `HnswSegment.Segment.CleanCommit` | pkg/core/hnsw_segment.go:564-580 | the last section drops exactly the overlay entries no newer than the rebuild and publishes the built index, as the machine's step |
| `HnswSegment.Segment.BuildHNSW` | pkg/core/hnsw_segment.go:390-408 | a rebuild that no writer comes into empties log and overlay, and the published index is the replay of all batches |
| `NearestIds.Scan` | pkg/core/hnsw_segment.go:983-1007 | the exact scan returns the positions of k nearest distances, sorted and without repetition |
| `NearestIds.MergeIsTopK` | pkg/core/hnsw_segment.go:608-635 | the first k of two merged answers over disjoint ids are a true top k of the union |
| `NearestIds.MergeLoop` | pkg/core/hnsw_segment.go:608-630 | the two-index loop produces that merge, with the distances beside the ids |
| `Metric.L2sqConcat` | pkg/core/hnsw_segment.go:983-1007 | the squared distance of joined vectors is the sum of those of the pieces, so every coordinate counts alike |
| `Metric.L2sqOneMore` | pkg/core/hnsw_segment.go:983-1007 | one more coordinate adds the square of its difference |
| `Metric.L2sqZeroIffSame` | pkg/core/hnsw_segment.go:983-1007 | the distance is never negative, and 0 exactly from a vector to itself |
| `Metric.L2sqSymmetric` | pkg/core/hnsw_segment.go:983-1007 | the distance is the same both ways |
| `Metric.L2sqChange` | pkg/core/hnsw_segment.go:983-1007 | changing one coordinate changes the distance by what that coordinate contributes |
| `Metric.TopKIsNearerFirst` | pkg/core/hnsw_segment.go:983-1007 | in every top k by this metric, of two entries that differ in one coordinate the farther is answered only behind the nearer |
| `HnswSearch.FilterLeavesEnough` | pkg/core/hnsw_segment.go:648-669 | of k + the number of hidden ids asked for, at least min(k, live indexed documents) survive the filter |
| `HnswSearch.CandidatesSuffice` | pkg/core/hnsw_segment.go:653-680 | if the index answer is exact, the best k of the surviving candidates are the best k of all live stored documents |
| `HnswSearch.ExactSearch` | pkg/core/hnsw_segment.go:983-1007 | an exact search of a flat list is the true top k of the map it lists, with true distances |
| `HnswSearch.SearchIndex` | pkg/core/hnsw_segment.go:648-683 | the index part of a search is the true top k of the stored documents outside docTS |
| `HnswSearch.RunsAreSearchable` | pkg/core/hnsw_segment.go:585-683 | after any run of well-dimensioned batches, rebuild steps and crashes the segment is searchable and its view is the replay |
| `HnswSearch.Search` | pkg/core/hnsw_segment.go:585-638 | Search fails exactly on a wrong dimension; otherwise, after any such run, it returns a sorted, duplicate-free true top k of the replay of all batches with true distances, min(k, documents) of them and none for a negative k; of two documents that differ in one coordinate the farther is answered only behind the nearer |
| `HnswSearchByIds.CollectCached` | pkg/core/hnsw_segment.go:740-752 | the overlay part looks up every entry of the filter, one candidate per occurrence |
| `HnswSearchByIds.SearchByIDs` | pkg/core/hnsw_segment.go:685-738 | the answer is the documents of the nearest k candidates, each a listed document of the replay with its true distance; a true top k if no overlay id is listed twice; duplicate-free exactly then with room for all, and with less room, barring ties, exactly if no document with two candidates is within reach |
| `HnswSearchByIds.DuplicateFreeIffNoneRepeated` | pkg/core/hnsw_segment.go:740-785 | an answer with room for every candidate has no duplicate exactly if no overlay id is listed twice |
| `HnswSearchByIds.DuplicateFreeIffOutOfReach` | pkg/core/hnsw_segment.go:740-785 | for every k, if no two documents are equally far, an answer has no duplicate exactly if each document with two candidates has at least k - 1 candidates nearer than it |
| `HnswSearchByIds.RoomGivesTwice` | pkg/core/hnsw_segment.go:740-785 | with ties: room for everything nearer, for the ties and for two more makes a duplicate |
| `HnswSearchByIds.TwiceNeedsRoom` | pkg/core/hnsw_segment.go:740-785 | with ties: a document answered twice leaves room for everything nearer |
| `HnswSearchByIds.AddedIdIsAnsweredTwice` | pkg/core/hnsw_segment.go:740-785 | after one batch that adds a document, a search that lists it twice answers it twice |
| `KeyCache.NextKeepsInv` | pkg/bluge/directory/keycache.go:39-120 | every step of listers and mutators keeps the relation between items, pending fetches and mutations |
| `KeyCache.AnswersAreFresh` | pkg/bluge/directory/keycache.go:39-67 | a List that starts after a mutation has returned never yields a listing older than it |
| `KeyCache.StaleOnlyWhileMutating` | pkg/bluge/directory/keycache.go:69-120 | a ready item is stale only while a matching mutation has taken effect and not yet invalidated |
| `KeyCache.ListingHolds` | pkg/bluge/directory/keycache.go:50-57 | a listing holds exactly the keys that continue the prefix |
| `KeyCache.MatchesIffListed` | pkg/bluge/directory/keycache.go:71-81 | a mutation matches a prefix exactly if it names a key that a listing of the prefix could hold |
| `KeyCache.UndisturbedIsPublished` | pkg/bluge/directory/keycache.go:39-67 | in every run a List that misses leaves what it fetched in the cache, unless another List of the prefix misses or a matching mutation invalidates before it ends |
| `KeyCache.CachedUntilInvalidated` | pkg/bluge/directory/keycache.go:39-90 | in every run a cached listing answers every List until a matching mutation invalidates it |
| `KeyCacheObject.ObjectKeyCache.BeginList` | pkg/bluge/directory/keycache.go:39-52 | the first section of List is the machine's hit, with the keys it answers, or its miss, with a fresh item; it is a hit exactly if the machine has one |
| `KeyCacheObject.ObjectKeyCache.EndList` | pkg/bluge/directory/keycache.go:53-66 | the last section of List is the machine's finishing step, however many invalidations and other listers came in between |
| `KeyCacheObject.ObjectKeyCache.Invalidate` | pkg/bluge/directory/keycache.go:69-90 | the loop over the items, in any order, is the machine's invalidation step: ready matches go, unready ones are marked |
| `WalMerge.FieldAfterAt` | pkg/core/index_shards_wal.go:582-632 | a vector batch leaves the rows of each id of a field as the decision for its document says, replacing in HNSW and adding a row in flat and IVFPQ indexes |
| `WalMerge.BatchVectors` | pkg/core/index_shards_wal.go:582-632 | grouping actions by field and batching each group updates every field's index as its kind does |
| `WalMerge.VecActionsOf` | pkg/core/index_shards_wal.go:389-520 | the vector actions made for a document cover each field as its decision says and put each field once |
| `WalMerge.WriteToShard` | pkg/core/index_shards_wal.go:363-540 | writing one group changes copies and rows of its documents as their decisions say, and nothing else |
| `WalMerge.WriteTo` | pkg/core/index_shards_wal.go:346-361 | writing all groups leaves each document as writing it with its groups in some order, also if it is in two of them |
| `WalMerge.MergedActions` | pkg/core/index_shards_wal.go:315-341 | merging collects, per group and document, every action in the order it was logged and the data of the last, and nothing else |
| `WalMerge.MergeTracks` | pkg/core/index_shards_wal.go:315-341 | what merging keeps of a document, group by group, against what was requested of it, for entries logged whenever the document was absent or in its home |
| `WalMerge.DecisionRightIff` | pkg/core/index_shards_wal.go:389-520 | for every action sequence, prior content and kind of index: text and rows come out as the last action asks exactly if no copy is inserted to or left behind, and no old row meets an insert that is deleted again or does not replace |
| `WalFaithful.MergedWriteRightIff` | pkg/core/index_shards_wal.go:315-540 | for every batch of entries logged when their document was absent or in its home, whatever the stores hold now: in every order of its groups the merged write equals the requested operations applied one at a time if and only if it mishandles no document |
| `WalFaithful.DocumentRightIff` | pkg/core/index_shards_wal.go:346-540 | the same for one document, in one group or in two |
| `WalFaithful.RightIsAgreeing` | pkg/core/index_shards_wal.go:389-520 | if a document comes out right in either order of its two groups, they agree on it: both remove it, or set the same content in the latest shard without inserting, or an older shard loses it and there are no vectors |
| `WalFaithful.AgreeingIsRight` | pkg/core/index_shards_wal.go:389-520 | a document on which its two groups agree comes out right in either order |
| `WalFaithful.MergedWriteIsFaithful` | pkg/core/index_shards_wal.go:315-540 | for entries logged against the documents the batch finds, the merged write, in every order, leaves text and vector stores as applying the requested operations one at a time would, each document in its shard |
| `WalFaithful.DocumentHeld` | pkg/core/index_document.go:88-131 | the same for one document of such a batch |
| `WalFaithful.TwoBatchesIff` | pkg/core/index_document.go:352-379 | of two batches logged against the same documents the second comes out right, in every order, if and only if it neither inserts again nor leaves behind a new document that the first stored |
| `WalFaithful.InsertedByBoth` | pkg/core/index_document.go:352-379 | a new id in both batches ends with two copies, and two rows in indexes that do not replace |
| `WalConsumer.RunsKeepInv` | pkg/core/index_shards_wal.go:82-277 | in every run markers, consumer position, truncation point and committed ranges fit together |
| `WalConsumer.NothingUncommittedIsTruncated` | pkg/core/index_shards_wal.go:148-246 | whatever fails or crashes, no entry above the last committed id is truncated |
| `WalConsumer.TruncationDropsTheCommitted` | pkg/core/index_shards_wal.go:231-235 | truncation, after a run or on reopening, drops exactly what comes before the last committed entry |
| `WalConsumer.CommitsTileTheLog` | pkg/core/index_shards_wal.go:178-228 | the committed ranges tile the log from 1 without gap or overlap and together wrote exactly its entries |
| `WalConsumer.WrittenOnceWithoutFailure` | pkg/core/index_shards_wal.go:178-228 | without failures every committed entry has been written exactly once, in log order |
| `WalConsumer.CommittedEntriesWereWritten` | pkg/core/index_shards_wal.go:178-228 | with failures every committed entry has still been written at least once |
| `WalConsumer.RollbackFindsItsEntries` | pkg/core/index_shards_wal.go:82-145 | on reopening, every entry of a differing read marker is still there, parses, and starts just past the last committed one |
| `WalShard.MaxShardLen` | pkg/core/index_shards_wal.go:297-305 | the largest number of documents in a group |
| `WalShard.ReachesBatchSize` | pkg/core/index_shards_wal.go:297-305 | whether some group of what was merged has grown to the batch size, or every group has room for one more |
| `WalShard.MergedIsEmpty` | pkg/core/index_shards_wal.go:307-341 | merged groups are without documents exactly if nothing was merged since the last reset |
| `WalShard.Collect` | pkg/core/index_shards_wal.go:114-131 | the rollback loop reads exactly the entries of the marker |
| `WalShard.IndexShard.Flush` | pkg/core/index_shards_wal.go:192-206 | read marker, write and write marker are taken in this order and stop at the first failure; without one the range is committed |
| `WalShard.IndexShard.ConsumeWAL` | pkg/core/index_shards_wal.go:148-246 | the loop takes only steps of the machine; the whole run, at most 10240 entries, is committed if anything is new, every entry parses and no step fails, and true says that it is; each committed batch fits the batch size and every one but the last is full |
| `WalShard.IndexShard.Rollback` | pkg/core/index_shards_wal.go:82-145 | Rollback does nothing if the markers agree, and otherwise collects exactly the uncommitted entries read, keeps what is committed and fails only if its write does |
| `WalRollback.WriteToShardRollback` | pkg/core/index_shards_wal.go:542-580 | rolling a group back deletes exactly the documents whose first action inserted them, and nothing at all in the group of the latest shard |
| `WalRollback.WriteToRollback` | pkg/core/index_shards_wal.go:346-361 | so does rolling back all groups, in any order; vectors are left alone |
| `WalRollback.RollbackUndoesNothing` | pkg/core/index_shards_wal.go:542-580 | for every batch that the write paths can log, the rollback write changes nothing |
| `WalRollback.ConsumedTwiceIff` | pkg/core/index_shards_wal.go:82-145 | written, rolled back and consumed again with entries logged behind it, before or after the first write, a batch leaves the stores as requested in every order of its groups if and only if the second write mishandles no document |
| `WalRollback.ConsumedAgainIff` | pkg/core/index_shards_wal.go:82-145 | if nothing behind the batch saw what its first write left, if and only if no new document it stored is inserted again or was to be removed |
| `WalRollback.CrashWritesAgain` | pkg/core/index_shards_wal.go:148-246 | for every batch and every list of entries behind it, a run of the consumer writes the batch, crashes, rolls back and writes all of it |
| `WalRollback.InsertConsumedTwice` | pkg/core/index_shards_wal.go:542-580 | an insert consumed that way leaves two copies of the document and, but for HNSW, two rows |
| `WalRollback.ReinsertIsLogged` | pkg/core/index_document.go:88-131 | a document deleted by a batch and created again after its first write: both entries are what the write paths log |
| `WalRollback.ReinsertIsLost` | pkg/core/index_shards_wal.go:346-361 | they are in two groups, and with the latest shard's first the document and its vectors are lost |
| `VecManager.NextKeepsInv` | pkg/core/vec_index_manager.go:123-261 | every lock section keeps owners, reference counts, cache and claims consistent |
| `VecManager.FreedOnlyWhenIdle` | pkg/core/vec_index_manager.go:123-261 | an index is freed only with reference count 0 and out of the cache |
| `VecManager.NoUseAfterFree` | pkg/core/vec_index_manager.go:181-218 | no caller holds a freed instance and the cache cannot hand one out |
| `VecManager.FreedForGood` | pkg/core/vec_index_manager.go:181-261 | what has been freed stays freed in every continuation, so the two facts above last |
| `VecManager.OneOwnerPerName` | pkg/core/vec_index_manager.go:181-261 | at most one goroutine loads or frees under a name, and the name is then not cached |
| `VecManager.ClaimedTwiceIffStray` | pkg/core/vec_index_manager.go:222-261 | some instance is claimed to be freed twice exactly if some waiting closer claims one that is no longer cached |
| `VecManager.FreedTwiceIffStray` | pkg/core/vec_index_manager.go:222-261 | once all claims are carried out, some instance has been freed twice exactly if a waiting closer claimed one that was no longer cached |
| `VecManager.FreedOnceUnlessStray` | pkg/core/vec_index_manager.go:123-261 | until a closer does, no instance has been freed twice at any moment |
| `VecManager.HeldIsCachedUnlessStray` | pkg/core/vec_index_manager.go:181-261 | until then every instance a caller holds is the cached one of its name |
| `VecManager.CloserDropsAnother` | pkg/core/vec_index_manager.go:233-251 | a waiting closer's claim takes another instance out of the cache exactly if the cache holds another one under the name, and a held one exactly if that one is held |
| `VecManager.CollectorAndCloserFreeTwice` | pkg/core/vec_index_manager.go:123-261 | from any reachable state with a closer waiting for a cached idle instance, the collector and the closer both free it |
| `VecManager.CloserWaits` | pkg/core/vec_index_manager.go:222-261 | such a state is reachable |
| `VecManager.TwoClosersFreeTwice` | pkg/core/vec_index_manager.go:222-261 | from any reachable state with two closers waiting for an instance, a run frees it twice and drops a held newer instance from the cache |
| `VecManager.TwoClosersMeet` | pkg/core/vec_index_manager.go:222-261 | such a state is reachable |
| `VecManagerObject.VecIndexManager.TryGet` | pkg/core/vec_index_manager.go:181-199 | the first section returns the cached object with one more reference and never a freed one, claims the name, or asks to wait |
| `VecManagerObject.VecIndexManager.FinishLoad` | pkg/core/vec_index_manager.go:200-217 | the last section publishes a fresh object with one reference, or drops the claim |
| `VecManagerObject.VecIndexManager.ReduceRef` | pkg/core/vec_index.go:76-87 | closing gives back exactly one reference |
| `VecManagerObject.VecIndexManager.TryClose` | pkg/core/vec_index_manager.go:233-260 | a waiting closer claims, gives up or waits on, by reference count and claim |
| `VecManagerObject.VecIndexManager.TryCollect` | pkg/core/vec_index_manager.go:126-150 | the collector claims exactly an unreferenced cached object |
| `VecManagerObject.VecIndexManager.Free` | pkg/core/vec_index_manager.go:244-246 | when the object is freed it has no references and no name leads to it |
| `VecManagerObject.VecIndexManager.FinishFree` | pkg/core/vec_index_manager.go:248-251 | the last section gives the name back and leaves cache and references as they are |
| `IndexManager.NextKeepsInv` | pkg/core/indexmgr.go:45-346 | every mutex section and metadata access keeps owners, channels, cache and stored metadata consistent |
| `IndexManager.OneOwnerPerName` | pkg/core/indexmgr.go:45-99 | at most one goroutine owns a name's load, store or delete section |
| `IndexManager.CachedIsUpToDate` | pkg/core/indexmgr.go:45-346 | a cached index has stored metadata and holds what was stored last, or a goroutine owns the name |
| `IndexManager.WaitersAreWoken` | pkg/core/indexmgr.go:59-63 | the channel a goroutine waits for is closed, or the owner that will close it is at work |
| `IndexManager.ClosedBeforeDropped` | pkg/core/indexmgr.go:69-84 | an entry goes away only with its channel closed, in the owner's last section, and no channel is closed twice |
| `IndexManager.LoadedIsServed` | pkg/core/indexmgr.go:45-85 | in every run what Get or GetOrCreate obtained answers every later Get and GetOrCreate until another object is to be stored under the name, the index is to be deleted or its entry dropped |
| `IndexManager.LoadSeesLastStore` | pkg/core/indexmgr.go:87-99 | in every run a load obtains the content of the object stored or created last under its name |
| `IndexManager.DeletedIsGone` | pkg/core/indexmgr.go:257-293 | in every run nothing can be loaded under a name whose metadata was deleted until it is stored again |
| `IndexManagerObject.Manager.TryClaim` | pkg/core/indexmgr.go:51-67 | the first section serves Get and GetOrCreate from the cache exactly if the name is there, waits on the channel under the name, or claims it |
| `IndexManagerObject.Manager.Finish` | pkg/core/indexmgr.go:186-293 | the last section closes an open channel, drops the claim and leaves the name cached only with the content stored last; what was loaded is cached, a stored object stays cached exactly if it was, a deleted one goes, a failure and other names leave the cache alone |
| `IndexManagerObject.Manager.DropCache` | pkg/core/indexmgr.go:246-255 | DropCache returns and removes the cached index and touches no claim |
| `Distribute.PrefixCount` | cmd/cluster-manager/manager.go:115-118 | the two-digit hexadecimal prefixes are 256 different ones |
| `Distribute.PrefixesAre` | cmd/cluster-manager/manager.go:115-118 | the prefixes are exactly the pairs of lower-case hexadecimal digits |
| `Distribute.QuotasAddUp` | cmd/cluster-manager/manager.go:154-166 | average and remainder quotas add up to all prefixes, for every number of nodes |
| `Distribute.GroupByNode` | cmd/cluster-manager/manager.go:125-138 | each alive node's list holds exactly the prefixes it owns, once each |
| `Distribute.Trim` | cmd/cluster-manager/manager.go:159-171 | nothing is taken from a node but what exceeds its quota, and every prefix stays in one list or the pool |
| `Distribute.PoolFillsGaps` | cmd/cluster-manager/manager.go:158-198 | the pool is exactly as large as what the nodes lack |
| `Distribute.Fill` | cmd/cluster-manager/manager.go:182-198 | every slice of the pool is in range and the pool ends empty |
| `Distribute.BalancedAfter` | cmd/cluster-manager/manager.go:140-198 | with the updates applied every prefix has one alive owner and every node exactly its quota |
| `Distribute.PoolIsLeast` | cmd/cluster-manager/manager.go:140-170 | no assignment with the same quotas changes fewer owners than there are prefixes in the pool |
| `Distribute.DiffHandsOut` | cmd/cluster-manager/manager.go:200-212 | the updates are exactly the pool as it was handed out |
| `Distribute.Distribute` | cmd/cluster-manager/manager.go:114-214 | for every list of distinct nodes, starting map, map order and shuffle: balanced, the i-th node with 256 / n prefixes and one more if i is below the remainder, only real changes, and least many of them |
| `Distribute.SecondCallReturnsNothing` | cmd/cluster-manager/manager.go:173-176 | a second call on the updated map returns nothing |
| `TopHits.PartMayBeCut` | pkg/bluge/search/search.go:74-221 | a part may be replaced by its best Size hits without changing the best Size of the whole |
| `TopHits.MergeIsTop` | cmd/zinc-proxy/parallel_query.go:228-290 | the best of the parts' best hits are the best of all hits |
| `ScatterGather.DocumentList.Done` | pkg/bluge/search/search.go:356-364 | Done skips exactly the best `from` hits |
| `ScatterGather.DocumentList.Next` | pkg/bluge/search/search.go:366-373 | Next gives a best remaining hit until size or all are given |
| `ScatterGather.MultiZincSearch` | pkg/bluge/search/search.go:74-221 | the heap merge of shard answers, arriving in any order, is the best Size of them, and totals add up |
| `ScatterGather.Gather` | pkg/handlers/search/search_v2.go:365-399 | appending, an unstable sort by score and the cut give the best Size of what came in |
| `ScatterGather.InternalUnifiedSearch` | pkg/handlers/search/search_v2.go:318-402 | a node's answer is the best Size of all matches in its shards and its total counts them |
| `ScatterGather.ExecParallelQueries` | cmd/zinc-proxy/parallel_query.go:228-290 | the proxy's answer is the best Size of all matches in all shards and its total counts them |
| `ScatterGather.SpreadDoesNotMatter` | cmd/zinc-proxy/parallel_query.go:100-150 | however the same shards are spread over nodes, the same answers qualify |
| `Stats.UnifiedStats.MergeTerm` | pkg/bluge/search/stats.go:39-66 | one term counter grows by the frequency and no other counter changes |
| `Stats.UnifiedStats.MergeField` | pkg/bluge/search/stats.go:15-35 | every counter of the field grows by its value, in 64 bits, and no other changes |
| `Stats.UnifiedStats.Merge` | pkg/bluge/search/stats.go:9-13 | merging adds counter by counter, whatever the order of fields and terms |
| `Stats.LocalStats` | pkg/core/multi_search.go:273-314 | a node's statistics are the sum over its shards |
| `Stats.ParallelGetStats` | cmd/zinc-proxy/parallel_query.go:196-226 | the merged statistics are the sum over all shards of all nodes, counter by counter modulo two to the 64 |
| `Stats.PartitionDoesNotMatter` | pkg/core/multi_search.go:240-344 | for any partition and any order the counters come out the same |
| `Stats.CountersTell` | pkg/bluge/search/stats.go:9-66 | statistics of the same fields and terms that agree on every counter are the same, so the counters leave nothing out |
| `QueryNodes.Circle.Next` | cmd/zinc-proxy/parallel_query.go:157-165 | the cursor goes round the nodes |
| `QueryNodes.CursorIs` | cmd/zinc-proxy/parallel_query.go:157-165 | card k goes to place k modulo n, after k / n full rounds |
| `QueryNodes.GetQueryNodes` | cmd/zinc-proxy/parallel_query.go:169-194 | min(nodes, limit) different nodes, consecutive on the list and around its end, from the assigned one on or from the first if it is not listed; none exactly if no node is assigned |
| `QueryNodes.SharesAreAll` | cmd/zinc-proxy/parallel_query.go:140-147 | the shares of the nodes together are all second shards, each once |
| `QueryNodes.LoadsAreEven` | cmd/zinc-proxy/parallel_query.go:140-147 | loads differ by at most one |
| `QueryNodes.DealOut` | cmd/zinc-proxy/parallel_query.go:140-147 | each node is asked exactly its share, never an empty one, and nothing changes for other indexes |
| `QueryNodes.CalcNodeIndexMap` | cmd/zinc-proxy/parallel_query.go:100-150 | every index with metadata goes whole to its owner or is dealt out from its assigned node on; nothing else is planned; it fails exactly if an index lacks the assignment it needs |
| `QueryPlan.PlanOpensOnce` | cmd/zinc-proxy/parallel_query.go:100-150 | every second shard of an index with metadata is asked of exactly one node |
| `QueryPlan.PlanSearchesAllOnce` | cmd/zinc-proxy/parallel_query.go:100-150 | what the nodes of a plan open together is every second shard of every searched index with metadata, once |
| `QueryPlan.OpenShards` | pkg/core/multi_search.go:218-224 | a node opens the shards it was asked for, or all of them if no id was given |
| `QueryPlan.WantedHolds` | cmd/zinc-proxy/parallel_query.go:60-150 | what a search is about: exactly the matches in the second shards of the searched indexes that have metadata |
| `QueryPlan.UnifiedSearch` | cmd/zinc-proxy/parallel_query.go:60-150 | plan, requests in any order and gathering: the answer is the best Size of all matches in all second shards of the searched indexes, and the total counts each match once; it fails exactly if an index lacks the assignment it needs |
| `BulkLoops.BulkWorker` | pkg/handlers/document/bulk.go:102-261 | the server's loop over its flag and its map of last metadata executes the operations, stops on the errors and panics where the line machine does, for every body |
| `BulkServer.PutIsExecuted` | pkg/handlers/document/bulk.go:135-225 | whatever came before, a metadata line whose last key announces a document, and the line behind it, execute exactly that document: under the given id or, missing or empty, a new one, in the named index or that of the path; no index is an error as the empty string and a panic if missing |
| `BulkServer.DeleteIsExecuted` | pkg/handlers/document/bulk.go:226-254 | a last key that deletes executes exactly that deletion in the named index or that of the path, with the same error and a panic without id or index |
| `BulkServer.OtherKeys` | pkg/handlers/document/bulk.go:204-211 | a key that holds no object is an error; an unknown key does nothing, or sends an announced document under a new id to the index of the path |
| `BulkServer.SkippedLines` | pkg/handlers/document/bulk.go:124-131 | lines that are no JSON are skipped everywhere, objects without keys where metadata is expected |
| `BulkServer.RequestsAreExecuted` | pkg/handlers/document/bulk.go:102-261 | reading back the lines written down for any sequence of requests gives exactly the operations asked for, in order |
| `Bulk.FilesInStep` | cmd/zinc-proxy/bulk.go:155-226 | parsing the lines filed under an index gives the body's operations on it, at every point of the body |
| `Bulk.ParseConcat` | pkg/handlers/document/bulk.go:124-261 | lines that leave the server waiting for metadata do not disturb those after them, whatever these are |
| `Bulk.NodeExecutesItsIndexes` | cmd/zinc-proxy/bulk.go:136-248 | whatever order of indexes a node is sent, with the awaited one last if any, it executes for each the body's operations in order and none for others |
| `Bulk.NodeExecutesExactlyIff` | cmd/zinc-proxy/bulk.go:136-248 | a node executes exactly the body's operations on its indexes if and only if no line follows the file of the index whose data the body leaves awaited |
| `Bulk.AwaitedDataIsSwallowed` | cmd/zinc-proxy/bulk.go:163-245 | a body that ends awaiting data, where one index's operation is lost and another gets a false document |
| `Bulk.MixedLineLeaks` | cmd/zinc-proxy/bulk.go:163-226 | in every body with one action per line before it, a line that removes from one index and announces to another makes the file of the second execute the removal |
| `BulkLoops.FileLines` | cmd/zinc-proxy/bulk.go:155-226 | the proxy's loop over its flag and its last metadata files lines, stops and panics as the line machine does, for every body |
| `BulkServer.RequestIsFiled` | cmd/zinc-proxy/bulk.go:163-226 | an announced document is filed with its metadata line under the named index or that of the path, a delete alone, and nothing else moves; the empty string without a path index is an error and a missing index a panic |
| `BulkServer.NotFiled` | cmd/zinc-proxy/bulk.go:175-182 | a key that holds no object is an error, and an unknown key is not filed |
| `BulkServer.GarbledIsNotFiled` | cmd/zinc-proxy/bulk.go:155-161 | lines that are no JSON are skipped |
| `BulkLoops.ProcessBody` | cmd/zinc-proxy/bulk.go:136-248 | each node is sent the files of exactly its indexes, one after another; an index without a node is an error |
| `Bulk.SplittingPreservesOperations` | cmd/zinc-proxy/bulk.go:136-248 | with one action per metadata line, every node executes exactly its indexes' operations if and only if at no node a line follows the file of an awaited index; every index with operations has its node |
| `Bulk.SplitsExactlyIfNamed` | cmd/zinc-proxy/bulk.go:171-226 | of all bodies the server accepts, the proxy splits exactly those in which every action names its index and no data line is orphaned, and panics on the others |
| `Bulk.UnnamedIndexPanics` | cmd/zinc-proxy/bulk.go:183-192 | a body without an index that the server accepts makes the proxy panic |
| `IvfPq.NextKeepsInv` | pkg/core/vec_index.go:413-513 | every interleaved step of batches, scans and seals keeps the current segment last and growing and pending seals behind it |
| `IvfPq.AddingIsNeverRefused` | pkg/core/ivfpq_segment.go:248-253 | in every run the current segment is the last and growing, so the non-growing error is unreachable |
| `IvfPq.SealedIndexMirrorsStore` | pkg/core/ivfpq_segment.go:280-306 | in every run a sealed segment's faiss index holds what its store holds, and counts are right |
| `IvfPq.DeleteStep` | pkg/core/vec_index.go:434-461 | a deletion step removes every copy of its ids from its segment and touches no other |
| `IvfPq.AddStep` | pkg/core/vec_index.go:481-513 | an adding step puts the vectors into the current segment and starts a new one exactly at the threshold |
| `IvfPq.SealStep` | pkg/core/ivfpq_segment.go:280-306 | a sealing step seals its segment unless it is empty, moves no vector and touches no other segment |
| `IvfPq.SealedWasFull` | pkg/core/vec_index.go:658-691 | in every run only segments that once were left behind with at least the threshold of vectors are sealed or waiting for it |
| `IvfPq.CountsAddUp` | pkg/core/vec_index.go:423-430 | the counts of the segments add up to the number of vectors in all stores together |
| `IvfPq.BatchedIds` | pkg/core/vec_index.go:413-432 | a batch takes every copy of the deleted ids out of the index and puts the added ones in, and the number of vectors changes accordingly |
| `IvfPq.BatchKeepsUnique` | pkg/core/vec_index.go:413-502 | after a batch ids are in one segment exactly if each added id was deleted in it or lived only in the current segment |
| `IvfPq.NewOrDeletedKeepsUnique` | pkg/core/vec_index.go:413-502 | in particular if each added id is new or deleted in the same batch |
| `IvfPq.RunsStayUniqueIff` | pkg/core/vec_index.go:413-502 | in every run of batches and seals from a fresh index ids stay in one segment throughout exactly if each added id is deleted in its batch or lives only in the current segment |
| `IvfPq.NewOrDeletedRunsStayUnique` | pkg/core/vec_index.go:413-502 | in particular in every run that adds only new ids or ids deleted in the same batch |
| `IvfPq.AddedAgain` | pkg/core/vec_index.go:413-502 | distinct ids that fill a segment, and one of them added again without being deleted: it lives in two segments |
| `IvfPq.IvfPqIndex.Batch` | pkg/core/vec_index.go:413-513 | deletions reach every segment, additions the current one, a new segment starts exactly at the threshold; the count is always the number of vectors in all segments, less every copy of a deleted id and more by the number added |
| `IvfPq.IvfPqIndex.SealSeg` | pkg/core/vec_index.go:658-691 | exactly the segments left behind with at least the threshold are sealed, unless empty; all others stay as they are and no id moves |
| `DateHistogram.KeyOfKey` | pkg/bluge/aggregation/auto_date_histogram.go:308-322 | cutting a key down again at a multiple of its interval is cutting the instant down at once, also before the epoch |
| `DateHistogram.IntervalsDivide` | pkg/bluge/aggregation/auto_date_histogram.go:98-122 | each fixed-width interval divides every later one |
| `DateHistogram.Pass` | pkg/bluge/aggregation/auto_date_histogram.go:249-261 | the loop over a map it changes, keys put in on the way visited again or not, computes the specified pass |
| `DateHistogram.PassIsBucketed` | pkg/bluge/aggregation/auto_date_histogram.go:249-261 | a pass in any order that visits every key there was gives the buckets of the coarser interval |
| `DateHistogram.FinerIsCoherent` | pkg/bluge/aggregation/auto_date_histogram.go:211-224 | buckets of any finer interval are a proper start for a pass at any coarser one |
| `DateHistogram.NothingIsLost` | pkg/bluge/aggregation/auto_date_histogram.go:249-261 | at every point of a pass the buckets hold every instant once, so counts add up to their number |
| `DateHistogram.AutoDateHistogramCalculator.ConsumeDocument` | pkg/bluge/aggregation/auto_date_histogram.go:147-168 | consuming adds exactly the document's dates to their buckets, widens the bounds to them and makes no other bucket |
| `DateHistogram.Replenish` | pkg/bluge/aggregation/auto_date_histogram.go:235-243 | the replenishing loop adds empty buckets only, at the steps of the range seen, until none is missing, and nothing if none was |
| `DateHistogram.NoneToSpare` | pkg/bluge/aggregation/auto_date_histogram.go:147-262 | buckets within the range seen, each instant in its own, include none that direct bucketing with none missing could do without |
| `DateHistogram.AutoDateHistogramCalculator.NoBucketTooMany` | pkg/bluge/aggregation/auto_date_histogram.go:147-262 | so a valid calculator has no bucket too many |
| `DateHistogram.CannotHaveFewer` | pkg/bluge/aggregation/auto_date_histogram.go:245-248 | if a calculator has more than size buckets at an interval, so has every bucketing of its instants there with none missing |
| `DateHistogram.StartInterval` | pkg/bluge/aggregation/auto_date_histogram.go:227-230 | the interval Finish starts with is the first from the current one on at which the configured number of buckets spans the range, or the last |
| `DateHistogram.AutoDateHistogramCalculator.ChooseInterval` | pkg/bluge/aggregation/auto_date_histogram.go:227-230 | the first loop of Finish ends at that interval and leaves the buckets, which are then ready for a pass but perhaps not at their keys |
| `DateHistogram.NearIsSoundIff` | pkg/bluge/aggregation/auto_date_histogram.go:226-248 | buckets of a finer interval are right at a coarser one without a pass exactly if their keys are multiples of it |
| `DateHistogram.AutoDateHistogramCalculator.Round` | pkg/bluge/aggregation/auto_date_histogram.go:232-262 | one round adds what is missing if there are few, and moves on exactly if that makes more than size and there is a coarser interval; moving on puts every instant into its bucket |
| `DateHistogram.AutoDateHistogramCalculator.Finish` | pkg/bluge/aggregation/auto_date_histogram.go:226-262 | every instant ends in the bucket of its key exactly if the interval need not be raised for the range, or there are more than size buckets then, or the keys are multiples of the raised interval; it stops when few enough and none missing, or at a week; at every interval passed over after the one it started with, and at that too if it was not raised, any bucketing with none missing has more than size buckets; a finished calculator stays as it is |
| `DateHistogram.MergeBuckets` | pkg/bluge/aggregation/auto_date_histogram.go:175-205 | the loop over the other calculator's buckets adds them bucket by bucket and raises interval and bounds only for one that was not found |
| `DateHistogram.MergedIsBucketedIff` | pkg/bluge/aggregation/auto_date_histogram.go:170-225 | after a merge and its pass every instant is in its bucket exactly if the other interval was not coarser, or a bucket was not found, or the other's instants have the same key at both intervals |
| `DateHistogram.AutoDateHistogramCalculator.Merge` | pkg/bluge/aggregation/auto_date_histogram.go:170-209 | merging finished calculators leaves every instant in its bucket exactly if it does before the final Finish, under that condition, and Finish settles the merged buckets; the bounds widen just for the buckets not found; Finish stops at the first interval that fits; where the merge misplaces, Finish changes nothing; totals and instants are those of both |
| `DateHistogram.CoarseIntoFineMisplaces` | pkg/bluge/aggregation/auto_date_histogram.go:170-209 | calculators of one and of two instants, consumed, finished and merged as the code does: an instant ends in the wrong bucket |
| `DateHistogram.RaisedIntervalMisplaces` | pkg/bluge/aggregation/auto_date_histogram.go:226-262 | instants of the first and the 3000th second, consumed and finished with room for 700 buckets as the code does: one ends beside the bucket it belongs to |

## Left out

- bluge, usearch, faiss, the object store, the metadata store and the log file are modelled by what they promise; `container/heap`, `sort.Slice` and `rand.Shuffle` by any result their contract allows.
- Float rounding and quantisation: distances and scores are real numbers, and vectors are exact.
- Machine crashes that lose unsynced log writes; crashes are of the process, with writes retained.
- Partial effects of a merged write that fails half way: the consumer records complete writes only.
- WalMerge.WriteToShard: leaves out write errors, and the branch that deletes from all older shards, which is reached only for the shard number -2 that no write path logs.
- WalShard.IndexShard.Rollback: does not carry the stores; what the rollback write does to them is `WalRollback.WriteToRollback` and `WalRollback.ConsumedTwiceIff`.
- Batches in which entries on one document name two different numbered shards, logged while it lived in one and, deleted and created again, later in the other.
- Index objects and vector index objects are numbered in the machines; waiting is an event that may happen once its condition holds, so progress in time is not stated.
- Time-range pruning, non-zero From and custom sorting across nodes, MaxScore and Took of a response, and search errors on a node.
- Metadata lines with several known actions: keys are visited in a random order by server, proxy and node, and the exact conditions are for one known action per line; of the others only `Bulk.MixedLineLeaks` is stated.
- Metadata values of a bulk line that are not strings, the response items, the mode without a log and limits on line length.
- Calendar buckets, so that the list of intervals ends at a week; time zones, and formats that do not write an instant in full.
- HnswSegment.Segment.BuildHNSW: is about a rebuild that no writer comes into; with writers in between its phases are the machine's steps, and what they keep is `HnswSafety.RebuildKeepsView`.
- Loading IVFPQ segments from storage, searching them, and faults while a segment is written or sealed.
- Access control, templates, aliases, upgrades, HTTP plumbing, the file cache and throttling.
