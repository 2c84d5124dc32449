# BusTub in Dafny

A model of the parts of BusTub that are hard to get right, with proofs of what they promise:

* **the transaction engine** (`Undo`, `Watermark`, `Chain`, `Mvcc*`, `TransactionManager`, `Certificates`): multi-version rows whose old
  versions are column deltas in the undo buffers of the transactions that wrote them; begin, edit, insert, validation,
  commit, abort and garbage collection;
* **the primary-key index** over that engine (`PkIndex`, `PkTheorems`, `PkViews`, `IndexedTable`) with the executors that
  use it (`ScanExecutors`, `UpdateExecutor`, `DeleteExecutor`);
* **the buffer pool** with its ARC replacer (`Arc*`, `Pool*`, `PageStore`, `BufferPool`);
* **the joins and the optimizer** (`Bags`, `Joins`, `JoinExecutors`, `RowExecutors`, `Plans`, `PlanMeaning`,
  `Optimizer`, `OptimizerEffects`), and the
  engine that runs a whole plan over the tables of a catalog (`Engine`).

`Sql` holds SQL values, three-valued logic and expressions, `SqlMeaning` what they evaluate to; `Sets` and `Bags` are small helpers.

## How the model is built

The transaction engine and the buffer pool are step systems. One step is what one thread does under one page latch, the
transaction map's mutex or the pool latch, and a run is any sequence of enabled steps of any number of transactions or
guards. `Commit` and `Abort` are one step per row plus a final step. The specification sits beside the program's state: the
committed history of each row, the sequence of commits, the logical contents of each page. An invariant (`Mvcc.Inv`,
`PkIndex.PkInv`, `Pool.Inv`, `Arc.Inv`) is proved for the initial state and for every step; the theorems follow from it and
so hold in every reachable state of every run.

The classes (`TransactionManager`, `Watermark`, `ArcReplacer`, `BufferPoolManager`, `IndexedTable`, the executors) are the
program in its own imperative form. Their methods are proved to take exactly the steps of the step system, or, for the
batch-at-a-time executors, to pay out the front of the sequence they still owe. Between two batches of a scan, between the
edits of an update, between two deletions and between the parts of an insertion, any run of other transactions may take
place (`IndexedTable.Yield`, and `Catalog.Yield` over all tables); what the executors promise holds of all such runs.

Rows are sequences of values, the heap a map from record ids to slots, the disk a map from page ids to bytes. Clocks,
randomness and I/O do not occur; which free slot or which rows of a set come next is left open where the program leaves it
open to a hash map's order. Child executors hand out their rows in non-empty batches of any size.

## Where the code does less than it promises

The model follows the code. Three properties one would expect are false of it. Each has a witness and its exact
condition:

* **Flushing under a writer.** A write guard marks its frame dirty only when it is constructed. Flushing the page while
  the guard is held, through the guard or through `FlushPageUnsafe`, clears the mark, and a later write through the same
  guard can be lost on eviction (`FlushUnderWriterLosesWrite`). A page is lost exactly when its frame is evicted clean
  with bytes that are not the disk's (`EvictLogical`), and a run is that of a plain page store exactly when it has no
  such eviction (`PageStoreExactly`). It is enough that every write finds its frame dirty (`RefinesPageStore`), and for
  that, that nobody flushes a page while a write guard is latched on it (`DisciplinedIsCareful`).
* **Dropping a guard** gives up the pin before it takes the pool latch. A `DeletePage` in between finds an unpinned
  frame that is not evictable yet, and the replacer's assertion fires (`DeleteDuringDepartureCrashes`; exactly when:
  `DeleteAsserts`). A fetch in between can fail although no frame is pinned (`FetchFailsUnpinned`; exactly when:
  `FetchFailsExactly`).
* **Merging a filter into a left join** on constant true changes the result (`LeftJoinFilterMergedWrongly`; exactly
  when: `MergeFilterExact` for given tables, `MergeFilterAlways` for all). No query reaches such a plan: a boolean
  constant is parsed as a cast, which the binder rejects, and the planner's own joins on true are inner.

Aborting is a no-op for everybody who does not collide with the transaction: a transaction that tries to edit one of its
uncommitted rows is tainted, and stays so after the abort. `AbortIsNoOp` states what is the same, collisions included.

## Model

| member | source | states |
|---|---|---|
| Undo.GenerateNewUndoLog | bustub-master/src/execution/execution_common.cpp:147-176 | the log a first edit writes: the changed columns packed in order, all columns of a deleted row, none under a fresh insert |
| Undo.GenerateUpdatedUndoLog | bustub-master/src/execution/execution_common.cpp:178-209 | the log after a later edit: columns already carried keep their values, newly changed ones are added, a deletion adds the rest |
| Undo.NewLogRestores | bustub-master/src/execution/execution_common.cpp:147-176 | applying the first log to the edited row gives the original back; over a deletion the log is full |
| Undo.UpdatedLogRestores | bustub-master/src/execution/execution_common.cpp:178-209 | a log that led back to the original still does after the next edit |
| Undo.EditsRoundTrip | bustub-master/src/execution/execution_common.cpp:178-209 | for any sequence of edits by one transaction, its single log applied to the current row gives the original row, and is full whenever the row is deleted |
| Undo.FirstEditRoundTrip | bustub-master/src/execution/execution_common.cpp:147-209 | the same from the very first edit on |
| Undo.NewLogCarries | bustub-master/src/execution/execution_common.cpp:147-176 | the first log carries a column if and only if the edit changed it or deleted the row, and over a deletion none |
| Undo.EditsCarry | bustub-master/src/execution/execution_common.cpp:178-209 | after any edits the one log carries a column if and only if it did before or one of the edits changed it or deleted the row |
| Undo.ReconstructTuple | bustub-master/src/execution/execution_common.cpp:78-105 | folds the logs over the base row, front first; a final tombstone means no row |
| Watermarks.Watermark.AddTxn | bustub-master/src/concurrency/watermark.cpp:19-27 | refuses a read timestamp below the commit timestamp; else counts it and keeps the minimum |
| Watermarks.Watermark.RemoveTxn | bustub-master/src/concurrency/watermark.cpp:29-39 | forgets one reader and keeps the minimum, or the commit timestamp when none is left |
| Watermarks.Watermark.GetWatermark | bustub-master/src/include/concurrency/watermark.h:39-44 | the least read timestamp in the multiset, or the commit timestamp when it is empty |
| Chain.AsOfIsNewest | bustub-master/src/execution/execution_common.cpp:119-134 | the specification of a read: the version with the greatest timestamp at or below the snapshot |
| Chain.ReadIsAsOf | bustub-master/src/execution/execution_common.cpp:78-134 | collecting and applying logs on a chain that stands for a history gives that version, and never a missing log or an endless walk |
| Chain.ChainDecreases | bustub-master/src/execution/execution_common.cpp:125-132 | timestamps strictly decrease along a link: the measure of every walk |
| Chain.TombstoneBytes | bustub-master/src/concurrency/transaction_manager.cpp:186-188 | the bytes left behind a restored tombstone matter to no reader |
| Chain.CollectKeepsChain | bustub-master/src/concurrency/transaction_manager.cpp:206-225 | dropping the buffers a collection does not find needed leaves the chain standing for the same history from the watermark up |
| Chain.UnchangedIsUnchangedSince | bustub-master/src/concurrency/transaction_manager.cpp:93-114 | the validation walk over a chain decides exactly whether a committed change since the snapshot matches a scan, before or after the change |
| Chain.UnchangedMatches | bustub-master/src/concurrency/transaction_manager.cpp:96-113 | a row that passes shows every scan the same match at the snapshot and at any later time |
| MvccEdit.AbortUndoesEdits | bustub-master/src/concurrency/transaction_manager.cpp:174-194 | any sequence of edits by one transaction followed by its abort of the row restores timestamp, deletion flag, link and visible row |
| MvccRuns.StepInv | bustub-master/src/concurrency/transaction_manager.cpp:45-246 | every step of every transaction and every collection keeps the whole invariant: ownership, chains against histories, watermark counts, validation evidence, commit sequence |
| MvccRuns.RunInv | bustub-master/src/concurrency/transaction_manager.cpp:45-246 | the invariant holds in every state of every run |
| MvccTheorems.ReadAt | bustub-master/src/execution/execution_common.cpp:119-134 | a read at any timestamp from the last collection's watermark up is the committed row as of it |
| MvccTheorems.SnapshotRead | bustub-master/src/execution/execution_common.cpp:119-134 | a live transaction sees its own version of a row, or else exactly the committed version its snapshot selects; never a missing log |
| MvccTheorems.SnapshotIsReplay | bustub-master/src/concurrency/transaction_manager.cpp:141-161 | the snapshot at r is the state after replaying the first r commits, whole and in order |
| MvccTheorems.RepeatableRead | bustub-master/src/execution/execution_common.cpp:119-134 | over any run in between, a live transaction reads the same row again |
| MvccTheorems.NoLostUpdate | bustub-master/src/execution/execution_common.cpp:221-224 | of two commits that wrote one row, the later one's snapshot includes the earlier one |
| MvccTheorems.AbortRowRestores | bustub-master/src/concurrency/transaction_manager.cpp:176-193 | taking one row back puts the newest committed version back for every reader and touches no other row |
| MvccTheorems.AbortLeavesNothing | bustub-master/src/concurrency/transaction_manager.cpp:169-199 | an aborted transaction is on no row, in no history and behind no commit |
| MvccAbort.AbortIsNoOp | bustub-master/src/concurrency/transaction_manager.cpp:169-199 | a run in which a transaction aborts, against the same run with its edits, insertions and row-aborts taken out: the second is a run too, and leaves the same commits and histories, the same records of all others (but for the taint of having run into one of its rows), and the same view of every row to every running transaction |
| MvccAbort.OthersTakeTheirSteps | bustub-master/src/concurrency/transaction_manager.cpp:169-199 | if nobody runs into an uncommitted row of the aborted transaction, the others' steps in the two runs are the same, in the same order |
| MvccTheorems.VersionChains | bustub-master/src/execution/execution_common.cpp:122-133 | every chain strictly descends, and an uncommitted row links to nothing or into its own writer's buffer |
| MvccTheorems.WatermarkIsLeast | bustub-master/src/concurrency/transaction_manager.cpp:52-54 | the watermark is the minimum of the live snapshots, or the last commit when nobody is live |
| MvccTheorems.WatermarkMonotone | bustub-master/src/concurrency/transaction_manager.cpp:153-160 | no step moves the watermark back |
| MvccTheorems.CommitInvisibleUntilPublished | bustub-master/src/concurrency/transaction_manager.cpp:141-156 | while rows are being stamped every one of them is above every snapshot; at publication all are stamped |
| MvccTheorems.CollectionKeepsReads | bustub-master/src/concurrency/transaction_manager.cpp:203-246 | a collection changes no read of a live transaction or of any that begins later |
| MvccTheorems.CollectionKeepsVerdicts | bustub-master/src/concurrency/transaction_manager.cpp:227-245 | nor any verdict that validation would give a live serializable transaction |
| MvccTheorems.SerializableInCommitOrder | bustub-master/src/concurrency/transaction_manager.cpp:60-139 | replaying the commits in order, every scan of an accepted serializable writer selects just before its turn what it selected at its snapshot |
| Certificates.ScansSelectSame | bustub-master/src/concurrency/transaction_manager.cpp:60-139 | each recorded scan of an accepted serializable writer returns, after replaying the commits before its own, the rows it returns in the writer's snapshot |
| Certificates.RecordReachesCommit | bustub-master/src/include/concurrency/transaction.h:142-145 | whatever happens after a scan has been recorded, the transaction's commit answers for it, under the transaction's snapshot and isolation level |
| Certificates.ViewIsReplay | bustub-master/src/execution/execution_common.cpp:119-134 | what a transaction sees of a row it has not written is the replay of the commits up to its snapshot |
| MvccExact.EditExactly | bustub-master/src/execution/execution_common.cpp:216-241 | an edit goes through if and only if the row is the transaction's own, or nobody's uncommitted version is on it and its newest committed version lies in the snapshot (and, where a deleted row is asked for, the transaction sees nothing there); else it only taints |
| MvccExact.VerdictExactly | bustub-master/src/concurrency/transaction_manager.cpp:93-114 | validation of a row fails if and only if a commit after the snapshot wrote it and a recorded scan selects it just before or just after that commit |
| MvccExact.CollectsExactly | bustub-master/src/concurrency/transaction_manager.cpp:203-246 | a finished transaction survives a collection if and only if, without its undo buffer, some reader at or above the watermark would read some row differently, or it committed after the snapshot of a live serializable transaction |
| MvccExact.CollectsAll | bustub-master/src/concurrency/transaction_manager.cpp:203-246 | when nobody is live, a collection leaves no transaction and no undo buffer |
| MvccStale.RunKeepsCopy | bustub-master/src/execution/execution_common.cpp:228-239 | a reader's old copy of row, metadata and link still leads to the same committed versions while writers replace logs in place, commit or abort |
| MvccStale.InFlightRead | bustub-master/src/execution/execution_common.cpp:119-134 | a read that fetches one log at a time, with arbitrary runs between the fetches, ends within as many fetches as the row has versions and returns the snapshot's row |
| TransactionManagers.CollectUndoLogs | bustub-master/src/execution/execution_common.cpp:119-134 | returns none exactly when the row did not exist for the reader; else logs whose reconstruction is the read |
| TransactionManagers.RowUnchanged | bustub-master/src/concurrency/transaction_manager.cpp:93-114 | the loop over one row's versions decides the validation verdict |
| TransactionManagers.ChainNeeds | bustub-master/src/concurrency/transaction_manager.cpp:209-223 | the loop over one row's links finds the buffers its readers may need |
| TransactionManagers.CollectChangedRows | bustub-master/src/concurrency/transaction_manager.cpp:64-77 | the rows that commits after the snapshot wrote in scanned tables |
| TransactionManagers.SerialReadTs | bustub-master/src/concurrency/transaction_manager.cpp:228-235 | the least snapshot of the live serializable transactions |
| TransactionManagers.EraseFinished | bustub-master/src/concurrency/transaction_manager.cpp:236-245 | keeps exactly the live transactions, those needed, and those committed after the least snapshot of a live serializable one |
| TransactionManagers.TransactionManager.Begin | bustub-master/src/concurrency/transaction_manager.cpp:45-56 | a fresh id, the isolation level asked for, the last commit as snapshot, no writes and no scans, one more reader in the watermark |
| TransactionManagers.TransactionManager.ModifyTuple | bustub-master/src/execution/execution_common.cpp:216-241 | goes through if and only if the row is the transaction's own or its newest version is committed in the snapshot (and shows nothing, where a deleted row is asked for), leaving the target in place; else it taints and changes no row |
| TransactionManagers.TransactionManager.InsertTuple | bustub-master/src/execution/execution_common.cpp:255-259 | a new slot with the temporary timestamp, in the write set |
| TransactionManagers.TransactionManager.ReadTuple | bustub-master/src/execution/execution_common.cpp:78-134 | the row the transaction may see |
| TransactionManagers.TransactionManager.VerifyTxn | bustub-master/src/concurrency/transaction_manager.cpp:60-117 | accepts if and only if none of the rows to check was written after the snapshot by a commit that one of the scans selects before or after; the rows are visited in any order |
| MvccStale.InFlightVerdict | bustub-master/src/concurrency/transaction_manager.cpp:93-114 | checking a row log by log, with arbitrary runs between the fetches, gives the verdict the whole walk has at the moment of the copy, within as many fetches as the row has versions |
| TransactionManagers.TransactionManager.Commit | bustub-master/src/concurrency/transaction_manager.cpp:124-163 | refused if not running; aborted, leaving no trace, if and only if it is a serializable writer and some commit after its snapshot wrote a row that one of its scans selects before or after; else its writes become the next commit, whole |
| TransactionManagers.TransactionManager.Abort | bustub-master/src/concurrency/transaction_manager.cpp:169-199 | refused unless running or tainted; else a run of per-row steps that leaves histories and commits as they were |
| TransactionManagers.TransactionManager.GarbageCollection | bustub-master/src/concurrency/transaction_manager.cpp:203-246 | the loops compute the collection step |
| Arc.ArcBounds | bustub-master/src/buffer/arc_replacer.cpp:47-296 | in every run of a new replacer the four lists are free of repetitions and agree with both maps, MRU with its ghosts holds at most c, all lists at most 2c, the target is between 0 and c, and the size counts the evictable frames |
| Arc.TrimFindsGhost | bustub-master/src/buffer/arc_replacer.cpp:198-209 | at equality the list to be trimmed has a ghost, by the pigeonhole principle on frame ids |
| Arc.EvictSpec | bustub-master/src/buffer/arc_replacer.cpp:47-117 | none exactly when no frame is evictable; else the least recent evictable frame of the chosen list |
| Arc.EvictPrefers | bustub-master/src/buffer/arc_replacer.cpp:99-116 | the MRU list is tried first exactly when it has reached the target, and gives up a frame whenever it can |
| ArcRecency.EvictsLeastRecent | bustub-master/src/buffer/arc_replacer.cpp:47-117 | in every run the frame given up is, by time of last access, the least recent evictable one on its side |
| ArcFrequency.PromotedBySecondAccess | bustub-master/src/buffer/arc_replacer.cpp:149-220 | in every run a frame in memory is on the MRU side if and only if its page came in by a complete miss and has been accessed once since; on the MFU side if it came back from a ghost list or has been accessed again |
| ArcFrequency.FrequentFrameStays | bustub-master/src/buffer/arc_replacer.cpp:149-166 | a concrete run: of a frame accessed twice and a later one accessed once, the later one goes first |
| ArcFrequency.RememberedOnItsSide | bustub-master/src/buffer/arc_replacer.cpp:47-117 | in every run a remembered page lies in the ghost list of the side it was evicted from |
| ArcFrequency.ForgetsOnlyWhenFull | bustub-master/src/buffer/arc_replacer.cpp:196-209 | an access forgets exactly the page itself if it was remembered, or on a complete miss the last of a full MRU side, else the last of the MFU side when both are full; nothing else |
| ArcRecency.ForgetsOldestGhost | bustub-master/src/buffer/arc_replacer.cpp:197-209 | in every run a page forgotten on a miss was evicted before every other page remembered on its side |
| Arc.AccessInv | bustub-master/src/buffer/arc_replacer.cpp:148-215 | an access keeps the invariant on a hit, on either ghost hit and on a miss |
| BufferPool.ArcReplacer.Evict | bustub-master/src/buffer/arc_replacer.cpp:47-117 | the search from the back of the lists finds the specified victim and turns it into a ghost |
| BufferPool.ArcReplacer.RecordAccess | bustub-master/src/buffer/arc_replacer.cpp:148-215 | hit, ghost hit with adaptation, or miss with trimming |
| BufferPool.ArcReplacer.SetEvictable | bustub-master/src/buffer/arc_replacer.cpp:234-258 | flips the flag and the count, or does nothing |
| BufferPool.ArcReplacer.Remove | bustub-master/src/buffer/arc_replacer.cpp:276-296 | takes an evictable frame out of its list and map, without a ghost |
| PoolInv.StepInv | bustub-master/src/buffer/buffer_pool_manager.cpp:143-359 | page table and frame map are mutual inverses, free and resident frames partition the pool, the replacer tracks exactly the resident frames, pins count the guards, and only unpinned frames are evictable: every step keeps this |
| PoolTheorems.RunInv | bustub-master/src/buffer/buffer_pool_manager.cpp:143-359 | and so every run |
| PoolTheorems.FetchFailsExactly | bustub-master/src/buffer/buffer_pool_manager.cpp:223-232 | a checked fetch returns nothing if and only if the page is absent, no frame is free and no resident frame is evictable |
| PoolTheorems.FetchFailsWhen | bustub-master/src/buffer/buffer_pool_manager.cpp:223-232 | in terms of pins: when it fails, each resident frame is pinned or has a guard that is still leaving; when all are pinned, it fails |
| PoolTheorems.FetchFailsUnpinned | bustub-master/src/storage/page/page_guard.cpp:156-171 | a concrete run after which a fetch fails although the only frame is not pinned |
| PoolTheorems.FetchResult | bustub-master/src/buffer/buffer_pool_manager.cpp:207-270 | a fetch that succeeds leaves its page resident and pinned; one that fails changes nothing |
| PoolMoves.FetchResident | bustub-master/src/buffer/buffer_pool_manager.cpp:210-219 | fetching a resident page adds one pin and moves nothing |
| PoolMoves.FetchIntoFree | bustub-master/src/buffer/buffer_pool_manager.cpp:220-270 | while a frame is free, an absent page is read into it and no page leaves |
| PoolMoves.FetchEvicts | bustub-master/src/buffer/buffer_pool_manager.cpp:225-270 | with no free frame exactly one page leaves, the replacer's victim, from an unpinned frame; it is written back if and only if it is dirty |
| PoolMoves.StepReplacer | bustub-master/src/buffer/buffer_pool_manager.cpp:143-517 | every step of the pool is a run of the replacer that sees each fetch as one access and nothing else as an access |
| PoolMoves.PoolEvictsByRecencyAndFrequency | bustub-master/src/buffer/buffer_pool_manager.cpp:207-270 | so in every run of a new pool the page pushed out is the least recently fetched evictable one on its side, and a frame on the MRU side has been fetched once |
| PoolMoves.FlushWrites | bustub-master/src/buffer/buffer_pool_manager.cpp:430-477 | a flush writes a dirty frame's bytes and clears its mark, and changes nothing else |
| PoolMoves.DeleteFrees | bustub-master/src/buffer/buffer_pool_manager.cpp:143-167 | a deletion leaves a pinned page alone, else empties the frame into the free list and drops the page from disk |
| PoolTheorems.PinnedStays | bustub-master/src/buffer/buffer_pool_manager.cpp:207-359 | as long as a guard holds its pin its page stays in its frame |
| PageStore.EvictLogical | bustub-master/src/buffer/buffer_pool_manager.cpp:234-251 | pushing a page out of its frame keeps what the page holds if and only if the frame is dirty or holds the disk's bytes |
| PageStore.StepLogical | bustub-master/src/buffer/buffer_pool_manager.cpp:143-517 | every step does to every page what it does to a plain page store, if and only if it is not an eviction that drops the page's unwritten bytes |
| PageStore.PageStoreExactly | bustub-master/src/buffer/buffer_pool_manager.cpp:143-517 | over any run, a page holds what the plain page store holds in every state if and only if no eviction of the run drops unwritten bytes of a clean frame |
| PageStore.RefinesPageStore | bustub-master/src/buffer/buffer_pool_manager.cpp:143-517 | so it does in every run in which each write finds its frame dirty or changes no byte; clean frames then equal the disk |
| PageStore.DisciplinedIsCareful | bustub-master/src/storage/page/page_guard.cpp:193-206 | and every run is such a run in which no page is flushed while a write guard is latched on it |
| PageStore.PoolIsPageStore | bustub-master/src/buffer/buffer_pool_manager.cpp:143-517 | so from a new pool on, whatever is fetched, evicted, flushed or deleted, a page holds what it would hold in a plain page store that starts with the disk |
| PageStore.WriteClean | bustub-master/src/storage/page/page_guard.cpp:193-206 | one write keeps clean frames equal to the disk if and only if its frame is dirty or the bytes do not change |
| PageStore.FlushUnderWriterLosesWrite | bustub-master/src/storage/page/page_guard.cpp:300-311 | a concrete run: flush through a write guard, write again, drop, evict; the second write is gone |
| PoolTheorems.DeleteDuringDepartureCrashes | bustub-master/src/storage/page/page_guard.cpp:323-339 | a concrete run: a deletion between the two halves of a guard's drop hits the replacer's assertion |
| BufferPool.BufferPoolManager.CheckedFetch | bustub-master/src/buffer/buffer_pool_manager.cpp:207-270 | the shared body of the read and the write fetch: the fetch step, and whether it succeeded |
| BufferPool.BufferPoolManager.DeletePage | bustub-master/src/buffer/buffer_pool_manager.cpp:143-167 | refused exactly when pinned; else the deletion step, or the assertion |
| BufferPool.BufferPoolManager.FlushPage | bustub-master/src/buffer/buffer_pool_manager.cpp:430-476 | writes the frame back if dirty; false exactly when the page is not resident |
| BufferPool.BufferPoolManager.FlushAllPages | bustub-master/src/buffer/buffer_pool_manager.cpp:492-517 | a sequence of single flushes after which every resident frame is clean |
| BufferPool.BufferPoolManager.UnpinGuard | bustub-master/src/storage/page/page_guard.cpp:156-164 | first half of a drop |
| BufferPool.BufferPoolManager.LeaveGuard | bustub-master/src/storage/page/page_guard.cpp:165-171 | second half of a drop |
| BufferPool.BufferPoolManager.WriteThroughGuard | bustub-master/src/storage/page/page_guard.cpp:193-206 | a write changes the bytes of the frame and marks nothing |
| BufferPool.BufferPoolManager.LatchGuard | bustub-master/src/storage/page/page_guard.cpp:193-206 | the latch, and the dirty mark of a write guard |
| SqlMeaning.IntComparison | bustub-master/src/include/execution/expressions/comparison_expression.h:63-80 | each comparison of two integers is what the integers' order says |
| SqlMeaning.ColumnComparison | bustub-master/src/include/execution/expressions/comparison_expression.h:63-80 | so a row passes a comparison of its column with a constant if and only if the column holds an integer that stands so to it; NULL does not pass |
| SqlMeaning.BoolComparison | bustub-master/src/type/boolean_type.cpp:41-90 | false is less than true |
| SqlMeaning.TextComparison | bustub-master/src/include/type/type_util.h:31-44 | texts compare by the first character where they differ, a proper prefix first |
| SqlMeaning.LogicMeaning | bustub-master/src/include/execution/expressions/logic_expression.h:83-110 | three-valued conjunction and disjunction, exactly |
| SqlMeaning.ArithMeaning | bustub-master/src/include/execution/expressions/arithmetic_expression.h:81-95 | sums and differences are exact where they fit; else they wrap at 32 bits, and the least integer is NULL |
| Joins.JoinedRows | bustub-master/src/execution/nested_loop_join_executor.cpp:88-138 | the rows of a join: the matching pairs, and for a left join the unmatched left rows with NULLs |
| PlanMeaning.JoinedCount | bustub-master/src/execution/nested_loop_join_executor.cpp:88-138 | how often: once for each pair that makes the row, and once for each partnerless left row of a left join that padded makes it |
| PlanMeaning.ScannedCount | bustub-master/src/execution/seq_scan_executor.cpp:42-79 | a scan returns a row once for each slot that shows it if there is no filter or the filter is true of it, else never |
| PlanMeaning.FilteredCount | bustub-master/src/execution/filter_executor.cpp:42-101 | a filter keeps a row, as often as it comes in, if and only if its condition is true of it |
| PlanMeaning.ProjectedRows | bustub-master/src/execution/projection_executor.cpp:40-103 | a projection gives one row for each, in order, with the value of each expression in its column |
| Joins.ExtractedMatch | bustub-master/src/optimizer/nlj_as_hash_join.cpp:38-67 | keys taken from a conjunction match exactly where the conjunction is true, NULLs included |
| Joins.HashJoinIsNestedLoopJoin | bustub-master/src/optimizer/nlj_as_hash_join.cpp:73-94 | for every accepted predicate, joining on the keys gives the same rows in the same order |
| Joins.JoinedBag | bustub-master/src/execution/nested_loop_join_executor.cpp:88-138 | the bag of a join depends only on the bags of its inputs |
| JoinExecutors.NestedLoopJoinExecutor.FetchNextRightTuple | bustub-master/src/execution/nested_loop_join_executor.cpp:52-60 | the next right row over any batching, none exactly at the end |
| JoinExecutors.NestedLoopJoinExecutor.Next | bustub-master/src/execution/nested_loop_join_executor.cpp:88-138 | pays the front of what the join still owes, as many rows as asked for or all that is left |
| JoinExecutors.NestedLoopJoinExecutor.Poll | bustub-master/src/execution/nested_loop_join_executor.cpp:43-138 | polled with any positive batch sizes over any child batchings, the concatenation is the join |
| JoinExecutors.BuildJoinTuple | bustub-master/src/execution/nested_loop_join_executor.cpp:62-78 | left columns, then right columns or NULLs |
| JoinExecutors.AddStored | bustub-master/src/execution/hash_join_executor.cpp:46-54 | a row added to the table is found under the keys equal to its own and no others; a NULL key never again |
| JoinExecutors.BuiltRows | bustub-master/src/execution/hash_join_executor.cpp:41-60 | after the build phase every key leads to exactly the right rows with an equal key, in order, whatever the hash function |
| JoinExecutors.HashJoinExecutor.Init | bustub-master/src/execution/hash_join_executor.cpp:41-60 | after the build phase the executor owes the whole join |
| JoinExecutors.HashJoinExecutor.Next | bustub-master/src/execution/hash_join_executor.cpp:98-137 | pays the front of what the join still owes |
| JoinExecutors.HashJoinExecutor.Poll | bustub-master/src/execution/hash_join_executor.cpp:41-137 | polled with any positive batch sizes over any child batchings, the concatenation is the join on the keys |
| JoinExecutors.BothJoins | bustub-master/src/optimizer/nlj_as_hash_join.cpp:38-94 | both executors emit the same sequence, the join on the predicate |
| Optimizer.RewriteDefined | bustub-master/src/optimizer/merge_filter_nlj.cpp:39-61 | the rewrite goes through exactly on expressions over columns of the joined row |
| Optimizer.RewriteMeaning | bustub-master/src/optimizer/merge_filter_nlj.cpp:39-61 | the rewritten expression over (l, r) has the value of the original over l ++ r |
| Optimizer.MergeFilterExact | bustub-master/src/optimizer/merge_filter_nlj.cpp:76-102 | moving a filter into a join on constant true is right, as a sequence and as a bag, if and only if no left row is dropped by the filter and padded back by the join |
| Optimizer.MergeFilterAlways | bustub-master/src/optimizer/merge_filter_nlj.cpp:76-102 | it is right for all inputs if and only if the join is inner or the filter is true of every joined row |
| Optimizer.MergeFilterThrows | bustub-master/src/optimizer/merge_filter_nlj.cpp:39-69 | the rule throws if and only if the constant cannot be cast to a boolean, or is true and the filter names a column that is not there |
| Optimizer.LeftJoinFilterMergedWrongly | bustub-master/src/optimizer/merge_filter_nlj.cpp:90-97 | a left join on true, built by hand, whose result the rule changes |
| Optimizer.MergeProjectionSound | bustub-master/src/optimizer/merge_projection.cpp:28-70 | dropping a projection that copies its input keeps the rows |
| Optimizer.MergeFilterScanSound | bustub-master/src/optimizer/merge_filter_scan.cpp:27-51 | a filter moved into a scan keeps the rows |
| Optimizer.NLJAsHashJoinSound | bustub-master/src/optimizer/nlj_as_hash_join.cpp:73-94 | a nested-loop join turned into a hash join keeps the rows |
| Optimizer.KeysMeaning | bustub-master/src/optimizer/seqscan_as_indexscan.cpp:35-75 | the collected constants are exactly the column values for which the filter is true |
| Optimizer.IndexScanIsSeqScan | bustub-master/src/optimizer/seqscan_as_indexscan.cpp:80-107 | looking keys up, each slot once, gives the bag of the filtered sequential scan whenever the index leads to every visible row |
| Optimizer.SeqScanAsIndexScanSound | bustub-master/src/optimizer/seqscan_as_indexscan.cpp:80-107 | so the rule keeps the bag of rows |
| Optimizer.BottomUpSound | bustub-master/src/optimizer/optimizer_custom_rules.cpp:22-32 | a rule that is sound at a node is sound applied from the leaves up |
| Optimizer.OptimizeCustomSound | bustub-master/src/optimizer/optimizer_custom_rules.cpp:22-32 | the composed pipeline succeeds and keeps the schema and the bag of rows on every plan of scans, filters, projections and joins in which a filter directly over a join on a constant, or over what becomes one, finds true or false there, and an inner join if it is true |
| OptimizerEffects.HashJoinFires | bustub-master/src/optimizer/nlj_as_hash_join.cpp:73-94 | a nested-loop join becomes a hash join if and only if its predicate is a conjunction of equalities of columns from both sides |
| OptimizerEffects.IndexScanFires | bustub-master/src/optimizer/seqscan_as_indexscan.cpp:80-107 | a scan becomes an index scan if and only if its filter is a disjunction of equalities of one column with constants and that column has an index of its own |
| OptimizerEffects.PipelineLeaves | bustub-master/src/optimizer/optimizer_custom_rules.cpp:22-32 | in what the pipeline returns no nested-loop join could be a hash join, no filter lies over a scan without one, and no scan could be an index scan |
| PkIndex.PkStepInv | bustub-master/src/execution/execution_common.cpp:243-267 | every step keeps index and rows together: all live versions at an indexed slot carry its key, and a slot without an entry never had a committed row and never will |
| PkTheorems.PkRunInv | bustub-master/src/execution/execution_common.cpp:243-267 | and so every run, with any interleaving of heap insertions and index insertions |
| PkTheorems.IndexOnlyGrows | bustub-master/src/execution/execution_common.cpp:260-265 | no run loses or moves an entry |
| PkTheorems.VersionsCarryKey | bustub-master/src/execution/execution_common.cpp:247-253 | every live version at an indexed slot, committed or not, carries the index key |
| PkTheorems.SeenIsIndexed | bustub-master/src/execution/execution_common.cpp:243-267 | the index leads from the key of every row a running transaction sees to that row |
| PkTheorems.OneRowPerKey | bustub-master/src/execution/execution_common.cpp:224-226 | no running transaction sees two rows with one key |
| PkTheorems.KeysUniqueInSnapshots | bustub-master/src/execution/execution_common.cpp:224-226 | keys are unique in every committed snapshot |
| PkTheorems.IndexLookupIsScan | bustub-master/src/execution/index_scan_executor.cpp:34-63 | index lookup with the filter returns the bag of a sequential scan with the filter, in every reachable state |
| PkTheorems.OptimizedQuery | bustub-master/src/optimizer/optimizer_custom_rules.cpp:22-32 | optimizing a query of a running transaction does not change its answer |
| PkViews.OwnEditView | bustub-master/src/execution/execution_common.cpp:216-241 | an edit changes the editor's view at that slot to the target, and nowhere else |
| PkViews.ScanIsPresent | bustub-master/src/execution/seq_scan_executor.cpp:42-79 | a scan without a filter returns the visible rows in heap order |
| PkViews.RunKeepsView | bustub-master/src/execution/seq_scan_executor.cpp:42-79 | whatever other transactions do between two steps of a transaction, its view of the whole table stays |
| IndexedTables.IndexedTable.InsertTupleMvcc | bustub-master/src/execution/execution_common.cpp:243-267 | with any steps of others between the lookup, the heap and the index: on success one slot that showed nothing shows the row and the key leads there; undisturbed, it succeeds if and only if the key is new or its slot is empty for the transaction, and takes this key only |
| IndexedTables.AfterOthers | bustub-master/src/execution/execution_common.cpp:243-267 | what a transaction may rely on after any run of others: its own state, its view, and every index entry |
| IndexedTables.IndexedTable.DeleteRow | bustub-master/src/execution/delete_executor.cpp:63-69 | succeeds exactly when nobody else has changed the row since the snapshot; the row disappears from view and its key is free |
| IndexedTables.EditableExactly | bustub-master/src/execution/execution_common.cpp:221-226 | the rows that may be deleted or updated, read off the history: the transaction's own, or those whose newest version is committed in its snapshot |
| IndexedTables.FreeExactly | bustub-master/src/execution/execution_common.cpp:243-253 | the keys that may be inserted: new ones, and those whose slot shows the transaction nothing and may be edited |
| IndexedTables.IndexedTable.UpdateRow | bustub-master/src/execution/update_executor.cpp:89-93 | an update in place under the same key |
| IndexedTables.IndexedTable.AddEntryFor | bustub-master/src/execution/execution_common.cpp:260-265 | a duplicate key taints the transaction; else the key leads to the new slot |
| UpdateExecutors.UpdateExecutor.Apply | bustub-master/src/execution/update_executor.cpp:89-100 | with any steps of others before each edit: on success the visible bag is the old one with every child row traded for its target; undisturbed, it succeeds if and only if nobody else has changed the rows and each new key is free or given up by a row that itself moves, none claimed twice |
| UpdateExecutors.UpdateExecutor.Next | bustub-master/src/execution/update_executor.cpp:52-104 | drains its child, a sequential or an index scan, batch by batch with others running in between, then updates: the rows the scan selects are traded for their targets, no others; undisturbed, it succeeds if and only if the update of those rows is accepted |
| UpdateExecutors.UpdateExecutor.FirstPass | bustub-master/src/execution/update_executor.cpp:89-93 | in-place changes and deletions: the bag traded so far, and which keys are free afterwards |
| UpdateExecutors.UpdateExecutor.SecondPass | bustub-master/src/execution/update_executor.cpp:95-100 | insertions of the moved rows |
| ScanExecutors.SeqScanExecutor.Next | bustub-master/src/execution/seq_scan_executor.cpp:42-79 | pays the front of the scan's remaining rows with their record ids |
| ScanExecutors.PollExecutor | bustub-master/src/include/execution/execution_engine.h:95-104 | for either scan, with any positive batch sizes and any steps of others between batches, the concatenation is the filtered rows of the beginning at the slots ahead, in their order |
| ScanExecutors.IndexScanExecutor.Init | bustub-master/src/execution/index_scan_executor.cpp:34-63 | the key lookups, each slot once, in first-found order; without keys, all entries of the index |
| ScanExecutors.IndexScanExecutor.Next | bustub-master/src/execution/index_scan_executor.cpp:65-105 | pays the front of the index scan's remaining rows with their record ids |
| ScanExecutors.IndexIterationIsScan | bustub-master/src/execution/index_scan_executor.cpp:56-62 | going through the whole index finds the bag of a sequential scan, in every reachable state |
| ScanExecutors.BothScans | bustub-master/src/execution/index_scan_executor.cpp:34-105 | both scans of one query, by keys or over the whole index, return the same bag |
| ScanExecutors.HitsShown | bustub-master/src/execution/seq_scan_executor.cpp:42-79 | every row a scan returns is what the transaction sees at its record id |
| DeleteExecutors.DeleteExecutor.Next | bustub-master/src/execution/delete_executor.cpp:52-74 | deleting batch by batch while the child scan is open, with others running in between, does not disturb the scan: on success the transaction sees exactly the rows of before for which the predicate is not true; undisturbed, it succeeds if and only if nobody else has changed the selected rows |
| DeleteExecutors.DeleteSome | bustub-master/src/execution/delete_executor.cpp:64-69 | one batch fetched and deleted: what has been deleted, what is still to come and what stays in sight |
| DeleteExecutors.EmptiedIsSpared | bustub-master/src/execution/delete_executor.cpp:64-69 | emptying every slot that a complete scan returns leaves exactly the rows for which the predicate is not true |
| DeleteExecutors.SparedBag | bustub-master/src/execution/delete_executor.cpp:64-69 | the rows left and the rows the scan selects make up the rows of before |
| RowExecutors.FilterExecutor.Next | bustub-master/src/execution/filter_executor.cpp:42-101 | whatever is left over from the child's last batch, pays the front of the rows that pass, at least as many as asked for unless none are left |
| RowExecutors.ProjectionExecutor.Next | bustub-master/src/execution/projection_executor.cpp:40-103 | the same for projected rows, one child batch at a time; it reports the end only when nothing is left |
| Engines.PadIndexScan | bustub-master/src/execution/index_scan_executor.cpp:34-63 | an index that has grown since a transaction's view was taken leads it to the same rows: later entries show it nothing |
| Engines.Catalog.RunScan | bustub-master/src/include/execution/execution_engine.h:95-104 | a scan of one table while others change all tables |
| Engines.Catalog.Execute | bustub-master/src/include/execution/execution_engine.h:54-76 | the executors of any well-formed plan of scans, filters, projections and joins over any tables, with others running between all batches, emit the bag of rows the plan means in the database as the transaction saw it at the start |
| Engines.Catalog.Query | bustub-master/src/common/bustub_instance.cpp:358-369 | end to end: running the optimized plan answers the query as it was before optimization |
| MvccTheorems.NewTxn | bustub-master/src/concurrency/transaction_manager.cpp:45-56 | small fact: transactions begin at the last published commit, at the isolation level asked for, with nothing written or scanned |
| ArcRecency.TargetMoves | bustub-master/src/buffer/arc_replacer.cpp:169-187 | small fact: the target changes on ghost hits only: on an MRU ghost up by the ratio of the ghost lists, at least one, capped at c; on an MFU ghost down by one exactly when there are at least as many of those |
| PoolTheorems.DeleteAsserts | bustub-master/src/buffer/buffer_pool_manager.cpp:143-167 | small fact: when the replacer's assertion fires from a page deletion, exactly; never when no guard is in the middle of leaving |
| Joins.KeyEqualIs | bustub-master/src/include/execution/executors/hash_join_executor.h:31-38 | small fact: hash keys are equal exactly when they are the same and hold no NULL |
| SqlMeaning.NullComparison | bustub-master/src/type/integer_type.cpp:208-218 | small fact: a comparison with NULL on either side is NULL |
| SqlMeaning.NullArith | bustub-master/src/include/execution/expressions/arithmetic_expression.h:81-84 | small fact: so is a sum or difference |
| PoolMoves.GuardSteps | bustub-master/src/storage/page/page_guard.cpp:193-320 | small fact: latching marks a writer's frame dirty and no other, a write changes the bytes, dropping gives up one pin; nothing else changes |
| OptimizerEffects.JoinFilterFires | bustub-master/src/optimizer/merge_filter_nlj.cpp:76-102 | small fact: a filter moves into a join exactly over a constant that casts to true |
| OptimizerEffects.MergesFire | bustub-master/src/optimizer/merge_projection.cpp:28-70 | small fact: a projection is dropped exactly if it copies its input, a filter moves into exactly a scan without one |

## Left out

- PkTheorems.SeenIsIndexed: claimed for transactions that are running and not halfway through an insertion; a tainted transaction may see its own row that lost the race for its key.
- Optimizer.OptimizeCustomSound: leaves out a filter over a left join on true, for which the rule is wrong, and one over a join on a string constant, whose value a join executor reads from the string's address.
- PkTheorems.OptimizedQuery: leaves out the same plans, and so does `Engines.Catalog.Query`.
- Engines.Catalog.Execute: an operator gets its children's results whole, in batches of any size, where the program pulls the batches one by one; the scans take place one after the other, in the order of the plan.
- Threads, latches and deadlock: steps are atomic at the granularity named above, and a step that would block is not enabled.
- Timestamp overflow: a commit needs `last_commit_ts + 1` below the first transaction id, 2^62, as the engine assumes throughout.
- A second write conflict of an already tainted transaction terminates the process (bustub-master/src/concurrency/transaction_manager_impl.cpp:116-124); the model has no step for it.
- An absent undo link and an invalid one are the same `NoLink`; the program never tells them apart.
- Garbage collection is enabled only while no commit or abort is under way, which is what its comment demands of callers.
- Tuple and page byte layout, variable-length storage, row width checks of the table heap, and the case that a table page has no room for a row.
- Disk scheduler, page allocation and log manager: reading and writing a page is one action, and a deallocated page reads back as arbitrary bytes.
- DECIMAL and mixed-type comparisons: integers are one unbounded kind (arithmetic wraps at 32 bits, its least result being NULL), and values of different kinds are unequal, so join keys are compared within one type. `Null` is the NULL of every type; a constant one is an integer, the only NULL a query can spell.
- The composed pipeline's rules for ORDER BY and LIMIT (bustub-master/src/optimizer/order_by_index_scan.cpp, bustub-master/src/optimizer/sort_limit_as_topn.cpp) act only on sort and limit nodes, which the plans here do not have; the order in which a full iteration over an index yields its entries is left open with them.
- Column names: schemas are the column types, so renaming by a dropped projection does not show.
- Secondary and multi-column indexes: in-place updates do not maintain them, so agreement is claimed for one single-column primary key.
- B+ tree and hash index internals: an index is a map from key to slot that answers lookups and refuses duplicates.
- The number of updated rows is not wrapped at 32 bits.
- Nested index join: it reads the heap without version visibility, so it has no place in the snapshot claims.
- Aggregation: its hash table of counts, sums, minima and maxima per group is something no part above depends on; sort, top-N and window functions are not implemented in the repository; limit, values and check executors and the planner's schema inference keep no state that the parts above depend on; the binder works on the parser's own node types.
- Other replacers, the lock manager, the trie and checkpoints are not implemented in the repository: there is no behaviour to prove.
