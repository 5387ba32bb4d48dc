# RawDB in Dafny

A model of the hard parts of RawDB, an embedded columnar store, and proofs about it. The model follows
the C++ sources branch by branch; where the program updates things in place the model is a class or a
method with loops, proved against a function or an abstract state, and the theorems are about those.

`dafny verify dfyconfig.toml` checks everything.

## What is modelled

* **Paged B+tree index** (`BPlusTree`, `IndexHistory`, `PagedIndex`). A tree of nodes on pages of one
  growing file, at most 31 keys a node; leaf splits copy a separator up, internal splits move one up.
  `PagedIndex.BTree` is the object that overwrites pages; it is proved to hold the tree that the
  functional insertions build. Search routes by upper bound and insertion by lower bound, so a key
  that occurs often can lie on both sides of a separator. The exact answer of a search is proved,
  duplicates included, and when it is complete.
* **Versions and transactions** (`Versions`, `VersionEdits`, `VersionIndex`, `Tables`, `TableSteps`,
  `TableFinish`, `Mvcc`, `TableStore`, `Database`, `History`, `Update`, `AutoUpdate`). Versions carry a timestamp,
  a flagged transaction id or the aborted stamp. A table is its version index, its pending batches
  and the write sets of open transactions; the database is a state machine over begin, insert, delete,
  flush, sort, prune, commit and rollback. `VersionIndex.Index`, `TableStore.Store` and `Database.Db`
  are the objects; their methods are proved to take steps of the state machine. `History` forgets
  versions, batches and write sets and says who inserted and deleted what and when it committed:
  every read is proved to follow it.
* **Pending-batch protocol** (`BatchPool`). Inserters and flushers as threads that take one atomic
  load, compare-and-swap, lock or unlock at a time, in every interleaving.
* **Log, recovery and checkpoint** (`WalFormat`, `WalWriter`, `LogOpen`, `Checkpoint`, `Replay`,
  `Reopened`, `Skipped`, `Restarts`, `Recovery`, `LogRecords`). The log as bytes in segments, the reader, reopening, replay
  in two passes, truncation at checkpoints; and the log of a run of the state machine against the run itself.
  `Replay` states what recovery is meant to do; `Reopened` and `Skipped` say where the code
  differs, and `Restarts` is about logs that several runs have written. `LogRecords` has the payloads, and puts
  the parts together: recovery from the bytes of a cut log of a run is recovery of an earlier state of that run.
* **Tables as bytes** (`LittleEndian`, `ColumnBytes`, `ColumnReads`, `PageLayout`, `PageFile`,
  `TableBytes`, `TableContent`, `TableReads`, `DiskTable`, `PageRecovery`, `VacuumColumns`, `Vacuum`).
  The byte forms of a column, sealed pages, a file of pages, the two readers, and vacuum.
  `DiskTable.Disk` is the object: its file, page list and pending bytes are proved to hold exactly the
  rows inserted, through insertion, flush and vacuum, for every schema.
* **Page checksum** (`CrcTable`, `Registers`, `Crc32c`, `PageSeal`). CRC32C as in section 12.1 of
  RFC 3720, with the program's 256-entry table.
* **Queries** (`Simd`, `Filters`, `IndexedSelect`, `Select`, `Values`, `Mutate`, `Grammar`, `WhereParser`, `Where`).
  Vector kernels, AND/OR trees, the index path against the scan path, the bytes that statements store for
  values, the rows that DELETE and UPDATE work on and write from the bytes of the file to the commit, the WHERE
  parser at the level of tokens, and a WHERE clause from its tokens to the rows.

## What the proofs found

The model keeps the code as it is; where a promise does not hold in general, the exact condition is proved.

* A search for a key with many duplicates returns only those in one leaf: of 32 rows under one key,
  16 (`IndexHistory.DuplicatesLost`). It returns all of them if and only if the key straddles no
  separator (`IndexHistory.SearchComplete`).
* The index path of SELECT agrees with the scan path if and only if the key that it builds does not
  occur, or straddles no separator and the filter compares such a literal with the column at all
  (`IndexedSelect.AgreesExactly`). The filter has no case for BOOL columns and none for literals of
  another type, where the index searches all the same (`IndexedSelect.TypesDisagree`).
* The low watermark of readers is never raised from zero, so the collector may prune rows that an open
  transaction still sees (`Mvcc.SnapshotLost`); which rows, exactly, is `Mvcc.PruneExact`.
* The log reader is opened twice and keeps its list of segments, so the second pass of recovery reads
  the segments twice, up to where it stops. It applies the right insertions, and it applies some of them
  twice if and only if one lies in a segment before the one where the pass stops
  (`Reopened.AppliedTwice`, for every target time and every torn log; `Reopened.RowTwice`).
* A checkpoint stores the next LSN and replay skips records up to it, so the first record after a
  checkpoint is skipped. `Skipped.SkipExact` says when that loses something; `Skipped.InsertionSkipped`
  is a committed row lost.
* Replay skips autocommitted insertions and ignores deletions. Recovery gives back what readers saw if
  and only if, of the rows inserted by then, just those inserted outside a transaction have been
  deleted (`Recovery.RecoveryFaithful`); the two failures are `Recovery.AutocommitLost` and
  `Recovery.DeletedComesBack`.
* A transaction's begin record is written before the transaction is registered, so a checkpoint in
  between may remove the record (`Checkpoint.BeginLost`, exactly when: `Checkpoint.BeginsExact`). What
  the transaction writes after that is kept in any case (`Checkpoint.TruncationSafe`).
* An opened log continues with the right LSN if and only if its last segment has a record header left or
  is the first one (`LogOpen.ReopenTorn`, for every cut). A crash between a rotation and the first write to
  the new segment makes LSNs start again from 1 (`LogOpen.RotationRestarts`, `LogOpen.RestartedLog`); replay
  drops what is then written with LSNs up to the checkpoint (`Restarts.DroppedTail`), so a committed row is
  lost (`Restarts.RestartLost`).
* What is appended behind a torn record is not read, unless the torn bytes happen to read as a record
  together with it: `LogOpen.ShortTear`, `LogOpen.TornHeader` and `LogOpen.TornPayload` say when, for every
  place of the tear.
* Transaction ids start again from 1 at every opening while the log is kept. Replay of several runs gives
  what each of them committed if and only if no later run commits under the id of an earlier insertion and
  no earlier run has committed under the id of a later uncommitted one (`Restarts.RunsExact`);
  `Restarts.UncommittedRecovered` is an uncommitted row recovered.
* Opening a table file cuts off a torn page unless less than a page header is left of it
  (`PageRecovery.OpenedBroken`). Pages written behind such a leftover are removed at the next opening, however
  many they are, unless the leftover happens to make a page with what follows (`PageRecovery.LeftoverExact`,
  `PageRecovery.PagesRemoved`); behind one to three bytes they always are, if the file has a page before them
  (`PageRecovery.PagesLost`).
* Comparisons of a 32-bit column cast the literal to 32 bits, except for `<>`; `Filters.PredicateExact`
  says for which predicates that is harmless. DOUBLE columns compare with a tolerance for `<>` but not
  for `=`, so some values are selected by neither (`Filters.NeitherSelected`).
* An UPDATE whose target is deleted meanwhile still inserts its replacement (`Update.UpdateAtomic` gives the
  condition). The target may be deleted by another transaction (`Update.UpdateRaces`), or by an earlier UPDATE
  of the same transaction, which then leaves two replacements of one row (`Update.UpdatedTwice`).
* An UPDATE outside a transaction deletes under one timestamp and inserts each replacement under a later
  one, so some snapshots find neither the old rows nor the new ones. It is atomic if and only if it has
  nothing to update (`AutoUpdate.AutoAtomic`; what each snapshot finds: `AutoUpdate.AutoBag`).

## Assumptions

Each step of `Mvcc` is atomic. Timestamps and transaction ids stay below 2^63. A deletion names rows that
the index shows at the deleter's snapshot, as the executor selects them; the table may have pending rows.
Files grow and are written without failure. Each page stays below 4 GiB, as its size field is 32-bit, and
so does each string column of a table, as its offsets are; page offsets stay below 2^64 - 1. Values of
a fixed-size column have its size. A reopened table starts with LSN 0, as `Table::recover` does not
restore it. The bytes of DOUBLE values and the digits of integers are given functions; where UPDATE copies the
other columns of a row, BOOL cells are 0 or 1 and DOUBLE cells survive being read and written. Log
payloads, row counts and column sizes stay below 2^32.

`Replay.Recover`, and with it `Replay.TargetIsPrefix`, `Replay.RecoverInTime`, `Replay.AllOrNone`,
`Recovery.RunAllOrNone`, `Recovery.RecoveryRestores`, `Recovery.RecoveryFaithful`, `Recovery.RecoveryOfPast` and
`LogRecords.DiskIsPast`, reads the log once
per pass, as a fresh reader would. What carries over to the code, whose second pass reads the segments
twice, is stated beside them: `Reopened.TargetAsCoded`, `Reopened.CodedInTime`,
`Reopened.AllOrNoneAsCoded`, `Recovery.RunAllOrNoneAsCoded`, `Recovery.RestoredAsCoded` and
`LogRecords.DiskAsCoded`.

## Model

| member | source | states |
|---|---|---|
| `BPlusTree.InsertOrdered` | src/index/btree.cpp:314-447 | inserting into a subtree keeps it ordered and balanced, separators bounding both sides and occurring as the least key on their right, and adds exactly the new entry |
| `BPlusTree.InsertFilled` | src/index/btree.cpp:382-446 | nodes keep at most 31 keys, at least 15 in inner nodes and 16 entries in leaves other than the root |
| `BPlusTree.InsertUses` | src/index/btree.cpp:314-447 | a subtree keeps its pages and takes only new ones, each once |
| `BPlusTree.InsertFind` | src/index/btree.cpp:231-268 | what a search answers after one insertion, for every key |
| `BPlusTree.EntriesSorted` | src/index/btree.cpp:272-312 | the entries of an ordered tree are sorted by key |
| `IndexHistory.BuildSound` | src/index/btree.cpp:272-312 | after any insertions the tree is ordered, balanced, filled, on pages each used once, and holds exactly what was inserted |
| `IndexHistory.SearchMeaning` | src/index/btree.cpp:231-268 | search succeeds exactly for keys ever inserted and returns only rows inserted under the key, none too often, the first one always |
| `IndexHistory.SearchUnique` | src/index/btree.cpp:231-268 | a key inserted once is answered with exactly its row |
| `IndexHistory.HeightBound` | src/index/btree.cpp:272-312 | height h >= 1 takes at least 2 * 16^h entries |
| `IndexHistory.SearchComplete` | src/index/btree.cpp:157-171 | search returns every row of a key if and only if the key straddles no separator |
| `IndexHistory.DuplicatesLost` | src/index/btree.cpp:503-564 | 32 rows under one key: search returns 16 |
| `PagedIndex.NodesDisjoint` | src/index/btree.cpp:272-312 | after any insertions, any two nodes have separate bytes within the file, and every page of the file belongs to a node |
| `PagedIndex.FindChildBinary` | src/index/btree.cpp:157-171 | the binary search finds the upper-bound route |
| `PagedIndex.SearchKeyBinary` | src/index/btree.cpp:133-155 | the binary search finds the first entry of the key, or that there is none |
| `PagedIndex.LeafLowerBound` | src/index/btree.cpp:449-480 | the insertion point in a leaf is the lower bound |
| `PagedIndex.CollectRun` | src/index/btree.cpp:246-259 | the rows of the key in the leaf, in order |
| `PagedIndex.BTree.FindLeaf` | src/index/btree.cpp:231-268 | the descent ends at the leaf where the search of the tree ends |
| `PagedIndex.BTree.Search` | src/index/btree.cpp:231-268 | the object answers as the tree built by its insertions does, and not found exactly when that answer is empty |
| `PagedIndex.BTree.Insert` | src/index/btree.cpp:272-312 | the pages hold the tree with one more entry, growing a root when it splits |
| `PagedIndex.BTree.InsertIntoSubtree` | src/index/btree.cpp:314-447 | in-place insertion below a node does what the functional insertion does, and touches no other page |
| `PagedIndex.BTree.InsertIntoLeafNode` | src/index/btree.cpp:449-566 | a leaf is written in place or split in two |
| `PagedIndex.BTree.PutSeparator` | src/index/btree.cpp:364-446 | an inner node takes a separator or splits, moving its middle one up |
| `Versions.LookupMeaning` | src/mvcc/version_index.cpp:41-84 | a lookup finds a latest committed version of the row at or before the snapshot |
| `Versions.VisibleMeans` | src/query/executor_select.cpp:229-232 | a row is visible exactly if an insertion and no deletion of it is committed by the snapshot |
| `Versions.StampAllComplete` | src/mvcc/version_index.cpp:86-106 | stamping one version per listed row stamps them all when a row is listed as often as it was written |
| `Versions.PrunedMembers` | src/mvcc/version_index.cpp:174-219 | pruning keeps exactly the versions of rows that are not dead at the cutoff |
| `Versions.PrunedVisible` | src/mvcc/version_index.cpp:174-219 | pruning hides exactly the dead rows |
| `VersionIndex.Index.InsertBulk` | src/mvcc/version_index.cpp:10-18 | versions are appended and the index marked unsorted |
| `VersionIndex.Index.EnsureSorted` | src/mvcc/version_index.cpp:20-39 | afterwards the index is an ordered permutation of what it was |
| `VersionIndex.Index.Search` | src/mvcc/version_index.cpp:41-84 | the answer of the lookup, a transaction's own version first when an id is given |
| `VersionIndex.Index.CommitRows` | src/mvcc/version_index.cpp:86-106 | the ordered index with one version stamped per listed row |
| `VersionIndex.Index.Compact` | src/mvcc/version_index.cpp:182-216 | the in-place compaction equals the functional filter and returns the number removed |
| `VersionIndex.Index.Prune` | src/mvcc/version_index.cpp:174-219 | sorting, then compaction |
| `Tables.PendingParts` | src/storage/table.cpp:427-460 | the pending versions are those queued and those of the active batch |
| `TableSteps.InsertTxInv` | src/db/database.cpp:504-528 | inserting in a transaction keeps the table invariant |
| `TableSteps.PutAutoInv` | src/db/database.cpp:504-528 | an autocommitted insertion keeps it |
| `TableSteps.DeleteTxInv` | src/db/database.cpp:655-684 | deleting in a transaction keeps it, with rows pending or not |
| `TableSteps.DeleteAutoInv` | src/db/database.cpp:655-684 | an autocommitted deletion of rows seen at any earlier snapshot keeps it |
| `TableSteps.FlushInv` | src/storage/table.cpp:427-460 | flushing keeps it |
| `TableSteps.IndexSees` | src/query/executor_mutate.cpp:188-205 | what the index alone shows at a snapshot, the table with its pending rows shows too |
| `TableSteps.InsertTxSees` | src/db/database.cpp:504-528 | no snapshot sees a row of an open transaction |
| `TableSteps.PutAutoSees` | src/storage/table.cpp:176-238 | an autocommitted row is seen from its timestamp on |
| `TableSteps.DeleteSees` | src/db/database.cpp:655-684 | a deletion hides its rows from its timestamp on, and from no snapshot while open |
| `TableSteps.FlushSees` | src/storage/table.cpp:427-460 | flushing changes what no snapshot sees |
| `TableFinish.AllFinish` | src/storage/table.cpp:663-709 | ending a transaction restamps all its versions, in the active batch, the queue and the index |
| `TableFinish.FinishInv` | src/storage/table.cpp:663-709 | ending a transaction keeps the table invariant although stamping can break timestamp order |
| `TableFinish.FinishSees` | src/storage/table.cpp:663-709 | a commit takes effect at exactly the snapshots from its timestamp on; a rollback at none |
| `TableFinish.ResortSees` | src/mvcc/version_index.cpp:20-39 | sorting changes what no snapshot sees |
| `TableFinish.PruneInv` | src/mvcc/version_index.cpp:174-219 | pruning keeps the table invariant |
| `TableFinish.PruneSees` | src/mvcc/version_index.cpp:174-219 | pruning hides a row exactly if it is dead at the cutoff; snapshots from the cutoff on are unchanged |
| `Mvcc.StepInv` | src/db/transaction.cpp:8-77 | every step keeps the invariant of the database |
| `Mvcc.RunInv` | src/db/transaction.cpp:8-77 | so does every run |
| `Mvcc.CommitAtomic` | src/db/transaction.cpp:23-46 | commit at c adds the transaction's insertions and applies its deletions in all tables at exactly the snapshots >= c |
| `Mvcc.RollbackUnseen` | src/db/transaction.cpp:48-77 | rollback changes visibility at no snapshot |
| `Mvcc.StepStable` | src/db/transaction.cpp:8-46 | no step changes what an issued snapshot sees, prunes above it excepted |
| `Mvcc.SnapshotStable` | src/db/transaction.cpp:8-46 | nor does any run |
| `Mvcc.TransactionReads` | src/db/transaction.cpp:8-21 | an open transaction goes on reading at its snapshot what it read at its begin; which is what had committed then, `History.BeginReads` |
| `Mvcc.CutoffSpares` | src/mvcc/gc.cpp:73-83 | for which snapshots the computed cutoff is safe |
| `Mvcc.PruneExact` | src/mvcc/gc.cpp:55-83 | a prune leaves a snapshot alone if and only if it sees no row dead at the cutoff |
| `Mvcc.SnapshotLost` | src/mvcc/gc.cpp:73-83 | a reachable state where the collector, its watermark at zero, hides a row an open transaction sees |
| `TableStore.Store.InsertRow` | src/storage/table.cpp:114-174 | the row goes to the active batch under the next row id; a full batch to the queue |
| `TableStore.Store.DeleteRows` | src/db/database.cpp:666-675 | one deletion mark per row |
| `TableStore.Store.FlushPending` | src/storage/table.cpp:427-460 | active and queued batches become pages, in order |
| `TableStore.Store.WriteBatch` | src/storage/table.cpp:560-570 | the versions of the batch go to the index with the page |
| `TableStore.Store.StampPending` | src/storage/table.cpp:669-699 | every listed pending row of the transaction gets the stamp |
| `TableStore.Store.CommitRows` | src/storage/table.cpp:663-709 | the table ends the transaction, its index put in order first |
| `TableStore.Store.IsVisible` | src/query/executor_select.cpp:229-232 | the reader's test is visibility |
| `Database.Db.Begin` | src/db/transaction.cpp:8-21 | takes the begin step; the new transaction sees just the rows with a committed insertion and no committed deletion at that moment |
| `Database.Db.InsertTx` | src/db/database.cpp:504-528 | for an open transaction takes the insert step, or refuses an unknown table and changes nothing |
| `Database.Db.InsertAuto` | src/db/database.cpp:504-528 | takes the autocommit insert step |
| `Database.Db.DeleteTx` | src/db/database.cpp:655-684 | for an open transaction takes the delete step, or refuses an unknown table and changes nothing |
| `Database.Db.DeleteAuto` | src/db/database.cpp:655-684 | takes the autocommit delete step |
| `Database.Db.StampTables` | src/db/transaction.cpp:36-39 | each table of the write set is ended, the others are not touched |
| `Database.Db.Commit` | src/db/transaction.cpp:23-46 | takes sorting steps and the commit step, or refuses a finished transaction |
| `Database.Db.Rollback` | src/db/transaction.cpp:48-77 | takes sorting steps and the rollback step, or refuses |
| `Database.CommitsRun` | src/db/transaction.cpp:23-77 | what commit and rollback of the object do is a run of the state machine |
| `History.KeepsCommit` | src/db/transaction.cpp:23-46 | commit keeps the agreement of versions and history, row by row |
| `History.KeepsStep` | src/db/transaction.cpp:8-77 | so does every step |
| `History.BaseStep` | src/db/transaction.cpp:8-77 | rows are inserted once and deleted only after their insertion committed; write sets are what the transaction did |
| `History.ReadsFollowHistory` | src/mvcc/version_index.cpp:41-84 | over every run, a snapshot not below a prune sees a row exactly if its insertion and none of its deletions committed by it |
| `History.BeginOpens` | src/db/transaction.cpp:8-21 | in every state that a run reaches, whatever was pruned, the transaction that begins sees a row exactly if an insertion of it has committed and no deletion has, with no timestamp in the condition |
| `History.BeginReads` | src/db/transaction.cpp:8-21 | over every run: whatever others do after that, as long as pruning spares its snapshot, the transaction reads what had committed when it began |
| `Update.CommitBag` | src/storage/table.cpp:663-709 | a commit adds exactly the inserted rows and removes exactly the deleted ones still there, as bags |
| `Update.OwnRun` | src/db/database.cpp:530-556 | a write set grows by exactly what its transaction did, whatever others do meanwhile |
| `Update.UpdateAtomic` | src/query/executor_mutate.cpp:268-357 | as any statement of its transaction, UPDATE replaces its targets by rows with the new value at the column and the old cells elsewhere, at exactly the snapshots from its commit on, if and only if no target was deleted by then, by others or earlier in the transaction |
| `Update.ReplacementsOnly` | src/query/executor_mutate.cpp:326-347 | rows have the new value at the column and the old cells at all others, target by target, if and only if they are the ones that UPDATE inserts |
| `Update.UpdateCells` | src/query/executor_mutate.cpp:268-357 | if no target was deleted by the commit, every snapshot from it on finds for each target a row with the new value at the column and the old cells elsewhere, and every other row unchanged; earlier snapshots find the table as it was |
| `Update.UpdateRaces` | src/query/executor_mutate.cpp:337-347 | a reachable run in which another transaction deletes a target and commits, and the replacement is inserted all the same |
| `Update.UpdatedTwice` | src/query/executor_mutate.cpp:298-347 | a reachable run in which a transaction updates a row twice, and readers find both replacements |
| `AutoUpdate.AutoSees` | src/query/executor_mutate.cpp:337-347 | outside a transaction, the targets are seen until the statement and each replacement from its own timestamp on |
| `AutoUpdate.AutoBag` | src/query/executor_mutate.cpp:337-347 | what each snapshot finds: before the statement, at its first timestamp, at each later one, with each new row changed at the named column only |
| `AutoUpdate.AutoRewrites` | src/query/executor_mutate.cpp:268-357 | from the last timestamp on, exactly the targets are replaced, by rows with the new value at the column and the old cells elsewhere, if they were all still there |
| `AutoUpdate.AutoCells` | src/query/executor_mutate.cpp:268-357 | from the last timestamp on, there is for each target a row with the new value at the column and the old cells elsewhere, and every other row is unchanged |
| `AutoUpdate.AutoAtomic` | src/query/executor_mutate.cpp:268-357 | every snapshot finds the old table or the rewritten one if and only if there is nothing to update |
| `AutoUpdate.AutoRun` | src/storage/table.cpp:333-425 | the statement is a run of the state machine, one timestamp for the deletion and one for every inserted row |
| `Mutate.FindTargets` | src/query/executor_mutate.cpp:288-324 | whatever transactions are open on the table, DELETE and UPDATE work on exactly the rows whose stored values satisfy the WHERE clause and that the reader's snapshot sees, ascending; an error exactly for an unknown column |
| `Mutate.TargetRows` | src/query/executor_mutate.cpp:298-324 | on a flushed table with any open transactions, the filtered rows that the version index shows, which are those the snapshot sees |
| `Mutate.FlushAndRead` | src/query/executor_mutate.cpp:288-297 | flushing changes the version index as a flush step does for any open transactions, and the scan has the values of all rows |
| `Mutate.ReadTable` | src/query/executor_scan.cpp:99-209 | the values that the filter sees are those of the inserted rows |
| `Mutate.UpdateWhere` | src/query/executor_mutate.cpp:268-357 | once committed, UPDATE has replaced exactly the rows that satisfy the clause and that it saw, by rows with the new value at the column and the old cells elsewhere, if and only if none was deleted by then, by others or earlier in the transaction |
| `Mutate.NewRow` | src/query/executor_mutate.cpp:328-346 | reading each cell of a row and storing its value again, with the new one at the column, gives the row with that one cell replaced |
| `Mutate.NewRows` | src/query/executor_mutate.cpp:326-347 | so for all targets of the statement |
| `Mutate.PlanUpdate` | src/query/executor_mutate.cpp:268-347 | from the bytes of the file to the rows to insert: the targets are those of the clause, and each new row has the new value at the column and the old cells elsewhere; an error exactly for an unknown column |
| `Values.StoredInt32` | src/query/executor_mutate.cpp:43-104 | an integer stored in a 32-bit column reads back as the 32-bit number congruent to it, itself if it fits |
| `Values.StoredInt64` | src/query/executor_mutate.cpp:43-104 | a 64-bit integer reads back as it was, and its bytes are congruent to it |
| `Values.Stored` | src/query/executor_mutate.cpp:43-104 | for every column type and literal, what the stored bytes read back as: the value itself, or zero where it does not apply |
| `Values.StoredWidth` | src/query/executor_mutate.cpp:43-104 | what is stored has the width that the column's cells have |
| `Values.Copied` | src/query/executor_mutate.cpp:228-266 | reading a cell and storing its value again gives the same bytes, for every column type |
| `Values.FilterSees` | src/query/executor_filter.cpp:131-314 | the filter sees in a column the values that UPDATE reads from its cells, and none in a BOOL column |
| `BatchPool.StepInv` | src/storage/table.cpp:70-460 | every atomic step of every thread keeps the pool's invariant |
| `BatchPool.OneHolder` | src/storage/table.cpp:70-110 | each batch is held by exactly one of free list, active pointer, queue or one thread |
| `BatchPool.EveryInterleaving` | src/storage/table.cpp:114-460 | in every interleaving: one holder per batch, no batch over its size, row ids unique and exactly 0..row_count-1 when no insertion is under way |
| `BatchPool.AllInserted` | src/storage/table.cpp:114-425 | in every interleaving, the rows handed out and those still to come are those asked for; when all calls have returned the row count is their number |
| `BatchPool.FlushAll` | src/storage/table.cpp:427-460 | a flush with no other call under way leaves every row ever inserted on exactly one page |
| `WalFormat.ParseEncode` | src/recovery/wal.cpp:329-371 | a written record is read back, whatever follows |
| `WalFormat.ParseTorn` | src/recovery/wal.cpp:329-371 | a record cut short is not read |
| `WalFormat.ReadTorn` | src/recovery/wal.cpp:329-371 | a segment cut at any byte gives the longest prefix of whole records |
| `WalFormat.NameOrder20` | src/recovery/wal.cpp:72-88 | the order of zero-padded segment names is the order of start LSNs |
| `WalWriter.ReadWhole` | src/recovery/wal.cpp:290-371 | a fresh reader returns all records of all segments in order |
| `WalWriter.ConsecutiveLsns` | src/recovery/wal.cpp:119-157 | their LSNs are consecutive |
| `WalWriter.ReadTornTail` | src/recovery/wal.cpp:290-371 | with the last segment cut at any byte, exactly the whole records before the cut |
| `WalWriter.OnDiskRecord` | src/recovery/wal.cpp:119-157 | the LSNs that truncation counts as on disk are those of the records in the segments |
| `WalWriter.WalWriter.RotateIfNeeded` | src/recovery/wal.cpp:72-88 | a full segment is followed by a new one named by the next LSN; the log is unchanged |
| `WalWriter.WalWriter.AppendRecord` | src/recovery/wal.cpp:119-157 | one record with the next LSN is added to the log on disk, in the last segment or in a new one when it is full |
| `WalWriter.WalWriter.RemoveSegmentsBefore` | src/recovery/wal.cpp:90-111 | only segments wholly before the LSN go, the very ones a checkpoint counts as removed; every record from it on stays, and no further segment could go |
| `LogOpen.FindNext` | src/recovery/wal.cpp:34-46 | the walk over the headers of the last segment |
| `LogOpen.WalkTorn` | src/recovery/wal.cpp:34-46 | of a segment cut at any byte it gives the LSN after the last whole header, torn payload or not |
| `LogOpen.ReopenTorn` | src/recovery/wal.cpp:26-46 | with the last segment cut anywhere, the opened log continues after the last header left if there is one or the segment is the first, and from 1 otherwise |
| `LogOpen.ReopenExact` | src/recovery/wal.cpp:26-46 | after a clean shutdown the opened log continues with the right LSN if and only if the last segment has a record or is the first |
| `LogOpen.RotationRestarts` | src/recovery/wal.cpp:119-147 | after a crash between a rotation and the next write, LSNs start again from 1, whatever the log holds |
| `LogOpen.RestartedLog` | src/recovery/wal.cpp:26-46 | a log of two segments from which readers then get LSN 1 twice |
| `LogOpen.ReadBehind` | src/recovery/wal.cpp:329-371 | a segment cut anywhere and appended to reads as its whole records, then as whatever the torn part and the rest read as |
| `LogOpen.AppendedLost` | src/recovery/wal.cpp:329-371 | if the torn part does not read as a record with what follows, nothing appended is read |
| `LogOpen.ShortTear` | src/recovery/wal.cpp:345-347 | one to three bytes of a record block every record appended next |
| `LogOpen.TornHeader` | src/recovery/wal.cpp:340-360 | a header torn behind its magic blocks what follows if and only if the bytes stay short, or the mixed header announces a payload that is cut off or has another checksum |
| `LogOpen.TornPayload` | src/recovery/wal.cpp:349-360 | a torn payload blocks what follows if and only if it stays short or the mixed payload has another checksum |
| `Checkpoint.OldestActive` | src/db/transaction.cpp:79-92 | the least begin LSN of the registered transactions |
| `Checkpoint.StepInv` | src/db/database.cpp:686-721 | every step of writers and checkpoints keeps what the log must cover |
| `Checkpoint.TruncationSafe` | src/db/database.cpp:686-721 | over every run, all records from the checkpoint LSN on, and all written since an open transaction was registered, are on disk |
| `Checkpoint.SavedIsNoted` | src/db/database.cpp:686-721 | over every run, a truncation saves the LSN that was next when its checkpoint began, whatever was written meanwhile, and nothing else changes the saved LSN |
| `Checkpoint.NothingSpare` | src/db/database.cpp:686-721 | over every run, of two segments left by a checkpoint the second begins behind the saved LSN or behind the begin record of an open transaction: nothing that could go stays |
| `Checkpoint.BeginsExact` | src/db/transaction.cpp:13-19 | a truncation keeps the begin records of all transactions if and only if it spares those about to be registered |
| `Checkpoint.BeginsSafe` | src/db/database.cpp:686-721 | over runs of such truncations, all records from the begin record of an open transaction on are on disk |
| `Checkpoint.BeginLost` | src/db/transaction.cpp:13-19 | a run that ends with a registered transaction whose begin record is gone |
| `Replay.CollectCommits` | src/db/database.cpp:226-245 | the first pass collects the commits of the prefix that ends before the first record later than the target, which `Replay.PrefixMeans` states in LSNs and times |
| `Replay.ApplyInserts` | src/db/database.cpp:279-300 | the second pass applies the insertions of committed transactions in that prefix |
| `Replay.TargetIsPrefix` | src/db/database.cpp:233-236 | with a fresh second reader, recovery to a target time is recovery of the log before the first record behind the checkpoint LSN that is later than the target |
| `Replay.PrefixMeans` | src/db/database.cpp:233-236 | that prefix: every record in it behind the checkpoint LSN has a time up to the target, and the record after it, if any, lies behind the checkpoint LSN and is later |
| `Replay.RecoverInTime` | src/db/database.cpp:222-300 | of a log whose times ascend, an insertion is replayed if and only if its record and the commit record of its transaction lie behind the checkpoint LSN and are no later than the target |
| `Replay.DroppedHead` | src/db/database.cpp:233-234 | records up to the checkpoint LSN change nothing, whether kept or truncated |
| `Replay.AllOrNone` | src/db/database.cpp:226-300 | with a fresh second reader, a transaction is replayed entirely, with its logged timestamp, or not at all |
| `Reopened.RecoverLog` | src/db/database.cpp:226-300 | the two passes as coded, the second over the doubled list of segments |
| `Reopened.AppliedTwice` | src/recovery/wal.cpp:294-299 | for every target and torn log, the code applies the insertions it should and no others; it applies those in the segments before the stop once more; the bags are equal if and only if no log record there is one to apply |
| `Reopened.TargetAsCoded` | src/db/database.cpp:233-236 | as coded, recovery to a target time applies the insertions of the log before the first record behind the checkpoint LSN that is later than the target |
| `Reopened.CodedInTime` | src/db/database.cpp:222-300 | as coded, an insertion is applied if and only if its record and the commit record of its transaction lie behind the checkpoint LSN and are no later than the target, in any log whose times ascend |
| `Reopened.AllOrNoneAsCoded` | src/db/database.cpp:226-300 | as coded, every insertion of a transaction is applied or none is |
| `Reopened.RowTwice` | src/recovery/wal.cpp:294-299 | one committed row in one segment is recovered twice |
| `Skipped.SkipExact` | src/db/database.cpp:232-236 | skipping the record at the checkpoint LSN is harmless if and only if it is not the insertion of a transaction whose commit is replayed, or, when it lies beyond the target, if nothing is replayed |
| `Skipped.SkipNone` | src/db/database.cpp:232-233 | without a record at the checkpoint LSN nothing is lost |
| `Skipped.InsertionSkipped` | src/db/database.cpp:232-233 | a log whose committed insertion lies at the checkpoint LSN and is not replayed |
| `Restarts.RunsExact` | src/db/database.cpp:226-300 | replaying the log of several runs gives what each committed if and only if no later run commits under the id of an earlier insertion and no earlier run has committed under the id of a later uncommitted one |
| `Restarts.UncommittedRecovered` | src/db/database.cpp:286-300 | two runs with nothing to recover in either, whose common log recovers a row |
| `Restarts.DroppedTail` | src/db/database.cpp:232-233 | whatever is written with LSNs up to the checkpoint LSN changes nothing, also behind the checkpoint |
| `Restarts.RestartLost` | src/db/database.cpp:232-233 | a committed transaction that is recovered with the right LSNs and lost when they start again from 1 |
| `Recovery.LogStep` | src/db/transaction.cpp:8-77 | the log keeps naming each row's insertion and each commit, and nothing follows a transaction's end |
| `Recovery.RunAllOrNone` | src/db/database.cpp:222-300 | for the log of every run, every cut and every target time, a fresh reader replays transactions begun from the checkpoint LSN on all or none |
| `Recovery.RunAllOrNoneAsCoded` | src/db/database.cpp:222-300 | so does the code, as a set of applied insertions |
| `Recovery.RecoveryRestores` | src/db/database.cpp:279-300 | with a fresh second reader, replay gives the rows of the insertions committed by the snapshot, in order |
| `Recovery.RestoredAsCoded` | src/db/database.cpp:279-300 | as coded, replay gives those rows and a copy of each that lies before the stop |
| `Recovery.RecoveryFaithful` | src/db/database.cpp:222-300 | they are the rows readers saw if and only if just the loose insertions were deleted |
| `Recovery.CutIsEarlier` | src/db/database.cpp:222-300 | every prefix of the log is the log of an earlier state of the run |
| `Recovery.RecoveryOfPast` | src/db/database.cpp:222-300 | point-in-time recovery, from any cut, is recovery of an earlier state: the one before the cut without a target, otherwise one whose records are no later than the target while the next record of the cut is |
| `Recovery.AutocommitLost` | src/db/database.cpp:289-300 | a row seen before is not recovered |
| `Recovery.DeletedComesBack` | src/db/database.cpp:286-300 | a deleted row is recovered |
| `LogRecords.WriteInsert` | src/recovery/wal.cpp:176-199 | the payload of an insert record, put together column by column |
| `LogRecords.ReadColumns` | src/db/database.cpp:289-325 | the cursor of replay through it reads exactly the columns it holds |
| `LogRecords.ReadBackRec` | src/recovery/wal.cpp:159-255 | every record reads back as the operation that wrote it, values and row ids included |
| `LogRecords.Append` | src/recovery/wal.cpp:119-157 | if the segments hold the log of a run, they hold it with one more operation afterwards |
| `LogRecords.Truncate` | src/recovery/wal.cpp:90-111 | removing segments leaves them holding the log from a later LSN on, no later than asked for |
| `LogRecords.DiskRecovers` | src/db/database.cpp:222-409 | recovery from the bytes of a log cut anywhere, its head truncated up to the checkpoint LSN, is recovery of the log up to the cut |
| `LogRecords.DiskAsCoded` | src/db/database.cpp:222-409 | as coded, it applies just the same insertions |
| `LogRecords.DiskIsPast` | src/db/database.cpp:222-409 | for every run, cut and target time: recovery from the bytes is recovery of an earlier state of the run, the last one before the cut and the target |
| `ColumnBytes.EncodeStrings` | src/storage/table.cpp:533-549 | length-prefixed strings become cumulative offsets and a blob |
| `ColumnBytes.ReadsBack` | src/query/executor_mutate.cpp:228-266 | every row of a page or scan reads back as inserted |
| `ColumnReads.ScanStrings` | src/query/executor_scan.cpp:140-205 | scanning pages of strings gives the form of all their rows together |
| `ColumnReads.ScanFixed` | src/query/executor_scan.cpp:163-171 | scanning pages of fixed-size values appends them |
| `ColumnReads.LookupPage` | src/storage/table_read.cpp:59-71 | the upper bound finds the page of a row, or that no page has it |
| `ColumnReads.FromBatch` | src/storage/table_read.cpp:73-111 | a row of a pending batch, strings skipped one by one |
| `ColumnReads.FindCell` | src/storage/table_read.cpp:56-141 | pages first, then batches; a row in neither reads as zero |
| `ColumnReads.ReadRows` | src/storage/table_read.cpp:27-202 | the rows with the given ids, in that order, in the form of a scan |
| `ColumnReads.GatherAgrees` | src/storage/table_read.cpp:142-191 | gathering by id, from pages or batches, agrees with scanning and picking |
| `PageLayout.DataApart` | src/storage/table.cpp:524-558 | column regions are aligned, disjoint, after the header and before the bitmaps |
| `PageLayout.NullsApart` | src/storage/table.cpp:525-558 | bitmap regions are aligned, disjoint and inside the payload |
| `PageLayout.WritePayload` | src/storage/table.cpp:464-558 | the payload holds the batch header, the metadata of every column, every column at the place its metadata says, and a zero bitmap each |
| `PageLayout.NoneNull` | src/storage/table.cpp:524-558 | on a page as written no cell is null: each row has its bit in the column's own bitmap, and it is clear |
| `PageFile.WritePage` | src/storage/table.cpp:462-559 | for every schema and batch, a sealed page that validates and whose metadata lead to every column |
| `PageFile.ColumnRead` | src/query/executor_scan.cpp:128-171 | slicing such a page as its metadata say gives the cells written, for every column |
| `PageFile.PageInFile` | src/storage/table_read.cpp:213-236 | in a file of sealed pages, reading at a page's offset gives that page, and the next one begins behind it |
| `PageFile.Appended` | src/storage/table.cpp:499-562 | a page with the next rows at the end of the file keeps the page list right |
| `PageFile.ScanColumn` | src/query/executor_scan.cpp:99-209 | the walk over the file gives the rows on its pages, in the form of a scan |
| `PageFile.PickColumn` | src/storage/table_read.cpp:27-202 | going to pages by offset gives the rows asked for |
| `TableContent.GrownOk` | src/storage/table.cpp:114-174 | pages, queued batches and active batch hold the rows one after the other, also with one row more |
| `TableContent.FlushQueue` | src/storage/table.cpp:427-460 | and also with every batch written as a page |
| `TableReads.ReadsAll` | src/storage/table_read.cpp:56-141 | every row is found on a page or in a batch |
| `DiskTable.Disk.Insert` | src/storage/table.cpp:114-174 | a row with the wrong number of columns is refused and nothing changes; otherwise the bytes hold the rows and the one inserted, under the next row id |
| `DiskTable.Disk.Flush` | src/storage/table.cpp:427-460 | every pending row is on a page; rows, order and ids are unchanged |
| `DiskTable.Disk.ScanColumn` | src/query/executor_scan.cpp:99-209 | the rows on pages read back as they were inserted, for every column of every schema |
| `DiskTable.Disk.PickColumn` | src/storage/table_read.cpp:27-202 | any rows by id read back as inserted, on pages or pending |
| `PageRecovery.Recover` | src/storage/table.cpp:600-643 | the loop, on any file: what it keeps and finds is the walk from page to page up to the first bytes that are not one |
| `PageRecovery.OpenedBroken` | src/storage/table.cpp:600-643 | of a file with a broken tail the whole pages are found, with their rows and offsets, and the tail is cut off unless it is shorter than a header or there is no page |
| `PageRecovery.SameEntries` | src/storage/table.cpp:631-641 | what is found is the page list that the table had |
| `PageRecovery.TornBroken` | src/storage/table.cpp:609-629 | a page torn anywhere is such a tail |
| `PageRecovery.LeftoverExact` | src/storage/table.cpp:603-629 | pages behind 1 to 31 bytes of a torn page: the two do not make a page if and only if fewer than four bytes are left, or the size in the mixed header is beyond the file, or its checksum is another |
| `PageRecovery.PagesRemoved` | src/storage/table.cpp:603-629 | behind such a leftover, any number of later pages are not found and are removed from the file, if and only if the two do not make a page |
| `PageRecovery.PagesLost` | src/storage/table.cpp:607-614 | behind one to three bytes, all later pages are lost |
| `PageRecovery.NeverFound` | src/storage/table.cpp:607-614 | a file that begins without the magic stays and shows no page, whatever is appended |
| `VacuumColumns.PrefixStrings` | src/storage/table_vacuum.cpp:63-80 | scanned strings get their length prefixes back |
| `VacuumColumns.CutBatch` | src/storage/table_vacuum.cpp:104-147 | the bytes of a batch are those of its rows |
| `Vacuum.CollectAlive` | src/storage/table_vacuum.cpp:37-43 | exactly the visible rows, in order |
| `Vacuum.PendingColumns` | src/storage/table_vacuum.cpp:53-85 | the columns of the surviving rows, read by id, in pending form |
| `Vacuum.CutColumns` | src/storage/table_vacuum.cpp:104-147 | the columns of a batch are those of its rows |
| `Vacuum.Rewrite` | src/storage/table_vacuum.cpp:90-157 | the file holds exactly the surviving rows, on contiguous pages of at most 8192 rows numbered from zero, with one version each |
| `Vacuum.Run` | src/storage/table_vacuum.cpp:19-159 | the file afterwards holds exactly the rows seen at the end, in order and byte for byte, renumbered, and every later snapshot sees them all |
| `CrcTable.EntryIsBits` | src/storage/page.cpp:9-42 | each table entry is eight bit steps of polynomial division |
| `Crc32c.Compute` | src/storage/page.cpp:44-50 | the loop computes the checksum function |
| `Crc32c.StepDivides` | src/storage/page.cpp:47 | the table-driven step is eight bit steps of the register with the byte mixed in |
| `Crc32c.Chained` | src/storage/page.cpp:62-63 | header then payload is the checksum of both together |
| `Crc32c.BurstDetected` | src/storage/page.cpp:44-50 | a change within four bytes in a row, in data of any length, changes the checksum |
| `Crc32c.CheckValue` | src/storage/page.cpp:9-50 | the nine digits have the check value of CRC32C, 0xE3069283 |
| `PageSeal.SetPageChecksum` | src/storage/page.cpp:57-65 | the header gets the checksum of header and payload |
| `PageSeal.Le32Means` | src/storage/page.cpp:57-65 | the four bytes of a header field give its number back, lowest byte first |
| `PageSeal.ValidatePage` | src/storage/page.cpp:67-86 | accepts exactly the magic and the matching checksum |
| `PageSeal.SealAccepted` | src/storage/page.cpp:57-86 | a sealed page is accepted with its checksum and with no other |
| `PageSeal.DamageRejected` | src/storage/page.cpp:67-86 | damage within four bytes in a row of header or payload is rejected |
| `PageSeal.ByteRejected` | src/storage/page.cpp:67-86 | any one changed payload byte is rejected |
| `Simd.MatchingMeans` | src/query/simd_ops.hpp:26-52 | exactly the matching indices, ascending |
| `Simd.FilterScalar` | src/query/simd_ops.hpp:26-52 | the scalar loop |
| `Simd.LowestCleared` | src/query/simd_ops.hpp:228-232 | masking with one less clears the lowest bit and nothing else |
| `Simd.FilterAvx2` | src/query/simd_ops.hpp:60-190 | four or eight lanes with a scalar tail give the scalar result for every length |
| `Simd.FilterAvx512` | src/query/simd_ops.hpp:201-319 | eight or sixteen lanes, lowest set bit first, give the scalar result for every length |
| `Filters.FilterInts` | src/query/simd_ops.hpp:325-341 | whichever kernel runs, the result is the same |
| `Filters.CastExact` | src/query/executor_filter.cpp:254-259 | comparing with the cast literal is right for every 32-bit value if and only if the literal is safe |
| `Filters.CastInExact` | src/query/executor_filter.cpp:163-177 | an IN list is right for every 32-bit value if and only if each literal's cast is itself in the list |
| `Filters.PredicateExact` | src/query/executor_filter.cpp:163-263 | a predicate is right for every 32-bit value if and only if its literals are safe |
| `Filters.NeitherSelected` | src/query/executor_filter.cpp:41-58 | a DOUBLE value is selected by neither = nor <> if and only if it is close to the literal and not equal |
| `Filters.IntersectionMeans` | src/query/executor_filter.cpp:103-109 | the intersection of ascending lists |
| `Filters.UnionMeans` | src/query/executor_filter.cpp:120-126 | the union of ascending lists |
| `Filters.EvaluateAtom` | src/query/executor_filter.cpp:131-314 | exactly the non-null rows that satisfy the predicate, ascending; what that means for text, DOUBLE and integer columns: `Filters.TextSelected`, `Filters.RealSelected`, `Filters.IntSelected`, `Filters.IntListed` |
| `Filters.TextLessMeans` | src/query/executor_filter.cpp:60-81 | one text is less than another if and only if they agree on some first k bytes and there the first ends, or has the smaller byte |
| `Filters.TextSelected` | src/query/executor_filter.cpp:60-81 | the rows of a text column that each operator selects: < by the first differing byte, > its converse, <= and >= with equality, =, <> and IN by equality |
| `Filters.RealSelected` | src/query/executor_filter.cpp:41-58 | the rows of a DOUBLE column that each operator selects, as comparisons of numbers, with the tolerance of <> |
| `Filters.IntSelected` | src/query/executor_filter.cpp:179-263 | the rows of an integer column that each operator selects; a 32-bit column compares with the number that the low 32 bits of the literal stand for, except for <> |
| `Filters.IntListed` | src/query/executor_filter.cpp:146-177 | the rows of an integer column that IN selects, with the low 32 bits of the listed literals for a 32-bit column |
| `Filters.NullMeans` | src/query/executor_filter.cpp:131-145 | row i is null if and only if bit i of the bitmap, read as one number, is set |
| `Filters.Evaluate` | src/query/executor_filter.cpp:83-317 | an error exactly for an unknown column; otherwise exactly the rows satisfying the tree, ascending; against the clause as written: `Where.SelectWhere` |
| `Filters.EvaluateWhere` | src/query/executor_filter.cpp:83-93 | without an expression, every row |
| `Filters.SafeSatisfies` | src/query/executor_filter.cpp:83-317 | where every predicate on a 32-bit column has safe literals, what is selected is what the expression means |
| `IndexedSelect.DistinctAgrees` | src/query/executor_select.cpp:186-233 | if no two rows hold the key, index path and scan path give the same list at every snapshot if and only if the key does not occur or the filter compares such a literal with the column; which value the key stands for: `IndexedSelect.IndexAnswers` |
| `IndexedSelect.IndexSound` | src/query/executor_select.cpp:186-233 | the index path gives no row the scan path does not, under the same condition and only then |
| `IndexedSelect.AgreesExactly` | src/query/executor_scan.cpp:212-275 | they give the same rows in every state if and only if the key does not occur, or straddles no separator and the filter compares such a literal with the column |
| `IndexedSelect.IndexAnswers` | src/query/executor_scan.cpp:212-275 | every row of the answer exists, is visible and holds the value that the literal asks for by column type: in a BOOL column 1 exactly for a nonzero integer, in an integer column the integer or zero for another literal; no visible row that holds it is missing unless the value straddles a separator |
| `IndexedSelect.TypesDisagree` | src/query/executor_scan.cpp:226-258 | BOOL = 1, integer = text and DOUBLE = integer: the index path finds a row that the scan path does not |
| `Select.SelectRows` | src/query/executor_select.cpp:186-233 | the executor, on the pages of the index, the filter and the version index, gives the rows of the index path, falling back to the scan for a key that the index does not hold; each row is visible and holds the value asked for, and none is missing unless that value straddles a separator |
| `Grammar.WrittenParses` | src/query/parser.cpp:590-717 | whatever is written in the grammar is read back with its meaning, consuming exactly its tokens |
| `Grammar.PrintedParses` | src/query/parser.cpp:590-717 | parsing inverts printing, with all parentheses and with as few as precedence needs |
| `Grammar.ExprRead` | src/query/parser.cpp:650-717 | whatever parses was written in the grammar |
| `Grammar.ParsesExactly` | src/query/parser.cpp:590-717 | the parser accepts exactly the grammar: AND tighter than OR, both to the left |
| `WhereParser.Parser.ParseColumnRef` | src/query/parser.cpp:719-790 | column references and aggregates, moving past exactly their tokens |
| `WhereParser.Parser.ParsePredicateTokens` | src/query/parser.cpp:590-648 | a comparison or an IN list |
| `WhereParser.Parser.ParsePrimaryExpr` | src/query/parser.cpp:696-717 | a predicate or a parenthesized expression |
| `WhereParser.Parser.ParseAndChain` | src/query/parser.cpp:673-694 | the AND loop does what the grammar says |
| `WhereParser.Parser.ParseWhere` | src/query/parser.cpp:650-671 | the OR loop does what the grammar says; the recursion terminates because every call consumes tokens |
| `Where.TrueSatisfies` | src/query/executor_filter.cpp:83-317 | the tree handed to the filter is satisfied by exactly the rows of which the clause is true as it is written |
| `Where.SelectWhere` | src/query/executor_filter.cpp:83-317 | tokens to rows: refused if and only if not in the grammar, an error exactly for an unknown column, otherwise exactly the rows of which the written clause is true, ascending |

## Left out

- VARCHAR keys of the index: the in-place path leaves old bytes behind a short key, and keys are cut at 256 bytes.
- NaN and rounding: DOUBLE values are real numbers, their bytes are read and written by given functions, and the kernels for them are taken to compare exactly.
- Finer interleaving of commit_rows with flushing than one atomic step: a batch in a flusher's hands is in none of the three places it looks.
- The reader-writer lock in `BatchPool`: only vacuum takes it exclusively together with batches, and vacuum is not part of that protocol.
- Autocommit insertion draws its timestamp under the batch lock; `Mvcc` takes drawing and inserting as one step.
- Full-page images, batch insert records as one record (they are several here), hot backup and retention.
- Log payloads that end in the middle of a column: replay reads past their end, `LogRecords.ReadColumns` passes the record over; no record written reads so (`LogRecords.ReadBackRec`).
- The checksum in log records and in `PageFile` is any 32-bit function; CRC32C and what it detects are proved in `Crc32c` and `PageSeal`.
- Replay on top of pages flushed after the last checkpoint, and transactions that span a checkpoint: the program does not reconstruct them.
- Columns added after a page was written (missing columns in the readers), and null bitmaps with bits set: the program writes only zero bitmaps.
- Serialization of the version index, and reopening a database with in-flight versions in it.
- GROUP BY, ORDER BY, joins, aggregates, LIMIT and OFFSET.
- The tokenizer, number parsing, DDL and configuration statements, command line, C and Python bindings.
- Null bitmaps on the read side: for a page of only empty strings the scan skips appending the page's bitmap, so bitmap and rows can go out of step; the readers here have no bitmaps.
- Steps of others between the deletion and the insertions of an UPDATE outside a transaction: `AutoUpdate` takes them as following each other.
- Several runs of the database in one log, for `Recovery` and `Checkpoint`, which are about the log of one run; `Restarts.RunsExact` puts runs together.
- The byte budget of one collector round, which only decides how many tables it prunes.
- I/O failures, memory mapping, background threads and their timing.
- Database.Db.InsertTx: for a finished transaction the model does nothing; the program does not look at the transaction's state and writes a row that keeps the flagged id.
- Database.Db.DeleteTx: takes row ids that the index shows at the transaction's snapshot, and does nothing for a finished transaction; the program takes any ids and does not look at the transaction's state.
- Database.Db.DeleteAuto: takes row ids that the index shows at some issued timestamp; the program takes any ids.
- TableStore.Store.FlushPending: takes the file offsets of the new pages as given; `DiskTable.Disk.Flush` computes them.
- TableStore.Store.WriteBatch: the versions only; `DiskTable.Disk.Flush` writes the bytes.
- Vacuum.Run: without open transactions, for which the program does not check; rebuilding the indexes afterwards is not modelled.
