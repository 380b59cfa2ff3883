# Quereus storage and synchronisation, verified

This project states and proves, in Dafny, what the storage and synchronisation layers of Quereus promise. It models five
parts of the repository in their own form: pure code as functions, code that changes things step by step as classes,
arrays and loops proved against functions.

- **Transaction isolation** (`Rows`, `MergedView`, `WriteRules`, `WriteTheorems`, `ConflictLaws`, `IsolatedTable`, `MergeScan`,
  `Flush`, `Savepoints`, `PkRekey`, `OverlayMigration`, `TableLifecycle`, `StatementLaws`, `IsolationModule`). A connection stages live rows and deletion
  markers over shared committed tables. A collation enters only as a folding function; folding the key cells gives a row's identity. The
  merged view is the one abstract meaning: writes, scans, flush, commit, savepoints and schema changes are all related to it.
- **Sync watermarks** (`SyncPush`, `SyncClient`, `SyncPull`). Client, channel and server are one state machine. The server's
  contract is assumed: it acknowledges a push only after applying it, and answers a pull with a contiguous run of its log.
- **Key encoding** (`ByteOrder`, `Doubles`, `NumericKey`, `KeyEncoding`). Escaped parts, descending columns, composite keys
  and the 17-byte number key, over exact binary64 arithmetic. `g` is the exponent of the smallest subnormal, 1074 for binary64.
- **LRU cache** (`LruCache`). The hand-linked list, the map into it and the byte total, against the wrapped store.
- **Diffing and paging** (`BackingHost`, `RangeScan`). The keyed difference of a derived table, and three range iterators held
  to one specification.

`Collections` holds the few facts about sets and sequences that several modules share.

`WriteRules.Stage` is what one call of the isolated table's `update` stages; `WriteRules.Plain` is the same write on one keyed
table, all or nothing. `WriteTheorems.Diverges` names the writes for which the two differ. These claims are about the call itself.
The statement executor wraps calls in savepoints and undoes a refused one (`packages/quereus/src/runtime/emit/dml-executor.ts:961-1080`);
a write skipped under IGNORE raises no error, so nothing above undoes what it left.

`ConflictLaws` and `StatementLaws` say what writes and statements do in terms of rows, keys, actions and views alone: which
action decides, what is answered, what is refused, poisoned or carried, and who sees what.

Several promises hold only under a condition. For these the project proves the exact condition and gives a concrete input that
breaks the promise: a move onto a live staged row, a refusal after an eviction, releasing an outer savepoint, a rename onto a
name with a surviving poisoned overlay, a re-key to a finer collation, a marker that names no committed row, cache entries
growing in place, a replacement that repeats a new key, and a primary-key scan whose window a staged row has left.

An ALTER is given by its row images: what a live row becomes, what a marker becomes, and the schema they have then. Keys follow
from the images, so an overlay cannot be carried to anything but its own entries. `OverlayMigration` has such a change for ADD
COLUMN, for DROP COLUMN, and for ALTER COLUMN inside and outside the key.

Two comments in the source promise more than the code does, and the model follows the code. The one above `writeRelocatedRow`
(`isolated-table.ts:1583-1587`) says a live staged row at the new key has been rejected before; `checkMergedPKConflict` lets it
through (line 1651). The ones in `renameTable` (`isolation-module.ts:1865-1867`) say staged overlays stay visible under the new
name; an overlay already stored under that name is overwritten (line 1970).

`dafny verify dfyconfig.toml` checks the whole project.

## Model

| member | source | states |
|---|---|---|
| `Rows.MarkerRowKeepsKey` | packages/quereus-isolation/src/isolated-table.ts:1615-1630 | A deletion marker minted from a key tuple names exactly that key, whatever spelling the collation folds. |
| `Rows.AtMostOneConflict` | packages/quereus-isolation/src/isolated-table.ts:1886-1930 | In contents that satisfy their UNIQUE constraints, a new row meets at most one row per constraint, so the row the search happens on is the only one. |
| `Rows.OutsideIsNeverInConflict` | packages/quereus-isolation/src/isolated-table.ts:1898-1904 | A row outside a partial predicate, or with a NULL in a constrained column, is neither stopped by the constraint nor in another row's way. |
| `Rows.ConflictsExactly` | packages/quereus-isolation/src/isolated-table.ts:1803-1820 | Any other row meets exactly the rows inside the predicate that share its constrained values, each under its column's declared comparison. |
| `Rows.SameKeyExactly` | packages/quereus-isolation/src/isolated-table.ts:1552-1566 | Two spellings name one row exactly when each key cell is equal under its column's declared comparison. |
| `Rows.SeekCoversClashes` | packages/quereus-isolation/src/isolated-table.ts:1855-1874 | Under the gate on using an index, every row that clashes lies in the sought index key: the seek misses no conflict. |
| `MergedView.MarkerHides` | packages/quereus-isolation/src/overlay-rows.ts:95-116 | Staging a marker removes exactly that key from the connection's view. |
| `MergedView.LiveShows` | packages/quereus-isolation/src/overlay-rows.ts:95-116 | Staging a row puts exactly that row into the connection's view. |
| `MergedView.NothingStagedShowsCommitted` | packages/quereus-isolation/src/overlay-rows.ts:95-116 | With nothing staged the view is the committed table. |
| `WriteTheorems.JudgeClears` | packages/quereus-isolation/src/isolated-table.ts:1886-1930 | A clear verdict leaves nothing, outside the writer's own keys and the evicted rows, that the new row clashes with under any constraint. |
| `WriteTheorems.JudgeEvicts` | packages/quereus-isolation/src/isolated-table.ts:1906-1919 | Evicted rows are rows of the merged view and never the writer's own. |
| `WriteTheorems.EvictAllHides` | packages/quereus-isolation/src/isolated-table.ts:1912-1919 | Evictions stage markers whose joint effect is the view without exactly the evicted keys. |
| `WriteTheorems.UnchangedColumnsAreClear` | packages/quereus-isolation/src/isolated-table.ts:1338-1341 | Skipping the UNIQUE check when no constrained or predicate column changed is sound: the check would have found nothing. |
| `WriteTheorems.StageMeansPlainExactly` | packages/quereus-isolation/src/isolated-table.ts:1153-1450 | For every write under every conflict action, the merged view afterwards is that of the same write on one plain table, if and only if the write does not diverge: no move onto a live staged row without REPLACE, and no refusal after an eviction. |
| `WriteTheorems.StageKeepsUniques` | packages/quereus-isolation/src/isolated-table.ts:1153-1450 | Every write, diverging ones included, keeps all UNIQUE constraints true of the merged view and every staged entry at its own key. |
| `WriteTheorems.RunMeansPlain` | packages/quereus-isolation/src/isolated-table.ts:1153-1450 | Over any run of non-diverging writes the view tracks one plain table step by step and the constraints hold throughout. |
| `WriteTheorems.NothingEvictedBeforeStop` | packages/quereus-isolation/src/isolated-table.ts:1886-1930 | Under a statement action, or with replacing constraints declared last, a stopped write has evicted nothing. |
| `WriteTheorems.OrdinaryWritesNeverDiverge` | packages/quereus-isolation/src/isolated-table.ts:1320-1341 | With a statement action or the replacing constraints declared last, and no live staged row at a moving row's new key, no write diverges: both can be checked before the call. |
| `WriteTheorems.AnswersAgree` | packages/quereus-isolation/src/isolated-table.ts:1483-1515 | Outside a move onto a live staged row, the answer, the evicted rows and the displaced row reported to the writer are those of the plain write. |
| `WriteTheorems.StagingUniqueCheckIsInert` | packages/quereus-isolation/src/isolated-table.ts:1329-1351 | After a clear verdict the staging table's own UNIQUE re-check finds nothing in the way. |
| `WriteTheorems.MoveOntoStagedRowLosesTheRow` | packages/quereus-isolation/src/isolated-table.ts:1352-1382 | Concrete failure under every action but REPLACE: moving a row onto a live staged row is refused, or skipped under IGNORE, yet the moved row is gone from the view. |
| `WriteTheorems.StopAfterEvictionKeepsTheEviction` | packages/quereus-isolation/src/isolated-table.ts:1898-1928 | Concrete failure for every later action but REPLACE: one constraint evicts, the next refuses or ignores, nothing is written and the eviction stays. |
| `ConflictLaws.HeldKeyDecidesInsert` | packages/quereus-isolation/src/isolated-table.ts:1236-1272 | An insert onto a key the view holds, under the statement's action, else the key's own, else ABORT: IGNORE skips and ABORT, FAIL and ROLLBACK refuse naming the row there, with the overlay unchanged; REPLACE with no clash writes the row and reports the one displaced. |
| `ConflictLaws.HeldKeyDecidesMove` | packages/quereus-isolation/src/isolated-table.ts:1644-1669 | The same for a move: a committed row at the new key skips or refuses with the overlay unchanged, and under REPLACE the row moves and the displaced one, committed or staged, is reported. |
| `ConflictLaws.StagedKeyDecidesMove` | packages/quereus-isolation/src/isolated-table.ts:1589-1613 | A live staged row at the new key skips or refuses by the same action, and the moved row is gone from the view. |
| `ConflictLaws.HeldKeyDecidesPlain` | packages/quereus-isolation/src/isolated-table.ts:2196-2201 | On one plain table the same actions skip, refuse or replace, with nothing else changed. |
| `ConflictLaws.UniqueClashDecides` | packages/quereus-isolation/src/isolated-table.ts:1886-1930 | The first UNIQUE constraint in the way decides by the statement's action, else its own, else ABORT: IGNORE skips, the refusing actions refuse naming the one clashing row, and nothing staged changes; the plain write answers alike. |
| `ConflictLaws.ReplaceEvicts` | packages/quereus-isolation/src/isolated-table.ts:1912-1919 | Under REPLACE the one clashing row leaves the view, the write lands, and the answer names the row that left. |
| `ConflictLaws.FreeInsertIsWritten` | packages/quereus-isolation/src/isolated-table.ts:1262-1282 | An insert at a free key with no clash adds exactly that row to the view and reports nothing displaced. |
| `ConflictLaws.FreeUpdateIsWritten` | packages/quereus-isolation/src/isolated-table.ts:1284-1383 | An update in place or to a free key with no clash leaves the row at its key and its old key empty, and changes nothing else. |
| `ConflictLaws.DeleteIsRemoved` | packages/quereus-isolation/src/isolated-table.ts:1385-1445 | A delete removes exactly its key from the view. |
| `IsolatedTables.IsolatedTable.GetOverlayRow` | packages/quereus-isolation/src/isolated-table.ts:1519-1523 | Finds the staged entry at a key from an answer that may be any superset in any order. |
| `IsolatedTables.IsolatedTable.GetUnderlyingRow` | packages/quereus-isolation/src/isolated-table.ts:1568-1571 | Finds the committed row at a key the same way. |
| `IsolatedTables.IsolatedTable.FindMergedUniqueConflict` | packages/quereus-isolation/src/isolated-table.ts:1692-1715 | The two phases together report a row exactly when some merged row outside the writer's own keys clashes, and then report such a row. |
| `IsolatedTables.IsolatedTable.FindOverlayUniqueConflict` | packages/quereus-isolation/src/isolated-table.ts:1725-1748 | The staged phase reports a clash exactly when a live staged row outside the self keys clashes. |
| `IsolatedTables.IsolatedTable.FindUnderlyingUniqueConflict` | packages/quereus-isolation/src/isolated-table.ts:1758-1789 | The committed phase, by scan or by index seek, reports a clash exactly when an unshadowed committed row outside the self keys clashes. |
| `IsolatedTables.IsolatedTable.CheckMergedPKConflict` | packages/quereus-isolation/src/isolated-table.ts:1644-1669 | Stops the write by the key's action, or names the committed row it displaces, exactly when a committed row no staged entry names sits at the key; ConflictLaws.HeldKeyDecidesMove says what each action answers. |
| `IsolatedTables.IsolatedTable.CheckMergedUniqueConstraints` | packages/quereus-isolation/src/isolated-table.ts:1886-1930 | The loop over constraints computes the verdict of the constraints taken in order, and stages exactly its evictions. |
| `IsolatedTables.IsolatedTable.WriteRelocatedRow` | packages/quereus-isolation/src/isolated-table.ts:1589-1613 | A row lands over a marker at its new key, else by an insert that judges live staged rows. |
| `IsolatedTables.IsolatedTable.InsertTombstoneForPK` | packages/quereus-isolation/src/isolated-table.ts:1615-1630 | Leaves a marker minted from the key, whether or not the key was staged. |
| `IsolatedTables.IsolatedTable.Update` | packages/quereus-isolation/src/isolated-table.ts:1153-1450 | One statement: the staged overlay and the answer are those of the write rules, constraints stay true, and the view agrees with the plain table exactly when the write does not diverge. |
| `MergeScan.MergeStreams` | packages/quereus-isolation/src/merge-iterator.ts:24-87 | One pass over two ordered streams emits, in order and without repeats, exactly the live staged rows and the committed rows no staged entry names. |
| `MergeScan.WindowedEntries` | packages/quereus-isolation/src/isolated-table.ts:896-933 | From an answer that may hold extra entries in any order, keeps every marker and exactly the live entries inside the window, none twice. |
| `MergeScan.MergedPrimaryQuery` | packages/quereus-isolation/src/isolated-table.ts:479-500 | For any window on rows and any superset answer, the primary-key merge yields every row of the merged view in the window, once, in the walk's order; it yields nothing else if and only if no staged row that left the window, and no marker the staging module kept back, hides a committed row of the window. |
| `MergeScan.KeyWindowsNeverLeak` | packages/quereus-isolation/src/isolated-table.ts:886-895 | A window on the key alone leaks nothing once the staging module returns the markers it holds there: the merge is then exact. |
| `MergeScan.OverwrittenRowLeaks` | packages/quereus-isolation/src/isolated-table.ts:911-923 | Concrete failure for a window on another column: the staged row has left it, the committed one has not, and the merge yields a row the connection has overwritten. |
| `MergeScan.MergedSecondaryIndexQuery` | packages/quereus-isolation/src/isolated-table.ts:521-610 | The index merge yields exactly the merged view restricted to any window, each row once, in index order. |
| `MergeScan.SplitScan` | packages/quereus-isolation/src/isolated-table.ts:552-572 | The overlay scan is split into the set of touched keys and the live rows in the window. |
| `MergeScan.IterateEffectiveRows` | packages/quereus-isolation/src/overlay-rows.ts:95-116 | The streaming form yields exactly the rows of the merged view, each once. |
| `MergeScan.OrderedScanIsUnique` | packages/quereus-isolation/src/isolated-table.ts:944-991 | Two scans with the same rows in the same strict order are the same sequence: the three merges cannot differ in order either. |
| `MergeScan.ReversedScanIsBackward` | packages/quereus-isolation/src/isolated-table.ts:944-991 | Scanning under the reversed comparison is the forward scan read backward. |
| `Flush.FlushOrderIsImmaterial` | packages/quereus-isolation/src/flush.ts:57-109 | Whatever order the staged entries are written in, the table ends as the merged view. |
| `Flush.EarlyProbesAgree` | packages/quereus-isolation/src/flush.ts:61-78 | Asking whether each key exists before the first write gives the answer each write would have seen. |
| `Flush.ScanRebuildsOverlay` | packages/quereus-isolation/src/overlay-rows.ts:55-73 | Any enumeration of an overlay's entries rebuilds that overlay. |
| `Flush.DeletesFirst` | packages/quereus-isolation/src/flush.ts:57-59 | Reordering puts deletions ahead of writes and loses or repeats nothing. |
| `Flush.ApplyOverlayToUnderlying` | packages/quereus-isolation/src/flush.ts:29-110 | A flush that succeeds leaves the pending contents equal to the merged view and commits nothing; no write meets a taken key, so only storage can fail it. |
| `Flush.UnderlyingTable.RowExists` | packages/quereus-isolation/src/pk-probe.ts:113-124 | The probe finds a key by checking every returned row's key. |
| `Savepoints.SoundStep` | packages/quereus-isolation/src/isolated-table.ts:2124-2158 | Every savepoint, rollback and write, and every release with no recorded depth just above it, keeps the recorded pre-overlay depths and the snapshots in step. |
| `Savepoints.ReachedIsSound` | packages/quereus-isolation/src/isolated-table.ts:2124-2158 | The invariant holds in every state such a run reaches from the start; nothing is assumed of the states on the way. |
| `Savepoints.RollbackRestores` | packages/quereus-isolation/src/isolated-table.ts:2146-2158 | From the start of a transaction, through any run whose releases clear their records, take a savepoint, run on leaving it open, roll back to it: the connection sees exactly what it saw when the savepoint was taken. |
| `Savepoints.RunIsIdeal` | packages/quereus-isolation/src/isolated-table.ts:2124-2158 | Over every run whose releases clear their records, the lazily created overlay and its record of depths show at every point what one table copied at each savepoint would hold. |
| `Savepoints.ReleaseShowsTheSame` | packages/quereus-isolation/src/isolated-table.ts:2134-2137 | In any state, releasing an open depth changes nothing the connection sees. |
| `Savepoints.OnlyWritesAndRollbacksShow` | packages/quereus-isolation/src/isolated-table.ts:2124-2137 | Any run of savepoints and releases leaves the merged view as the last write or rollback left it. |
| `Savepoints.ReleaseIsSafeExactly` | packages/quereus-isolation/src/isolated-table.ts:2134-2137 | After a release, a new savepoint at the freed depth survives writes and rollback exactly when the depth just above the released one is not recorded as older than the overlay; that is also exactly when the invariant is kept. |
| `Savepoints.OuterReleaseLosesWrites` | packages/quereus-isolation/src/isolated-table.ts:2134-2137 | Concrete failure: releasing an outer depth leaves a stale inner record, and a later rollback to it discards staged rows. |
| `Savepoints.TableConnection.EnsureOverlay` | packages/quereus-isolation/src/isolated-table.ts:244-294 | Lazy creation replays the open depths onto the new overlay. |
| `Savepoints.TableConnection.OnSavepoint` | packages/quereus-isolation/src/isolated-table.ts:2124-2129 | Records the depth only while there is no overlay. |
| `Savepoints.TableConnection.OnReleaseSavepoint` | packages/quereus-isolation/src/isolated-table.ts:2134-2137 | Forgets the released depth and closes those above it; what the connection sees stays. |
| `Savepoints.TableConnection.OnRollbackToSavepoint` | packages/quereus-isolation/src/isolated-table.ts:2146-2158 | A depth older than the overlay discards it whole; any other restores that depth's snapshot. |
| `Savepoints.TableConnection.PerformAll` | packages/quereus-isolation/src/isolated-table.ts:2124-2158 | A transaction's calls in order are the run of the state machine, leave the connection sound, and show what a table copied at each savepoint would hold. |
| `TableLifecycle.SoundStep` | packages/quereus-isolation/src/isolation-module.ts:544-588 | Create, connect-then-write, alter, rename, drop, rollback and commit by any connection keep: a dirty overlay has its table open or is poisoned, a poisoned one is dirty, a clean one is empty, one whose table is gone is poisoned. |
| `TableLifecycle.ReachedIsSound` | packages/quereus-isolation/src/isolation-module.ts:544-588 | The invariant holds in every state any run of statements reaches. |
| `TableLifecycle.CommitNeverOrphans` | packages/quereus-isolation/src/isolation-module.ts:573-588 | In every reachable state a commit is refused only for poison or storage: the orphan error cannot fire. |
| `TableLifecycle.ForeignStepCarries` | packages/quereus-isolation/src/isolation-module.ts:1788-1812 | Unless a rename overwrites it, another connection's statement leaves a dirty overlay under its table's present name: carried entry by entry by an ALTER, or poisoned. |
| `TableLifecycle.StagedRowsSurvive` | packages/quereus-isolation/src/isolation-module.ts:1010-1041 | Through any run of other connections' statements without an overwriting rename, the overlay is still there, under the table's present name, as the ALTERs and DROPs of that table alone have carried or poisoned it. |
| `TableLifecycle.NothingVanishesFromCommit` | packages/quereus-isolation/src/isolation-module.ts:556-633 | After such a run, a commit that succeeds leaves the image of every live staged row in the table, at its own key under the present schema, no row where a deletion's image is still staged, nothing that is not such an image, and every other row as it was. |
| `TableLifecycle.RecollatedRowsCommit` | packages/quereus-isolation/src/isolation-module.ts:1788-1812 | Another connection re-collates the key: every live row staged here commits as it was staged, found under the new comparison. |
| `TableLifecycle.BackfilledRowsCommit` | packages/quereus-isolation/src/isolation-module.ts:1788-1812 | Another connection makes a key column NOT NULL: every live row staged here commits with the default filled in. |
| `TableLifecycle.IssuerSeesCarriedViewExactly` | packages/quereus-isolation/src/isolation-module.ts:1713-1786 | After an in-place ALTER its issuer sees its old view, each row carried by the change, if and only if no marker lands on a committed row it does not delete and no hidden row loses the entry hiding it. |
| `TableLifecycle.DropBlocksCommit` | packages/quereus-isolation/src/isolation-module.ts:1022-1030 | A table dropped by another connection keeps the staged rows and blocks their commit. |
| `TableLifecycle.RenameKeepsOverlaysExactly` | packages/quereus-isolation/src/isolation-module.ts:1956-1973 | A rename loses no overlay if and only if no connection has overlays under both names. |
| `TableLifecycle.RenameOverPoisonedLosesRows` | packages/quereus-isolation/src/isolation-module.ts:1956-1973 | Concrete failure: renaming onto a dropped name whose poisoned overlay survives overwrites it, and the connection can commit without those rows. |
| `TableLifecycle.StrandedIsReached` | packages/quereus-isolation/src/isolation-module.ts:1010-1041 | The state of that failure is reached by five ordinary statements. |
| `TableLifecycle.CommitPublishesViews` | packages/quereus-isolation/src/isolation-module.ts:556-633 | A commit makes every table's contents the connection's view of it and clears exactly that connection's overlays, or changes nothing; committing again does nothing. |
| `TableLifecycle.TransactionMeansPlain` | packages/quereus-isolation/src/isolation-module.ts:556-633 | End to end: a connection with nothing staged stages non-diverging writes on one table and commits, and the table is as after the same writes on one plain table, constraints holding. |
| `TableLifecycle.FormedStep` | packages/quereus-isolation/src/isolation-module.ts:1593-1814 | Stored rows and usable staged entries stay at their own keys under their table's present schema, through every ALTER that does not stop inside its issuer's own validated overlay. |
| `StatementLaws.AlterHappensExactly` | packages/quereus-isolation/src/isolation-module.ts:1607-1697 | An ALTER goes ahead if and only if its table's own grounds do not refuse, no two committed rows and no two rows the issuer sees land on one key, every row it sees is legal, and it is one in place when the issuer has rows staged. |
| `StatementLaws.IllegalOwnRowRefuses` | packages/quereus-isolation/src/isolation-module.ts:1640-1697 | One illegal live row in the issuer's own overlay, or two that would meet, leave everything as it was. |
| `StatementLaws.AlterRewritesTable` | packages/quereus-isolation/src/isolation-module.ts:1745-1759 | Afterwards the table has the changed schema, every committed row changed and at its own key, and nothing else; other tables are untouched. |
| `StatementLaws.AlterPoisonsExactly` | packages/quereus-isolation/src/isolation-module.ts:1800-1812 | A dirty overlay of the table is poisoned if and only if the change replaces the key, a live row in it is illegal, two of its live rows would meet, or its staging table stops. |
| `StatementLaws.PublishedRowsWereLegal` | packages/quereus-isolation/src/alter-migration.ts:574-656 | Along any run that leaves an overlay unpoisoned, at every ALTER of its table each staged live row, as carried so far, was legal: so is what every commit publishes. |
| `StatementLaws.StagedRowsCommitChanged` | packages/quereus-isolation/src/isolation-module.ts:1788-1812 | After another connection's in-place ALTER, a commit publishes every live row staged here as the change makes it, under the new schema, and each was legal. |
| `StatementLaws.NotNullRowsCommit` | packages/quereus-isolation/src/alter-migration.ts:603-613 | After another connection's SET NOT NULL with no default, every live row that commits has a value in the column. |
| `StatementLaws.UncommittedStaysUnseen` | packages/quereus-isolation/src/overlay-rows.ts:95-116 | Through any run of other connections' writes, opens and rollbacks a connection's view of every table stays as it was. |
| `StatementLaws.OwnWritesAreSeen` | packages/quereus-isolation/src/isolation-module.ts:870-905 | A connection sees its staged rows over the committed ones; a poisoned overlay refuses the write. |
| `StatementLaws.RollbackShowsCommitted` | packages/quereus-isolation/src/isolation-module.ts:454-460 | A rollback drops the staged overlay, poison and all, the connection sees the committed rows, and every other overlay is as it was. |
| `StatementLaws.RollbackUnblocks` | packages/quereus-isolation/src/isolation-module.ts:556-588 | After rolling back every table a connection can commit again, and that changes no table. |
| `StatementLaws.CommitShowsOthers` | packages/quereus-isolation/src/isolation-module.ts:556-633 | After a commit another connection sees its own staged entries over the rows the committer saw. |
| `StatementLaws.OpenStagesNothing` | packages/quereus-isolation/src/isolation-module.ts:870-905 | Opening a table leaves a clean, unpoisoned overlay or the one already there, and the connection sees what it saw. |
| `StatementLaws.CreatedIsEmpty` | packages/quereus-isolation/src/isolation-module.ts:844-856 | CREATE adds an empty table and touches nothing else; over an existing name it does nothing. |
| `StatementLaws.DroppedIsGone` | packages/quereus-isolation/src/isolation-module.ts:1010-1041 | DROP removes the table, its issuer's overlay and clean overlays of it, and leaves other connections' staged rows poisoned. |
| `StatementLaws.RenamedIsMoved` | packages/quereus-isolation/src/isolation-module.ts:1840-1889 | RENAME moves the table and a connection's staged rows to the new name: its view there is the one it had. |
| `IsolationModule.Isolation.GatherEntries` | packages/quereus-isolation/src/isolation-module.ts:557-588 | Accepts exactly when no overlay of the connection is poisoned and each dirty one has its table open; then returns each dirty one once. |
| `IsolationModule.Isolation.ApplyAll` | packages/quereus-isolation/src/isolation-module.ts:590-608 | Phase 1 applies every overlay without committing; the first failure rolls every begun table back. |
| `IsolationModule.Isolation.CommitAll` | packages/quereus-isolation/src/isolation-module.ts:610-615 | Phase 2 commits exactly what each table had pending. |
| `IsolationModule.Isolation.CommitConnectionOverlays` | packages/quereus-isolation/src/isolation-module.ts:556-633 | The two-phase commit over real tables is the commit step of the state machine or leaves everything as it was; while storage holds, only poison refuses it. |
| `IsolationModule.Isolation.Destroy` | packages/quereus-isolation/src/isolation-module.ts:1010-1041 | DROP as a loop over overlays is the drop step: foreign staged rows are poisoned, every other overlay of the table goes. |
| `IsolationModule.Isolation.RenameTable` | packages/quereus-isolation/src/isolation-module.ts:1840-1889 | RENAME as a loop re-keying overlays is the rename step, and opens the table under its new name when anything moved. |
| `IsolationModule.Isolation.AlterTable` | packages/quereus-isolation/src/isolation-module.ts:1593-1814 | ALTER judges the issuer's rows and the table's own first, re-keys the table, then validates and migrates each overlay entry by entry or poisons it: exactly the alter step. |
| `IsolationModule.Isolation.JudgeAlter` | packages/quereus-isolation/src/isolation-module.ts:1607-1697 | Everything that can refuse an ALTER is decided before anything changes, and decides it exactly. |
| `IsolationModule.Isolation.CarryOverlay` | packages/quereus-isolation/src/isolation-module.ts:1516-1554 | One overlay is validated, then migrated through its staging table, poisoned, or left, exactly as its entries and the change decide. |
| `IsolationModule.Isolation.CreateTable` | packages/quereus-isolation/src/isolation-module.ts:844-856 | CREATE opens an empty table under its name. |
| `IsolationModule.Isolation.ConnectAndWrite` | packages/quereus-isolation/src/isolation-module.ts:870-905 | A statement connects, then stages and marks its overlay dirty; a poisoned overlay refuses it. |
| `IsolationModule.Isolation.ClearOverlays` | packages/quereus-isolation/src/isolation-module.ts:454-460 | A rollback drops the overlays of the tables its connections registered. |
| `PkRekey.RekeyIsExact` | packages/quereus-isolation/src/isolation-module.ts:1713-1751 | After collapsed markers are dropped the issuer sees its old view carried through the new key, if and only if no marker lands on a committed row it does not delete and no hidden committed row loses the entry hiding it. |
| `PkRekey.CoarserRekeyIsExact` | packages/quereus-isolation/src/alter-migration.ts:940-1003 | With a key that separates nothing the old one held together, and every marker naming a committed row, the re-key is exact. |
| `PkRekey.BackfillIsExact` | packages/quereus-isolation/src/alter-migration.ts:1076-1114 | Where NULL equals only itself, a NOT NULL backfill of a key column is exact for every overlay whose markers name committed rows. |
| `PkRekey.BackfillCoarsens` | packages/quereus-isolation/src/alter-migration.ts:465-474 | Where NULL equals only itself, filling NULL in a key column never separates rows the key held together. |
| `PkRekey.ReplanFindsNothing` | packages/quereus-isolation/src/alter-migration.ts:950-975 | Planning again after the drops finds nothing to drop. |
| `PkRekey.CollapsesArePlan` | packages/quereus-isolation/src/alter-migration.ts:956-975 | What the planner collects is a drop plan: each dropped marker shares its new key with an entry that stays, and no marker that stays shares its key. |
| `PkRekey.FinerCollationResurfacesRows` | packages/quereus-isolation/src/alter-migration.ts:448-456 | Concrete failure: going from NOCASE to BINARY, a committed row that a staged spelling hid shows again. |
| `PkRekey.OrphanMarkerHidesRow` | packages/quereus-isolation/src/alter-migration.ts:920-947 | Concrete failure: a row 'A' staged and deleted under BINARY leaves a marker; once the key compares as NOCASE the marker deletes the committed row 'a'. |
| `PkRekey.RekeyedIsStaged` | packages/quereus-isolation/src/alter-migration.ts:898-918 | Re-keyed entries sit at their own keys under the new schema. |
| `PkRekey.RekeyedIsKeyed` | packages/quereus-isolation/src/isolation-module.ts:1745-1759 | So do the table's own rows, re-keyed beneath. |
| `PkRekey.BackfillKeysAgree` | packages/quereus-isolation/src/alter-migration.ts:465-474 | The key the plan computes for a tuple is the key the filled row really has, for every row and marker. |
| `PkRekey.CollectPkRekeyGroups` | packages/quereus-isolation/src/alter-migration.ts:512-530 | One group per new key, with its live tuples and marker rows in scan order. |
| `PkRekey.ValidateRekey` | packages/quereus-isolation/src/alter-migration.ts:638-655 | Refuses exactly when two staged live rows land on one new key. |
| `PkRekey.PlanPkRekeyMarkerDrops` | packages/quereus-isolation/src/alter-migration.ts:956-975 | Returns each marker beside a live row or behind another marker on its new key, once. |
| `PkRekey.StagingTable.ApplyPkRekeyMarkerDrops` | packages/quereus-isolation/src/alter-migration.ts:978-1003 | Deletes exactly the planned markers; no delete misses. |
| `PkRekey.StagingTable.ReinsertPkRekeyMarkers` | packages/quereus-isolation/src/alter-migration.ts:1015-1032 | Puts the markers back whole: the overlay is exactly as before the drops. |
| `PkRekey.StagingTable.PrepareRekey` | packages/quereus-isolation/src/isolation-module.ts:1713-1751 | Validate, plan, drop; any refusal beneath leaves the overlay as it was, success leaves entries apart under the new key. |
| `PkRekey.StagingTable.BackfillStagedNotNull` | packages/quereus-isolation/src/alter-migration.ts:1076-1114 | Rewriting row by row ends at the overlay re-keyed as a whole, and no rewrite ever lands on a taken key. |
| `OverlayMigration.AdoptionCarries` | packages/quereus-isolation/src/alter-migration.ts:752-780 | An overlay the change takes is carried whole: every live row's image is staged at its own key under the new schema, every marker's new key stays staged, and nothing but images is. |
| `OverlayMigration.AdoptionIsExact` | packages/quereus-isolation/src/alter-migration.ts:898-947 | Over the re-keyed table the carried overlay shows the old view carried row by row, if and only if no marker overshadows a row and no hidden row resurfaces. |
| `OverlayMigration.AddColumnKeepsKeys` | packages/quereus-isolation/src/alter-migration.ts:706-730 | A column added behind the others, computed for live rows and NULL for markers, moves no entry. |
| `OverlayMigration.DropColumnKeepsKeys` | packages/quereus-isolation/src/alter-migration.ts:796-810 | Dropping a column outside the key, with the key columns behind it moved up, moves no entry. |
| `OverlayMigration.AlterCellsKeepsKeys` | packages/quereus-isolation/src/alter-migration.ts:616-625 | Rewriting a column outside the key in live rows only moves no entry. |
| `OverlayMigration.AddedCells` | packages/quereus-isolation/src/alter-migration.ts:706-730 | ADD COLUMN keeps every cell and appends the computed value, NULL for a marker; a mandatory column allows no NULL. |
| `OverlayMigration.DroppedCells` | packages/quereus-isolation/src/alter-migration.ts:796-810 | DROP COLUMN takes every row, keeps the cells before the column and moves the later ones down by one. |
| `OverlayMigration.AlteredCells` | packages/quereus-isolation/src/alter-migration.ts:616-625 | ALTER COLUMN rewrites one cell of a live row and nothing of a marker. |
| `OverlayMigration.BackfilledCells` | packages/quereus-isolation/src/alter-migration.ts:1076-1114 | A key backfill takes every row, replaces NULL in its column by the default and changes no other cell. |
| `OverlayMigration.RecollatedCells` | packages/quereus-isolation/src/alter-migration.ts:898-918 | A collation change takes every row as it is. |
| `OverlayMigration.KeyKeepingIsExact` | packages/quereus-isolation/src/alter-migration.ts:752-780 | A change that keeps keys drops no marker, lets no rows meet, and shows every connection's view carried exactly. |
| `OverlayMigration.KeyBackfillIsExact` | packages/quereus-isolation/src/alter-migration.ts:905-913 | A NOT NULL backfill of a key column is exact whenever markers name committed rows. |
| `OverlayMigration.ValidateOverlayMigration` | packages/quereus-isolation/src/alter-migration.ts:574-656 | The dry run accepts exactly the overlays whose live rows are all legal and land apart; it refuses only over an illegal live row or two live rows that meet. |
| `OverlayMigration.MigrateOverlayForward` | packages/quereus-isolation/src/alter-migration.ts:752-780 | Planning, dropping and re-keying through the staging table end at the overlay carried as a whole. |
| `OverlayMigration.RekeyForCollation` | packages/quereus-isolation/src/isolation-module.ts:1713-1751 | A collation change from validation to the re-keyed overlay: a refusal leaves it as it was, success shows the issuer its carried view exactly when nothing overshadows or resurfaces. |
| `OverlayMigration.RekeyForBackfill` | packages/quereus-isolation/src/alter-migration.ts:905-913 | A key backfill from validation to the last rewritten entry: it never fails, and shows the issuer its carried view under the same condition, always when markers name committed rows. |
| `SyncPush.SoundStep` | packages/quereus-sync-client/src/sync-client.ts:754-790 | Writes, pushes, acks in any order or number, errors, closes, disconnects and handshakes keep: every push starts from an acknowledged mark and carries everything up to its end. |
| `SyncPush.MarksAreAcknowledged` | packages/quereus-sync-client/src/sync-client.ts:754-790 | In every run, each own write at or below the sent mark, in memory or persisted, has been acknowledged and is held by the server. |
| `SyncPush.PersistedClimbs` | packages/quereus-sync-client/src/sync-client.ts:754-790 | The persisted mark never moves back over any run. |
| `SyncPush.PrunedPushesHaveLanded` | packages/quereus-sync-client/src/sync-client.ts:780-787 | A pending push dropped because the mark covers it has had all its writes acknowledged. |
| `SyncPush.UnconfirmedStayUnsent` | packages/quereus-sync-client/src/sync-client.ts:1404-1410 | A write no ack has covered is offered again after any handshake. |
| `SyncPush.AckPersists` | packages/quereus-sync-client/src/sync-client.ts:768-778 | A matched ack carries the persisted mark to the end of the push and confirms all its writes. |
| `SyncPush.ConfirmedStaySent` | packages/quereus-sync-client/src/sync-client.ts:768-778 | In every run, a write an ack has covered is not offered again, not even by the session after a restart. |
| `SyncPush.RestartOffersExactly` | packages/quereus-sync-client/src/sync-client.ts:1404-1410 | In every run, the session after a restart offers exactly the own writes no ack has covered. |
| `SyncPush.OneRoundConfirmsAll` | packages/quereus-sync-client/src/sync-client.ts:754-790 | From every reached state outside a snapshot, one session that offers everything, is served and acknowledged leaves every own write on the server and confirmed, and nothing to send. |
| `SyncPush.RefusedPullStartsRecovery` | packages/quereus-sync-client/src/sync-client.ts:909-953 | A refused pull goes straight to the snapshot when nothing is left to send, sends the next batch and awaits its ack when something is, and changes nothing while a snapshot is being taken. |
| `SyncPush.SnapshotOnlyWhenDrained` | packages/quereus-sync-client/src/sync-client.ts:909-953 | A recovery snapshot starts only when every own write present at the drain's last read has been acknowledged, and never from a held push. |
| `SyncPush.FailureNeverSnapshots` | packages/quereus-sync-client/src/sync-client.ts:930-947 | After a rejected push, a lost socket or the end of the session, no run takes a recovery snapshot until the server refuses a pull again. |
| `SyncPush.AckShrinksBacklog` | packages/quereus-sync-client/src/sync-client.ts:965-983 | Each matched ack leaves strictly fewer writes past the mark, so the drain ends once writing stops. |
| `SyncClient.GetChangesToPush` | packages/quereus-sync-client/src/sync-client.ts:1494-1501 | At most the asked number of own writes: all those past the mark up to its last one, and none exactly when nothing lies past the mark. |
| `SyncClient.Client.PushLocalChanges` | packages/quereus-sync-client/src/sync-client.ts:1488-1534 | Sends the next batch past the mark and records it; drained and held are told apart exactly. |
| `SyncClient.Client.PromoteWatermark` | packages/quereus-sync-client/src/sync-client.ts:754-790 | A matched ack raises and persists the mark and drops every covered push; any other ack changes nothing. |
| `SyncClient.Client.SeedSentWatermark` | packages/quereus-sync-client/src/sync-client.ts:1404-1410 | A handshake takes the persisted mark only when it is ahead. |
| `SyncClient.Client.Disconnect` | packages/quereus-sync-client/src/sync-client.ts:348-380 | Forgets the in-memory mark and pending pushes and keeps the persisted mark. |
| `SyncClient.Client.PushUntilDrained` | packages/quereus-sync-client/src/sync-client.ts:965-983 | Returns true only with every own write acknowledged, ends, and succeeds whenever every batch leaves and is acknowledged. |
| `SyncClient.Client.HandleSnapshotRequired` | packages/quereus-sync-client/src/sync-client.ts:909-953 | Asks for a full copy only over fully acknowledged work; a held or failed push does not. |
| `SyncPull.SoundStep` | packages/quereus-sync-client/src/sync-client.ts:623-712 | Filing, requests, replies in any order, broadcasts, snapshots and closes keep: everything at or below a mark the client goes on from is applied, or about to be by a landing snapshot. |
| `SyncPull.MarkIsApplied` | packages/quereus-sync-client/src/sync-client.ts:623-712 | In every run, every server log entry at or below the received mark has been applied, outside a snapshot still landing. |
| `SyncPull.OnlyRepliesAndSnapshotsMoveMark` | packages/quereus-sync-client/src/sync-client.ts:394-408 | Only an ordered reply that reaches further and a finished snapshot move the mark; broadcasts never do. |
| `SyncPull.CaughtUpMeansComplete` | packages/quereus-sync-client/src/sync-client.ts:643-648 | The pull is reported finished only when everything the server held at that answer is here. |
| `SyncPull.OnlyEmptyRepliesEndPull` | packages/quereus-sync-client/src/sync-client.ts:643-648 | Nothing but an empty ordered reply reports the pull finished, and a new request takes the report back. |
| `SyncPull.WireRoundTrip` | packages/quereus-sync/src/sync/change-grouping.ts:126-137 | A set carries a cursor only where its filing position differs from its write time; what the client reads back is exactly what the server filed. |
| `SyncPull.ChainsEnd` | packages/quereus-sync-client/src/sync-client.ts:669-680 | A reply asks again only by bringing the mark closer to the log's end; one that does not ends its chain. |
| `SyncPull.MissedBroadcastComesAgain` | packages/quereus-sync-client/src/sync-client.ts:394-408 | An entry not yet applied lies past the mark, so the next ordered answer cannot be empty. |
| `SyncPull.BroadcastIsApplied` | packages/quereus-sync-client/src/sync-client.ts:400-408 | A broadcast of a filed entry is applied and changes nothing else; while a snapshot lands it is let go. |
| `SyncPull.PullCatchesUp` | packages/quereus-sync-client/src/sync-client.ts:623-712 | From every reached state outside a snapshot, a pull answered in full ends caught up, with the whole log applied and the mark at its end. |
| `SyncPull.SnapshotBringsAll` | packages/quereus-sync-client/src/sync-client.ts:623-712 | A snapshot that lands leaves everything filed before it began applied and the mark there. |
| `SyncPull.SnapshotKeepsItsPosition` | packages/quereus-sync-client/src/sync-client.ts:877-890 | While a snapshot is unfinished only a fresh one after it broke off moves the position it was taken at; no step moves the mark or asks for changes. |
| `SyncPull.ReplyWatermark` | packages/quereus-sync/src/sync/protocol.ts:285-287 | The resume point of a reply is its furthest filing position, none for an empty reply. |
| `SyncPull.Receiver.HandleReply` | packages/quereus-sync-client/src/sync-client.ts:623-712 | Handling a reply is the delivery step; it asks again exactly when the mark rose. |
| `SyncPull.Receiver.HandleBroadcast` | packages/quereus-sync-client/src/sync-client.ts:400-408 | A broadcast is applied unless a snapshot is landing, and moves nothing. |
| `ByteOrder.CompareBytes` | packages/quereus-store/src/common/bytes.ts:52-58 | The comparison decides the unsigned lexicographic order, all three ways. |
| `ByteOrder.InversionReverses` | packages/quereus-store/src/common/encoding.ts:188-192 | Inverting every bit reverses an order that a byte decides. |
| `KeyEncoding.EscapeOrders` | packages/quereus-store/src/common/encoding.ts:291-317 | Escaping with a terminator turns the order of byte strings, prefixes first, into one a byte always decides. |
| `KeyEncoding.EncodingsArePrefixFree` | packages/quereus-store/src/common/encoding.ts:90-100 | NULL before numbers by value, then text, blobs and objects by bytes: byte order of the keys is that order, and one key is a prefix of another exactly when the values are the same. |
| `KeyEncoding.StoredForm` | packages/quereus-store/src/common/encoding.ts:90-125 | The stored tag bytes of the five kinds, the width of a number key, and the bytes an escaped 0, an escaped 1 and the terminator are stored as. |
| `KeyEncoding.CompositeOrder` | packages/quereus-store/src/common/encoding.ts:177-204 | For equal arity, one key comes first exactly when its first unequal column does, the other way round where that column descends, and equal keys mean equal columns. |
| `KeyEncoding.WriteEscapedWithTerminator` | packages/quereus-store/src/common/encoding.ts:291-317 | The two-pass writer fills its buffer with exactly the tagged, escaped, terminated content. |
| `KeyEncoding.EncodeCompositeKey` | packages/quereus-store/src/common/encoding.ts:177-204 | The buffer built by encoding, inverting in place and copying is the composite key. |
| `KeyEncoding.ReadEscapedUntilTerminator` | packages/quereus-store/src/common/encoding.ts:566-601 | What was escaped comes back with its exact length, whatever follows it. |
| `KeyEncoding.DecodeValue` | packages/quereus-store/src/common/encoding.ts:462-490 | A key followed by anything decodes to its value and its own length; an offset past the end or an unknown tag is refused. |
| `KeyEncoding.DecodeCompositeKey` | packages/quereus-store/src/common/encoding.ts:497-516 | Any concatenation of ascending parts splits back into exactly those parts, up to the limit asked. |
| `Doubles.NearestIsNearest` | packages/quereus-store/src/common/encoding.ts:243-246 | The rounded double is as near as any, and the even one of two equally near: roundTiesToEven of section 4.3.1 of IEEE 754-2019. |
| `Doubles.MagnitudeGrows` | packages/quereus-store/src/common/encoding.ts:271-280 | Larger patterns are larger doubles, across exponents and subnormals (section 3.4 of IEEE 754-2019). |
| `Doubles.RoundingKeepsOrder` | packages/quereus-store/src/common/encoding.ts:243-246 | Rounding never swaps two numbers. |
| `Doubles.IntegerResidual` | packages/quereus-store/src/common/encoding.ts:243-246 | Rounding an int64 magnitude moves it by a whole number, at most 2^9. |
| `Doubles.SplitIsExact` | packages/quereus-store/src/common/encoding.ts:241-251 | Nearest double and residual together are the number exactly, for integers and doubles alike. |
| `Doubles.SplitOrders` | packages/quereus-store/src/common/encoding.ts:241-251 | The lesser number has the earlier pair of double and residual, across both kinds. |
| `NumericKey.KeyOrderIsNumericOrder` | packages/quereus-store/src/common/encoding.ts:235-260 | Byte order of the 17-byte keys is exact numeric order across int64 and double, and equal keys mean equal numbers. |
| `NumericKey.WriteSortableDouble` | packages/quereus-store/src/common/encoding.ts:269-280 | The in-place flips produce the sortable form. |
| `NumericKey.EncodeNumeric` | packages/quereus-store/src/common/encoding.ts:235-260 | The buffer filled in place is the numeric key. |
| `NumericKey.DecodeNumeric` | packages/quereus-store/src/common/encoding.ts:526-557 | A numeric key decodes to its number, as an integer exactly when it is one; a short buffer is refused. |
| `NumericKey.RebuiltIsExact` | packages/quereus-store/src/common/encoding.ts:546-557 | Double and residual put together are the number again. |
| `LruCache.TrimmedIsLongestFit` | packages/quereus-store/src/common/cached-kv-store.ts:286-294 | Eviction keeps the longest run of recent entries within both limits. |
| `LruCache.RecordedFits` | packages/quereus-store/src/common/cached-kv-store.ts:226-243 | Entries never exceed their number, and a fresh insert leaves the bytes within budget. |
| `LruCache.RecordedFitsExactly` | packages/quereus-store/src/common/cached-kv-store.ts:226-243 | Recording an answer leaves the cache within both limits if and only if it does not rewrite a cached entry by more bytes than the budget has left. |
| `LruCache.GrowthInPlaceCanExceedBudget` | packages/quereus-store/src/common/cached-kv-store.ts:158-163 | Concrete failure: growing an entry in place evicts nothing and can exceed the budget alone. |
| `LruCache.RecordedAgrees` | packages/quereus-store/src/common/cached-kv-store.ts:226-243 | Recording the store's answer leaves every cached answer equal to the store's. |
| `LruCache.UsedIsMostRecent` | packages/quereus-store/src/common/cached-kv-store.ts:226-269 | A used or recorded key becomes the most recent and the others keep their order. |
| `LruCache.Cache.PrependNode` | packages/quereus-store/src/common/cached-kv-store.ts:259-269 | The links spell out the node followed by the old list, each node once. |
| `LruCache.Cache.UnlinkNode` | packages/quereus-store/src/common/cached-kv-store.ts:271-284 | The links spell out the old list without the node. |
| `LruCache.Cache.Evict` | packages/quereus-store/src/common/cached-kv-store.ts:286-294 | Drops from the tail exactly down to the trimmed list, map and byte total following. |
| `LruCache.Cache.AddEntry` | packages/quereus-store/src/common/cached-kv-store.ts:226-243 | Rewrites and moves up a cached key, inserts and trims for a fresh one. |
| `LruCache.Cache.Get` | packages/quereus-store/src/common/cached-kv-store.ts:78-93 | Answers as the store does; the list afterwards is the used or recorded one. |
| `LruCache.Cache.GetMany` | packages/quereus-store/src/common/cached-kv-store.ts:105-132 | Every position gets the store's answer, hits and misses interleaved or repeated. |
| `LruCache.Cache.Has` | packages/quereus-store/src/common/cached-kv-store.ts:134-148 | Present exactly when the store has the key. |
| `LruCache.Cache.Put` | packages/quereus-store/src/common/cached-kv-store.ts:150-167 | Writes through and records; list, map, links, byte total and agreement with the store are kept. |
| `LruCache.Cache.Delete` | packages/quereus-store/src/common/cached-kv-store.ts:169-185 | Deletes through and records the absence. |
| `LruCache.Cache.WriteBatch` | packages/quereus-store/src/common/cached-kv-store.ts:320-330 | The batch reaches the store whole, and every answer the cache still holds is the store's. |
| `LruCache.Cache.InvalidateAll` | packages/quereus-store/src/common/cached-kv-store.ts:217-222 | Nothing is left to answer from memory. |
| `BackingHost.NetIsSizeDifference` | packages/quereus-store/src/common/backing-host.ts:147-242 | Row-count deltas of changes that made a difference sum to the change in size. |
| `BackingHost.Host.ApplyMaintenance` | packages/quereus-store/src/common/backing-host.ts:147-221 | The contents are those of the operations in order, and replaying the reported changes on the old contents gives them; while no replacement repeats a key each change made a difference and the deltas are exact. |
| `BackingHost.MatchesExactly` | packages/quereus-store/src/common/backing-host.ts:192-209 | A row is under a prefix exactly when each leading key cell equals the given one under its column's declared comparison. |
| `BackingHost.Host.ApplyUpsert` | packages/quereus-store/src/common/backing-host.ts:172-191 | Leaves the row at its key and reports exactly when the contents changed. |
| `BackingHost.Host.ApplyDelete` | packages/quereus-store/src/common/backing-host.ts:162-171 | Removes the key and reports exactly when it was there. |
| `BackingHost.Host.ApplyDeleteByPrefix` | packages/quereus-store/src/common/backing-host.ts:192-209 | Removes exactly the rows under the leading-key prefix. |
| `BackingHost.Host.ApplyReplaceAll` | packages/quereus-store/src/common/backing-host.ts:281-316 | Key-distinct rows end as exactly the contents, an identical fill reports nothing, and the counted delta is right if and only if no two rows share a key the contents lacked. |
| `BackingHost.PutEachSize` | packages/quereus-store/src/common/backing-host.ts:290-308 | Counting each row with a new key counts the growth exactly when no new key repeats. |
| `BackingHost.RepeatedNewKeyIsCountedTwice` | packages/quereus-store/src/common/backing-host.ts:290-299 | Concrete failure: a replacement of empty contents that names one key twice counts two rows and leaves one. |
| `BackingHost.Host.ReplaceContents` | packages/quereus-store/src/common/backing-host.ts:356-443 | A repeated key is refused before any write; both branches leave exactly the given rows, and the reported difference replays the swap and is empty for an identical fill. |
| `RangeScan.IterateSortedMap` | packages/quereus-store/src/common/memory-store.ts:81-137 | The skip-and-break loop returns exactly the entries in range, in direction, up to the limit. |
| `RangeScan.IteratePaged` | packages/quereus-plugin-indexeddb/src/store.ts:367-406 | Pages resumed past their last key return the same scan; paging ends and neither repeats nor skips at a seam. |
| `RangeScan.ResumeSkipsNothing` | packages/quereus-plugin-indexeddb/src/store.ts:389-404 | An exclusive edge at the last key seen leaves exactly the entries not yet seen, forward or reverse. |
| `RangeScan.IsEmptyRange` | packages/quereus-plugin-indexeddb/src/store.ts:64-68 | Reports exactly the bounds no key range can be built from, and such a range holds no key. |
| `RangeScan.WalkEntries` | packages/quereus-plugin-react-native-leveldb/src/store.ts:242-316 | Positioning and walking the native cursor returns the same scan for every range, direction and limit. |
| `RangeScan.PositionCursor` | packages/quereus-plugin-react-native-leveldb/src/store.ts:247-286 | The cursor starts on the scan's first entry, or off the end when there is none. |
| `RangeScan.LevelStore.Clear` | packages/quereus-plugin-react-native-leveldb/src/store.ts:340-361 | Clearing in chunks ends even when a delete does not land, and empties the store when all do. |
| `RangeScan.ThreeScansAgree` | packages/quereus-store/src/common/memory-store.ts:81-137 | Sorted map, pages and native cursor return the same entries. |

## Left out

- The storage engines beneath (memory table, store table, transaction coordinator, sync manager, coordinator server): each is represented by what its callers rely on.
- The row a delete reports back (the staged row, a placeholder with the key cells, none for a key already marked): only that it succeeds.
- The statement executor: its savepoints around writes, cascades and change events are above this model.
- A failure inside the second commit phase: it depends on the underlying store; phase 2 is taken to succeed.
- A table's further grounds to refuse an ALTER (its UNIQUE checks over the rows the issuer sees, its savepoint states) and a staging table's own refusals: parameters of the change, free to refuse or not.
- Exactness of other connections' views across a re-key: the table judges only the rows its issuer sees, so their overlays are carried or poisoned.
- Savepoint frames across a schema change: the refusals that protect them are not modelled.
- Indexes created or dropped under open overlays.
- Two ordered replies handled at once, and cache calls interleaved while one awaits the store: each operation is one atomic step.
- The order of reported deletions in a replacement, and the secondary UNIQUE check and event queue after a maintenance batch.
- Text normalisation, UTF-8, JSON parsing and time spans: bytes and folded values stand for them. NaN, infinities and integers beyond int64 as key values.
- Read-only sync clients, adoption of unrecorded rows, snapshot checkpoints' contents, timers, backoff and progress events.
- Statistics, cost profiles, capability forwarding, error texts, and every provider or user-interface package.
- MergeScan.MergedPrimaryQuery: which windows the planner pushes to a primary-key scan is not modelled; the exact condition is stated for all of them.
- IsolationModule.Isolation.AlterTable: leaves out a failure of the issuer's own overlay after validation (an internal error in the source); TableLifecycle.SoundStep covers that step.
- TableLifecycle.StagedRowsSurvive: excludes a rename onto a name where the connection already has an overlay, because there the promise is false; TableLifecycle.RenameKeepsOverlaysExactly gives the condition.
- TableLifecycle.NothingVanishesFromCommit: a marker that collapsed onto another entry is not followed further; a later, finer key could separate the two again.
- SyncClient.Client.PushUntilDrained: takes no new writes during its own waits; under interleaved writes the claim is the one of SyncPush.SnapshotOnlyWhenDrained.
- RangeScan.IterateSortedMap: starts from the entries already sorted by key; sorting the map is the host language's.
- RangeScan.LevelStore.Clear: a batch lands whole or not at all.
- Flush.ApplyOverlayToUnderlying: storage failure is a countdown of writes, not an arbitrary error.
