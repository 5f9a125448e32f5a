# Tera: reads, compactions and the protocols around them

Tera is a table store in the style of BigTable. A tablet is a sorted stream of versioned cells
and delete marks. Reads (`ScanDrop`) and compactions (`Drop`) each walk such a stream with a
small automaton that carries the current row, family and qualifier, the deletion stamps in force
and a version count. This project models both automata, gives each a declarative meaning over
sets of cells, and proves that compactions do not change what a reader sees, and exactly which
tables that holds for. Around that core it models the two read paths of a tablet and when they
agree, scan sessions, loading and unloading, the thread pool, the big-number split key, and the
tools that dump, diff, repair and back up tables.

A cell is the decoded tuple (row, family, qualifier, timestamp, type, sequence number, value).
Cells are ordered as `RawKeyOperator::Compare` orders them: row, family and qualifier ascending,
newest timestamp first, then by type code.

| files | what they hold |
|---|---|
| `Collections`, `Bytes`, `Cells`, `Numeral` | shared definitions, byte strings and their order, cells and their order, base-256 numerals |
| `Frontier`, `Strategy` | the stamps both automata share; `DefaultCompactStrategy` as a class over pure step functions |
| `Visibility`, `ReadSemantics` | what a `ScanDrop` pass computes, and the documented meaning of a read |
| `Discarding`, `Compaction`, `CompactionLoop`, `CompactionReads`, `CompactionNames`, `CompactionRollbacks` | what a `Drop` pass discards, the theorem that the compaction loop preserves reads, and its exact conditions |
| `AtomicMerge`, `AtomicReads` | `AtomicMergeStrategy`, the merge loop, and what a scan shows of a run of operations |
| `TabletScan`, `ScanSemantics`, `ScanLimits`, `ScanStart` | the scan loop, its batches, what it delivers and its limits |
| `PartialRead`, `RowSeek`, `ReadAgreement`, `ReadNames` | reading columns by seeking, and exactly when that agrees with scanning |
| `Coding`, `AverageKey` | big-endian counters and the split key |
| `ThreadPool`, `ThreadPoolRuns` | the pool and all its runs |
| `ScanSessions`, `ScanSessionRuns`, `ScanSessionOrder`, `ScanSessionLife` | scan contexts shared by threads and an evicting cache |
| `TabletLifecycle`, `TabletLifecycleRuns`, `TabletAdmission` | load, unload, the db reference count, and who is let in |
| `RangeDump`, `RangeDumpRuns` | dump workers and the lock service |
| `TableDiff` | the merge of two scans into difference counters |
| `TabletNames`, `Tiling`, `MetaCheck`, `MetaBackup` | names for new tablets, gap repair, the range check, the backup file |

Objects that the program updates in place are classes whose methods are tied to pure functions on
their state. A concurrent protocol is the set of its critical sections; a run is any interleaving
of them, and the main results hold in every state of every run.

Where the code does not do what its documentation or a natural reading promises, the code is
modelled as it is, a lemma gives an input on which it fails, and another says exactly when it does
not:

- A family mark that a newer cell with an empty qualifier precedes, or a row mark that a newer
  cell with an empty family name precedes, deletes nothing (`ReadSemantics.ColumnDeletionLost`,
  `ReadSemantics.HonoursMarksIff`), although empty names are allowed.
- A compaction that takes such a mark without the cell before it does honour it, and drops a put
  that was readable. Compactions preserve the reads of every tablet exactly when neither empty
  name is used (`CompactionNames.DisabledMarkLosesPut`, `CompactionNames.AlwaysPreservedIff`).
- A write that was rolled back still hides older writes to its key from a compaction, which drops
  them although readers see them, once the smallest snapshot has passed it
  (`CompactionRollbacks.EarlierWriteLost`, `CompactionRollbacks.RollbacksPreservedIff`).
- `TKT_DEL_QUALIFIER` deletes the next older version, not only the one with the mark's timestamp
  (`ReadSemantics.OlderVersionLost`, `ReadSemantics.DeletesAsDocumentedIff`).
- A request for listed columns, served by seeking, and a scan of its row differ in three ways. They
  count versions from different ends of the time range (`ReadAgreement.ZeroDisagrees`,
  `ReadAgreement.Disagree`); seeking leaves a column at the first cell it drops, so at a
  delete-one-version mark (`ReadAgreement.SeekStopsAtMark`); and it looks for marks only at the
  first cell of a row and of a family (`ReadNames.EmptyQualifierParts`,
  `ReadNames.EmptyFamilyParts`). The exact conditions are `ReadAgreement.SeekIsScan`,
  `ReadAgreement.SeekIsScanIff` and `ReadNames.AgreeWithNamesIff`.
- A limit of zero still lets one version and one qualifier through a scan, and a session, whose
  qualifier count is never initialised, can exceed its qualifier limit when it starts inside a
  column (`ScanStart.StraddleExceeds`, `ScanStart.LimitsRespectedIff`).

A backup record with an empty key would end the file for its reader (`MetaBackup.RoundTripIff`);
no writer produces one, since every key of the meta table holds an `@` or a `#`.

## Model

| member | source | states |
|---|---|---|
| `Strategy.DefaultCompactStrategy.SetSnapshot` | src/io/default_compact_strategy.cc:54-57 | sets the snapshot that later Drop calls compare sequence numbers with |
| `Strategy.DefaultCompactStrategy.Drop` | src/io/default_compact_strategy.cc:59-189 | updates the members in place exactly as the pure step of the compaction automaton does, whose verdict on every cell, atomic operations included, is given its meaning by Discarding.DropStepVerdict |
| `Strategy.DefaultCompactStrategy.DropByScope` | src/io/default_compact_strategy.cc:83-157 | the row, family and qualifier branches of Drop, with the marks it may discard below the lower bound |
| `Strategy.DefaultCompactStrategy.ScanDrop` | src/io/default_compact_strategy.cc:275-401 | updates the members in place exactly as the pure step of the read automaton does, whose verdict on every cell, atomic operations included, is given its meaning by Visibility.ScanStepVerdict |
| `Strategy.DefaultCompactStrategy.ScanByScope` | src/io/default_compact_strategy.cc:300-357 | the row, family and qualifier branches of ScanDrop |
| `Frontier.FeedTracks` | src/io/default_compact_strategy.cc:83-127 | after any sorted prefix, the stamps both automata carry are those of the first live mark of the row and of the family, and every later cell is judged by them |
| `Visibility.ScanStepInv` | src/io/default_compact_strategy.cc:275-401 | one ScanDrop keeps the invariant that ties every member of the strategy to the set of cells fed so far |
| `Visibility.ScanStepVerdict` | src/io/default_compact_strategy.cc:275-401 | ScanDrop keeps a cell if and only if the set of cells fed before it says so: live, under no recorded mark, and a put within the family's versions that is not the version after a delete-one-version mark, or an atomic operation with no put of its column shown before it |
| `ReadSemantics.ScanRunKeeps` | src/io/default_compact_strategy.cc:275-401 | a pass over any sorted stream, atomic operations included, keeps exactly the cells that declarative verdict keeps, in order, whatever the marks and names |
| `ReadSemantics.KeptIsVisible` | src/io/default_compact_strategy.cc:275-401 | on histories whose marks take effect, the verdict on what was fed is visibility in the whole history |
| `ReadSemantics.ScanIsVisible` | src/io/default_compact_strategy.cc:275-401 | a ScanDrop pass returns exactly the visible cells: legal, unexpired, not covered by a row, family or qualifier mark, not after a delete-one-version mark, within max_versions |
| `ReadSemantics.HonoursMarksIff` | src/io/default_compact_strategy.cc:300-353 | row and family marks are honoured for every put that may still be added if and only if each of them is recorded, that is, no live cell of its row or family precedes it |
| `ReadSemantics.ColumnDeletionLost` | src/io/default_compact_strategy.cc:324-343 | a family mark behind a newer cell with an empty qualifier does not delete older cells of the family, against the documented deletion |
| `ReadSemantics.NonEmptyNamesMarksFirst` | doc/data_model.md:26 | with non-empty family and qualifier names every mark precedes what it deletes, so the condition above always holds |
| `ReadSemantics.OneDeletedSplit` | src/io/default_compact_strategy.cc:360-366 | what the code deletes for TKT_DEL_QUALIFIER is what the documentation says, the version with the mark's timestamp, and besides the put right below a mark of another time; never both at once |
| `ReadSemantics.DeletesAsDocumentedIff` | doc/data-deletion-in-tera.md:41-44 | a ScanDrop pass returns exactly the cells that are visible by the documented rule if and only if no otherwise visible put stands right below a newer delete-one-version mark |
| `ReadSemantics.OlderVersionLost` | doc/data-deletion-in-tera.md:41-44 | a mark at time 5 makes a read lose the version of time 3, which is visible by the documented rule |
| `Discarding.DropStepInv` | src/io/default_compact_strategy.cc:59-189 | one Drop keeps the invariant that ties the strategy's members to the set of cells fed so far |
| `Discarding.DropStepVerdict` | src/io/default_compact_strategy.cc:59-189 | Drop discards a cell if and only if it is dead, deleted by a mark no newer than the snapshot, a leading mark of a row below the bound when there is no snapshot, a put beyond the versions the snapshot sees, or an atomic operation below a put of its column that Drop has seen |
| `Discarding.DropRunDiscards` | src/io/default_compact_strategy.cc:59-189 | a Drop pass over any sorted stream, atomic operations included, discards exactly those cells |
| `Compaction.VisibleStays` | src/io/default_compact_strategy.cc:59-189 | a cell a reader sees is neither discarded nor hidden by what a compaction of any part of the history leaves behind, also when some discarded cells stay behind |
| `Compaction.HiddenStays` | src/io/default_compact_strategy.cc:59-189 | nothing a reader does not see becomes visible after a compaction, with or without leading marks dropped below a bound under which the whole rows were compacted |
| `CompactionLoop.HandleCompactionWork` | src/leveldb/db/db_impl.cc:1508-1643 | writes, in order, exactly the entries above the smallest snapshot that were not rolled back and, of the latest entries of each key at or below it, those neither rolled back nor discarded by Drop |
| `CompactionLoop.DropEntry` | src/leveldb/db/db_impl.cc:1557-1582 | an entry rolled back, or hidden by a newer one at or below the snapshot, is dropped unseen, one above the snapshot is kept unseen, any other is Drop's to decide |
| `CompactionReads.VisibleTransfer` | src/io/default_compact_strategy.cc:275-401 | visibility depends on the keys of a history only, not on sequence numbers or values |
| `CompactionReads.EntryStays` | src/leveldb/db/db_impl.cc:1508-1643 | the very entry a reader saw of a key is still the one it sees after the compaction |
| `CompactionReads.EntryWas` | src/leveldb/db/db_impl.cc:1508-1643 | an older entry of the same key that the compaction leaves in another file never becomes visible |
| `CompactionReads.CompactionPreservesReads` | src/leveldb/db/db_impl.cc:1508-1643 | for every tablet whose marks come first in their row or family, every set of entries compacted, and every reader no older than the compaction, the scan returns the same cells in the same order as without it; several entries may share a key |
| `CompactionRollbacks.RollbackPreserves` | src/leveldb/db/db_impl.cc:1557-1582 | the scan is preserved for readers that pass over rolled back entries, if of each compacted key the latest entry at or below the snapshot was not rolled back unless all were |
| `CompactionRollbacks.EarlierWriteLost` | src/leveldb/db/db_impl.cc:1557-1582 | for any two numbers at or below the snapshot, the larger one rolled back and the smaller not: two writes to one key of which a reader sees the earlier, and none after the compaction |
| `CompactionRollbacks.RollbacksPreservedIff` | src/leveldb/db/db_impl.cc:1557-1582 | given the rollbacks and the smallest snapshot, every compaction of every tablet leaves every read as it was if and only if no number at or below the snapshot was rolled back while a smaller one was not |
| `CompactionNames.DisabledMarkLosesPut` | src/io/default_compact_strategy.cc:83-127 | if a cell in another file keeps readers from honouring a mark, a compaction of the mark and a put it covers drops the put and changes the read |
| `CompactionNames.EmptyQualifierDisables` | src/io/default_compact_strategy.cc:324-343 | such a tablet exists with an empty qualifier: a put before its family's mark |
| `CompactionNames.EmptyFamilyDisables` | src/io/default_compact_strategy.cc:300-323 | such a tablet exists with an empty family name: a family mark before its row's mark |
| `CompactionNames.AlwaysPreservedIff` | src/leveldb/db/db_impl.cc:1508-1643 | every compaction of every tablet leaves every read as it was if and only if the table uses neither the empty family name nor the empty qualifier |
| `AtomicMerge.AtomicMergeStrategy.Init` | src/io/atomic_merge_strategy.cc:27-57 | the accumulator holds the fold of the newest operand |
| `AtomicMerge.AtomicMergeStrategy.MergeStep` | src/io/atomic_merge_strategy.cc:59-86 | from the fold of some operands to the fold of one more of a matching kind, and no change for another kind |
| `AtomicMerge.AtomicMergeStrategy.Finish` | src/io/atomic_merge_strategy.cc:88-109 | the value written is the fold: the sum modulo 2^64, the oldest-first concatenation, or the oldest value |
| `AtomicMerge.InternalMergeProcess` | src/io/default_compact_strategy.cc:204-273 | merges exactly the operands of the run of the same column it may pass over, with at most one put, and stops where the run ends |
| `AtomicMerge.FoldInside` | src/io/default_compact_strategy.cc:204-273 | folding part of a list of operands first does not change the fold of the list, for all four kinds of operation |
| `AtomicMerge.CollectRun` | src/io/default_compact_strategy.cc:221-267 | from a run of one kind at distinct times, reading collects every operand and the put below it |
| `AtomicMerge.CollectIs` | src/io/default_compact_strategy.cc:221-267 | whatever kinds and times a column mixes, the operands are the values at exactly the positions the loop folds in, in order, and it stops at the first cell it may not pass over or after a put |
| `AtomicMerge.FoldIsPerformed` | src/io/atomic_merge_strategy.cc:27-109 | the fold of a run of operations is what they make of the column when performed one after the other, oldest first |
| `AtomicMerge.CounterLayout` | src/io/atomic_merge_strategy.cc:88-109 | the counter of ADD is stored highest byte first, that of ADD_INT64 lowest byte first |
| `AtomicReads.ScanShowsRun` | src/io/tablet_io.cc:1034-1095 | a scan that accepts the newest of a run of operations shows one cell for the whole run and the put below it, whose value is what the operations make of the put, and goes on right after them |
| `AtomicMerge.CollectSegment` | src/io/default_compact_strategy.cc:221-267 | merging a segment in a compaction collects exactly the segment |
| `AtomicMerge.SegmentValue` | src/io/default_compact_strategy.cc:191-202 | the value MergeAtomicOPs gives a segment, whatever follows it in the compaction's input, is the fold of the segment |
| `AtomicMerge.AtomicMergeStable` | src/io/default_compact_strategy.cc:191-273 | replacing any contiguous segment of a run by the value that InternalMergeProcess gives it in a compaction leaves the value that InternalMergeProcess gives the run in a read unchanged |
| `TabletScan.ScanOne` | src/io/tablet_io.cc:969-1121 | one turn of the scan loop on the session's context |
| `TabletScan.ProcessRowBuffer` | src/io/tablet_io.cc:2287-2329 | appends exactly the buffered cells that pass the column and time filters, in order, and keeps the exact size and number of the cells delivered |
| `TabletScan.LowLevelScan` | src/io/tablet_io.cc:939-1137 | what a batch delivers followed by what its context would still deliver is what was to be delivered before; a batch that does not complete consumes a cell; and it is made of whole rows, each begun below both the size and the number limit, after one of which is reached at most one cell more follows; it is incomplete only then |
| `TabletScan.ScanSession` | src/io/tablet_io.cc:1677-1692 | however a session is cut into batches, they concatenate to the same output, there are finitely many, each is cut exactly where its own limits say, and only the last completes the range |
| `ScanSemantics.VerdictIsCandidate` | src/io/tablet_io.cc:1018-1031 | a scan drops a cell exactly if the cells of its row that were not skipped with their families say so, for every history without atomic operations |
| `ScanSemantics.CandidatesVisible` | src/io/tablet_io.cc:1018-1031 | where row and family marks come first, the cells so kept are exactly the visible ones, although cells of families not asked for are skipped unfed |
| `ScanSemantics.RoomIsRank` | src/io/tablet_io.cc:1057-1078 | the version and qualifier counters leave room for a cell exactly when its rank among the cells kept is within both limits, although rejected qualifiers do not update the names; versions before the start key count, and in a family that begins before it the qualifiers count on from the initial value |
| `ScanSemantics.OutputIsWanted` | src/io/tablet_io.cc:939-1137 | from any point of a scan, what follows is exactly the wanted cells that follow |
| `ScanSemantics.WantedMembers` | src/io/tablet_io.cc:939-1137 | the cells delivered are sorted and are exactly the kept cells of the range within the limits and filters |
| `ScanSemantics.ScanDelivers` | src/io/tablet_io.cc:939-1137 | a session delivers, in key order, exactly the kept cells of its range within its limits and filters, however cut into batches, wherever its start key falls and whatever value the uninitialised qualifier count had |
| `ScanLimits.ScanWithinLimits` | src/io/tablet_io.cc:1050-1095 | a scan never accepts more than max(1, max_versions) cells of a column nor max(1, max_qualifiers) qualifiers of a family, atomic operations included |
| `ScanLimits.SessionWithinLimits` | src/io/tablet_io.cc:1050-1095 | the same over a whole session from any start key, if the qualifier count starts at one or only one version is shown |
| `ScanStart.StraddleExceeds` | src/io/tablet_scanner.cc:86-105 | a session that starts inside a column with its qualifier count at zero shows one qualifier too many |
| `ScanStart.LimitsRespectedIff` | src/io/tablet_io.cc:1050-1095 | the limits are kept on every history and start key if and only if neither is zero and the count starts at one or more, or one version is shown |
| `PartialRead.PartDecides` | src/io/tablet_io.cc:1179-1283 | the leading marks of a row and a family and the column itself decide about a cell as the whole history does |
| `PartialRead.FedAgain` | src/io/default_compact_strategy.cc:386-390 | feeding a cell again right away gives the same verdict and changes only the remembered time, unless it is a put that a delete-one-version mark just deleted |
| `PartialRead.KeptAsPart` | src/io/tablet_io.cc:1179-1283 | on any history, what a read by seeking has fed decides about a cell as the first cells of its row and family and its column above it do |
| `PartialRead.ReachedIff` | src/io/tablet_io.cc:1276-1283 | where marks come first, a read by seeking, which leaves a column at the first dropped cell, reaches exactly the visible cells with no delete-one-version mark of their column before them |
| `RowSeek.SeekFrom` | src/io/tablet_io.cc:1181-1182 | the first position not before the key |
| `RowSeek.ReadColumn` | src/io/tablet_io.cc:1248-1322 | reading a column by seeking returns exactly the cells it reaches that are in the time range and among the newest versions, on every history without atomic operations |
| `RowSeek.ReadFamily` | src/io/tablet_io.cc:1207-1338 | reading the listed qualifiers of a family returns exactly those cells of each, in order |
| `RowSeek.LowLevelSeek` | src/io/tablet_io.cc:1148-1343 | returns exactly the requested cells that seeking reaches, in the time range and among the newest versions, in key order; reports a missing row exactly when the row has no cell |
| `ReadAgreement.SeekIsScan` | src/io/tablet_io.cc:1439-1453 | if the options let the two version limits meet, a request for listed columns gets the same cells in the same order from LowLevelSeek as from LowLevelScan if and only if no cell of the scan's answer stands below a delete-one-version mark of its column |
| `ReadAgreement.SeekStopsAtMark` | src/io/tablet_io.cc:1276-1283 | for every version limit and every time range with room: a mark, the version it deletes and an older one, which the scan delivers and seeking does not find |
| `ReadAgreement.ZeroDisagrees` | src/io/tablet_io.cc:1294-1297 | with max_versions zero and a non-empty time range, a one-version column that the scan delivers and seeking does not |
| `ReadAgreement.Disagree` | src/io/tablet_io.cc:1286-1297 | for every other limit that can bind below the time range, a column whose oldest version seeking finds and the scan does not |
| `ReadAgreement.SeekIsScanIff` | src/io/tablet_io.cc:1439-1453 | the two read paths agree on all answers free of such marks if and only if the time range is empty, or max_versions is not zero and the range is open above or too short for the limit to bind; and on all answers if and only if, besides, the range has no room for a version below a mark |
| `ReadNames.EmptyQualifierParts` | src/io/tablet_io.cc:1276-1283 | with an empty qualifier, a put behind a family mark that the scan delivers and seeking does not find |
| `ReadNames.EmptyFamilyParts` | src/io/tablet_io.cc:1179-1205 | with an empty family name, a put that a row mark deletes for the scan and that seeking returns |
| `ReadNames.AgreeWithNamesIff` | src/io/tablet_io.cc:1439-1453 | with limits that meet and no delete-one-version marks, the two read paths agree on every history without atomic operations if and only if the table uses neither the empty family name nor the empty qualifier |
| `Coding.EncodeBigEndian32` | src/io/coding.h:34-39 | writes the four base-256 digits of the value and nothing else |
| `Coding.EncodeBigEndian` | src/io/coding.h:48-57 | writes the eight base-256 digits of the value and nothing else |
| `Coding.RoundTrip` | src/io/coding.h:48-76 | decoding inverts encoding for every unsigned and every signed value |
| `Coding.RoundTripBytes` | src/io/coding.h:48-63 | encoding inverts decoding for every string of eight bytes |
| `Coding.EncodedOrder` | src/io/coding.h:48-63 | the byte order of encodings is the numeric order |
| `AverageKey.AddDigits` | src/io/tablet_io.cc:513-518 | schoolbook addition: carry and digits stand for the sum |
| `AverageKey.HalveDigits` | src/io/tablet_io.cc:519-523 | long division: the digits stand for half of the sum, rounded down |
| `AverageKey.MiddleBetween` | src/io/tablet_io.cc:493-534 | the middle of two keys that differ after padding lies strictly between them |
| `AverageKey.FindAverageKey` | src/io/tablet_io.cc:493-534 | false exactly if the end is the start followed by zero bytes; otherwise the shortest prefix of the middle that lies strictly between, so the final check cannot fail |
| `ThreadPool.ThreadPool.Start` | src/common/thread_pool.h:40-55 | clears the stop flag and makes the threads, unless there are some |
| `ThreadPool.ThreadPool.BeginStop` | src/common/thread_pool.h:67-71 | sets the stop flag |
| `ThreadPool.ThreadPool.EndStop` | src/common/thread_pool.h:72-76 | forgets the threads once all are joined |
| `ThreadPool.ThreadPool.AddTask` | src/common/thread_pool.h:83-88 | appends a task and counts it |
| `ThreadPool.ThreadPool.AddPriorityTask` | src/common/thread_pool.h:89-94 | puts a task first and counts it |
| `ThreadPool.ThreadPool.DelayTask` | src/common/thread_pool.h:95-104 | issues the next id, due after the delay |
| `ThreadPool.ThreadPool.CancelPass` | src/common/thread_pool.h:108-138 | one pass of CancelTask: cancelled, not there, running, or try again |
| `ThreadPool.ThreadPool.Worker` | src/common/thread_pool.h:181-232 | one turn of a worker up to where it releases the lock |
| `ThreadPool.PushOrdered` | src/common/thread_pool.h:237-248 | the time queue stays ordered by due time, then id |
| `ThreadPoolRuns.AlwaysKept` | src/common/thread_pool.h:94-232 | in every state of every run pending and running ids are disjoint, every pending id has its item in the time queue, and pending_num_ is the queue's length |
| `ThreadPoolRuns.OneFate` | src/common/thread_pool.h:94-232 | every issued id is exactly one of pending, started and cancelled, exactly once |
| `ThreadPoolRuns.StartedOnce` | src/common/thread_pool.h:191-212 | no delayed task is started twice |
| `ThreadPoolRuns.CancelledNeverStarts` | src/common/thread_pool.h:107-138 | a task reported as cancelled is started neither before nor after |
| `ThreadPoolRuns.SettledNeverStarts` | src/common/thread_pool.h:107-138 | once CancelTask on an issued id has returned other than because it is running, it never starts |
| `ThreadPoolRuns.SettledNeverRuns` | src/common/thread_pool.h:107-138 | and is never running from then on |
| `ThreadPoolRuns.NeverEarly` | src/common/thread_pool.h:191-212 | a delayed task is started with its own closure and no earlier than its delay after it was issued |
| `ThreadPoolRuns.EarliestFirst` | src/common/thread_pool.h:191-212 | a worker starts what is due first, the one issued first among equals |
| `ThreadPoolRuns.ThreadsSuffice` | src/common/thread_pool.h:181-232 | in every state of every run there are no more running tasks and ended threads together than there are threads |
| `ThreadPoolRuns.StopWaitsForAll` | src/common/thread_pool.h:72-76 | when Stop has joined the threads, neither a delayed nor a normal task is running |
| `ThreadPoolRuns.StoppedStartsNothing` | src/common/thread_pool.h:184-190 | once the pool is stopped, neither delayed nor normal tasks are started until Start takes effect |
| `ThreadPoolRuns.RestartAfterJoin` | src/common/thread_pool.h:40-55 | Start takes effect only after all threads there were have been joined |
| `ThreadPoolRuns.TasksConserved` | src/common/thread_pool.h:83-94 | every normal task added has been run once or is queued |
| `ThreadPoolRuns.TasksInOrder` | src/common/thread_pool.h:218-231 | without priority tasks, tasks are taken in the order they were added |
| `ThreadPoolRuns.QueueIsLine` | src/common/thread_pool.h:83-94 | in every run the queue holds the tasks of the additions still waiting: a priority task in front of all of them, a plain task behind |
| `ThreadPoolRuns.TakesFirst` | src/common/thread_pool.h:218-231 | a worker that takes a normal task takes, of all that wait, the one that comes before each other: a priority task before whatever was waiting when it was added, plain tasks in order of addition |
| `ThreadPoolRuns.TakesIfAny` | src/common/thread_pool.h:181-232 | unless the pool is stopped or a delayed task is due, a turn takes a normal task if and only if one waits |
| `ThreadPoolRuns.RunningMeans` | src/common/thread_pool.h:191-212 | a delayed task is running exactly from its start until it finishes |
| `ThreadPoolRuns.CancelAnswers` | src/common/thread_pool.h:107-138 | CancelTask cancels exactly the ids issued and neither started nor cancelled before, and reports as running, or waits for, exactly those started and not finished |
| `ThreadPoolRuns.DueTurn` | src/common/thread_pool.h:191-212 | a pending task that is due is started by the turn that finds it first, and every turn before that takes away one due sooner |
| `ThreadPoolRuns.RestartWorks` | src/common/thread_pool.h:40-55 | Start takes effect right after the threads have been joined: the pool has its threads and is not stopped |
| `ScanSessions.ScanContextManager.GetScanContext` | src/io/tablet_scanner.cc:46-107 | a request joins its session's queue, owns the context if the queue was empty, makes a new one, or is answered at once |
| `ScanSessions.ScanContextManager.FinishJob` | src/io/tablet_scanner.cc:134-153 | after a reply the owner goes on, gives the context back, or ends the session |
| `ScanSessions.ScanContextManager.DeleteScanContext` | src/io/tablet_scanner.cc:165-189 | runs every waiting closure in order, then gives up its reference and the cache's |
| `ScanSessionRuns.AlwaysKept` | src/io/tablet_scanner.cc:46-189 | in every run, with evictions at any time, a context has an owner exactly while jobs wait, never two, and its references are the cache's and the owner's |
| `ScanSessionRuns.AlwaysSound` | src/io/tablet_scanner.cc:110-162 | no step uses a freed context or takes the front of an empty queue |
| `ScanSessionRuns.ClosuresConserved` | src/io/tablet_scanner.cc:46-189 | every closure submitted has been run exactly once or is waiting: none is lost, none is run twice |
| `ScanSessionRuns.WaitingIsOwned` | src/io/tablet_scanner.cc:61-106 | a waiting closure is in the queue of a context that has an owner |
| `ScanSessionOrder.RepliesInOrder` | src/io/tablet_scanner.cc:110-162 | the replies of a context follow the order of arrival and carry results_id 0, 1, 2, ...; closures flushed at its end come after them |
| `ScanSessionOrder.DeletedIsGone` | src/io/tablet_scanner.cc:165-189 | when a session ends, by completion or an error, its context is freed, also if the cache had evicted it |
| `ScanSessionOrder.GoneStays` | src/io/tablet_scanner.cc:26-44 | nobody reaches a freed context again |
| `ScanSessionLife.ReachesIff` | src/io/tablet_scanner.cc:46-107 | in every run a request reaches a context of its session if and only if one was made and since then it was not evicted and no context of the session was deleted, not even an older one evicted before; it is the one made last |
| `ScanSessionLife.FinishDecides` | src/io/tablet_scanner.cc:134-153 | after a reply the owner ends the session exactly if that reply said that the scan is complete or failed; otherwise it keeps serving exactly if further requests wait |
| `ScanSessionLife.ReplyDecides` | src/io/tablet_scanner.cc:110-162 | nobody but its owner changes what the last reply of a context said |
| `ScanSessionLife.FailedStartAborts` | src/io/tablet_io.cc:1661-1674 | a scan that could be started is served, one that could not is aborted |
| `TabletLifecycle.TabletIO.Enter` | src/io/tablet_io.cc:1347-1360 | an operation takes a reference exactly if the status and the unload tries admit it, which TabletAdmission tells by the history of the tablet |
| `TabletLifecycle.TabletIO.Leave` | src/io/tablet_io.cc:1457-1460 | gives the reference back |
| `TabletLifecycle.TabletIO.BeginLoad` | src/io/tablet_io.cc:253-263 | loading begins only on a tablet not loaded |
| `TabletLifecycle.TabletIO.EndLoad` | src/io/tablet_io.cc:387-411 | a finished or failed load gives its reference back |
| `TabletLifecycle.TabletIO.BeginUnload` | src/io/tablet_io.cc:434-446 | counts the try and begins only on a ready tablet |
| `TabletLifecycleRuns.AlwaysKept` | src/io/tablet_io.cc:253-488 | every interleaving keeps the relation between status, references and the steps the holders have reached |
| `TabletLifecycleRuns.CountsHolders` | src/io/tablet_io.cc:253-488 | db_ref_count_ is the number of holders; a tablet not loaded has none and no database |
| `TabletLifecycleRuns.NeverFreedInUse` | src/io/tablet_io.cc:455-477 | no holder uses a freed database or writer, and both are freed by a sole holder |
| `TabletLifecycleRuns.WaitingDrains` | src/io/tablet_io.cc:450-460 | while Unload waits nobody new gets in and the count only falls, so its unlocked reading stays true |
| `TabletLifecycleRuns.OneCompaction` | src/io/tablet_io.cc:605-631 | a tablet is marked as compacting exactly while one compaction holds it; there are never two, and no split begins during one |
| `TabletLifecycleRuns.UrgentRefuses` | src/io/tablet_io.cc:1347-1360 | the tries counted are those since the last load, and once they reach the limit reads, writes and scans are refused |
| `TabletLifecycleRuns.OneLeader` | src/io/tablet_io.cc:253-488 | at most one thread loads or unloads |
| `TabletAdmission.StatusMeans` | src/io/tablet_io.cc:253-488 | in every state of every run the status tells what happened before: a load that opened the database, no unload tried or gone on to wait since, no load called since the last one ended |
| `TabletAdmission.ClientGetsInIff` | src/io/tablet_io.cc:1347-1360 | a read, write or scan gets in if and only if the last load succeeded, no unload since has gone on to wait for the references, and fewer unloads than the limit were tried since |
| `TabletAdmission.OtherGetsInIff` | src/io/tablet_io.cc:605-631 | any other operation gets in if and only if the last load succeeded and no unload was tried since; a split or a compaction only if besides no compaction is under way |
| `TabletAdmission.LoadBeginsIff` | src/io/tablet_io.cc:253-263 | a load begins if and only if none was called since the tablet was created or unloaded, and reports success at once if and only if it is ready; an unload begins if and only if it is the first since the load |
| `TabletAdmission.WaitEndsIff` | src/io/tablet_io.cc:450-460 | Unload stops waiting at the first look at which nobody else holds a reference |
| `RangeDump.GetAndLockDumpRange` | src/terautil.cc:560-644 | makes exactly the calls that looking at each listed range in turn takes, up to the first that stops it, and returns the first range not listed as done that could be locked and is not done now, or none, or ends the worker |
| `RangeDump.DumpRange` | src/terautil.cc:925-961 | makes exactly the calls of one turn: open, scan, and only after a scan to the end the flag and then the lock; the worker ends exactly if the map of tables has no destination |
| `RangeDump.DumpRun` | src/terautil.cc:923-962 | a worker makes exactly the calls of its rounds, in order, up to the first round after which it does not go on, and every such sequence is a path of the protocol |
| `RangeDumpRuns.RunsFollowProtocol` | src/terautil.cc:560-669 | a worker's calls in a run are a path of the protocol that ends in its phase |
| `RangeDumpRuns.AlwaysKept` | src/terautil.cc:560-669 | a worker busy with a range holds its lock, and from the check to the end of the scan the range is not done |
| `RangeDumpRuns.OneScanner` | src/terautil.cc:608-640 | no range is scanned by two workers at once |
| `RangeDumpRuns.ScansOnlyUndone` | src/terautil.cc:620-640 | a scan starts only under the lock and on a range whose stored flag is not set |
| `RangeDumpRuns.FlagsStay` | src/terautil.cc:646-669 | flags go from unset to set only |
| `RangeDumpRuns.FlipFollowsScan` | src/terautil.cc:646-669 | each flag is set by a worker that scanned the range to the end while holding the lock without interruption |
| `RangeDumpRuns.DoneWasScanned` | src/terautil.cc:646-669 | whatever flags an earlier dump left, a range done in a run was done when it began or was scanned to the end in it by the worker that set its flag |
| `RangeDumpRuns.PutOnce` | src/terautil.cc:646-669 | the flag of a range is set at most once |
| `RangeDumpRuns.LockMeans` | src/terautil.cc:560-669 | in every state of every run a worker holds the lock of a range exactly from the grant until it gives it back, ends or expires |
| `TableDiff.CompareContext.SrcRecordAndNext` | src/terautil.cc:2215-2227 | counts and passes a record that is only in the source |
| `TableDiff.CompareContext.DestRecordAndNext` | src/terautil.cc:2229-2235 | counts and passes a record that is only in the destination |
| `TableDiff.CompareContext.CompareValue` | src/terautil.cc:2245-2256 | counts and passes a pair of records with the same key |
| `TableDiff.CompareContext.CompareRowName` | src/terautil.cc:2258-2306 | the chain of comparisons advances the merge by one key and keeps the counters exact |
| `TableDiff.CompareContext.ScanAndDiffData` | src/terautil.cc:2405-2442 | terminates; fails exactly if a stream does; otherwise the counters are the sizes of the four classes of keys |
| `TableDiff.CountsUnion` | src/terautil.cc:2405-2442 | in_src_or_in_dest is the number of keys in either stream |
| `TableDiff.NoDifferenceIff` | src/terautil.cc:2405-2442 | no difference is counted exactly if each stream's records are in the other with the same values |
| `Tiling.TilesCover` | src/admincli.cc:1006-1071 | in a tiling every key lies in exactly one tablet |
| `Tiling.TilesIff` | src/admincli.cc:1006-1071 | an ordered list of ranges tiles if and only if every key lies in exactly one of them |
| `TabletNames.NamesDiffer` | src/admincli.cc:986-1003 | different numbers give different tablet names, also beyond eight digits |
| `TabletNames.GetTabletNumFromName` | src/admincli.cc:895-921 | the number that the digits after the prefix stand for, zero for a name of another length or prefix |
| `TabletNames.NameReadsBack` | src/admincli.cc:895-921 | the name made for a number of up to eight digits reads back as that number |
| `TabletNames.GetTabletName` | src/admincli.cc:986-1003 | the next name of an unreadable tablet, or the next number padded to eight digits |
| `TabletNames.IssuedOnce` | src/admincli.cc:986-1003 | a path it gives was left to issue and is not any more, so none is given twice nor belongs to a readable tablet |
| `Tiling.TabletMap.FixTabletGap` | src/admincli.cc:1006-1071 | all ranges of a table stay, the others are new under paths that were left to issue, together they tile the key space, and no path is used twice |
| `MetaCheck.AllTileIff` | src/admincli.cc:641-704 | every table's tablets tile if and only if each tablet follows the one before it |
| `MetaCheck.CheckTablet` | src/admincli.cc:655-703 | reports, in order, exactly what comparing the tablet with the last one not covered finds, and says whether this one is covered |
| `MetaCheck.ComparedIsFindings` | src/admincli.cc:655-703 | for meta records in order, the comparisons with the one tablet carried along find exactly what all earlier tablets of the table say by the keys they hold: a missing end, a missing start, a gap, an overlap, a covered or an empty tablet |
| `MetaCheck.ProcessMeta` | src/admincli.cc:621-708 | silent with the last table complete if and only if every maximal run of one table's tablets tiles the key space; and for every meta table in its key order, tablet by tablet, the reports are exactly what the keys say there is to report |
| `MetaCheck.RepairAndCheck` | src/admincli.cc:1006-1071 | after FixTabletGap, ProcessMeta has nothing to report |
| `MetaBackup.OutStream.WriteToStream` | src/admincli.cc:562-569 | appends the length-prefixed record |
| `MetaBackup.InStream.ReadMetaFromStream` | src/admincli.cc:715-738 | a record, the end signal, or an error on a broken record |
| `MetaBackup.ReadAll` | src/admincli.cc:754-757 | every record up to the end signal, or an error |
| `MetaBackup.DecodeEncode` | src/admincli.cc:562-569 | reading a written record gives it back and leaves the rest |
| `MetaBackup.EncodeDecode` | src/admincli.cc:715-738 | whatever is read as a record is what was written |
| `MetaBackup.Layout` | src/admincli.cc:562-569 | where the parts of a record lie: the key's length, lowest byte first, the key, the value's length, the value |
| `MetaBackup.RoundTripIff` | src/admincli.cc:715-757 | a backup reads back as written if and only if no record has an empty key |
| `MetaBackup.TornFile` | src/admincli.cc:715-738 | a file torn inside a record gives back the records before the tear and an error |
| `Cells.LivesUntil` | src/io/default_compact_strategy.cc:405-427 | a put lives until its family's time to live has passed since its timestamp, seconds against microseconds, for ever without one; marks do not expire |
| `Cells.SortedUnique` | src/leveldb/util/raw_key_operator.cc:162-210 | in the order of tera keys a sorted stream is determined by its set of cells |
| `Cells.Grouping` | src/leveldb/util/raw_key_operator.cc:162-210 | the cells of a row, of a family and of a column are contiguous in a sorted stream |

## Left out

- Raw keys: encoding and parsing of tera keys and internal keys is not modelled, nor that the binary comparator keeps only the low eight bits of a qualifier's length; cells are decoded tuples.
- Atomic operations: what a compaction preserves, what a session delivers cell for cell and the agreement of the read paths are proved for histories without them; the verdicts of both automata, batches, limits and merging cover them.
- Clocks: one reading of the clock per pass; the reader's clock is not behind the compaction's.
- Timeouts, shutdown in the middle of a read, iterator errors and `next_start_point`: a read ends at its range or a batch limit.
- Row filters and key-value tables.
- Counter width: version, qualifier and size counters do not wrap around at 32 or 64 bits; the counters of atomic operations do.
- Operands of counters: a column that holds counters holds only eight-byte values, as the merge reads eight bytes of each.
- CompactionReads.CompactionPreservesReads: requires that only other such marks precede a mark in its own row or family, which non-empty names ensure; for tables with empty names it is false, as `CompactionNames` shows.
- RowSeek.LowLevelSeek: requires a history without atomic operations, and so do ScanSemantics.ScanDelivers and ReadAgreement.SeekIsScanIff; the latter also requires the order of marks just named, and `ReadNames` treats the other histories.
- ReadSemantics.DeletesAsDocumentedIff: requires that order too, since other marks are not honoured as documented without it.
- CompactionLoop.HandleCompactionWork: does not model unparsable keys, output file boundaries, or the merging of atomic operations, which `AtomicMerge` treats on its own.
- CompactionLoop.DropEntry: does not model plain leveldb deletions, which only key-value tables write.
- ScanSessionRuns.AlwaysSound: the read of `ret_code` right after DeleteScanContext is taken as the status at the time of the deletion.
- ScanSessions: contexts are entries of a table rather than heap objects, and the cache may evict any entry at any time instead of the least recently used one.
- ThreadPool.ThreadPool.BeginStop: does not model that Stop may first wait for the queue to run empty, nor two threads stopping the pool at once.
- ThreadPool.ThreadPool.CancelPass: models one pass of CancelTask; the blocking call repeats it, and whether it ever returns depends on what is running.
- TabletLifecycle: the destructor, SetStatus and the options set up by Load are not modelled; opening the database and starting its writer are one step.
- RangeDump: a lock is never lost by a live worker; listing, OpenTable, the map of tables and scanning are outcomes given to the model.
- Tiling.TabletMap.FixTabletGap: requires ranges that do not overlap and only the last one open, and a directory whose names are tablet numbers up to the largest; FixTabletOverlap is not modelled.
- MetaCheck.ProcessMeta: only the range check; printing and writing the backup are separate. Which kinds of finding are due is stated for records in the order of the meta table's keys, as a scan gives them.
- TableDiff: writing differences to files or to the destination table.
- Master, client library, load balancing, transactions and the file system layer: they would only add members of another kind.
