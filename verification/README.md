# LevelDB and nanopb, verified

A Dafny model of the two components of this repository that carry its data: the LevelDB storage
engine (`TwifreecaTV/Pods/leveldb-library`) and the nanopb codec (`TwifreecaTV/Pods/nanopb`), with
proofs of what they promise. `dafny verify dfyconfig.toml` checks everything.

## LevelDB

- `Keys`, `Compaction`: internal keys and reading at a snapshot; the loop of `DoCompactionWork`, which
  drops entries without any reader noticing.
- `Levels`, `VersionGet`, `LevelChanges`: a version's levels; the choice of a compaction's inputs, the search
  of Version::Get, and exactly what keeps the levels in the order it relies on.
- `Database` and the modules named after it: the database between two openings as a state machine.
  Every stretch of code that runs with the mutex held is one step, and so is every piece of work done
  without it: logging, syncing and inserting a group, building a table, writing the descriptor.
  Writers, readers, snapshots, manual requests and the background worker interleave freely, and each
  step that can fail may. `DatabaseQueue`, `DatabaseMemory`, `DatabaseStorage`, `DatabaseReaders` and
  `DatabaseAcks` hold the invariants, `DatabaseRuns` puts them together over all runs,
  `DatabaseGuarantees` and `DatabaseCrash` state what callers get. There a version is a set of tables;
  `DatabaseLevels` adds the levels to the same runs, and `DatabaseGets`, `DatabaseFreshness` and
  `DatabaseReopening` state what Get answers, searching them as the code does. `DatabaseLogs` makes files of the logs,
  with the bytes of `LogWriter` and the reading of `LogReader`; `DatabaseLosses` has two runs in which a
  failed append breaks promises. `DbImpl` has the code's own loops, each proved to take its step.
- `DbIter`: the bidirectional iterator refines a cursor over the map that a snapshot sees.
- `LogFormat`, `LogWriter`, `LogReader`, `LogRecovery`, `LogDamage`, `LogChecks`: the framing of the write-ahead
  log for any block size and any checksum, with torn tails, starts in the middle, appends that fail, and
  bytes that were altered.
- `Coding`, `WriteBatches`, `Recovery`: batches as bytes, and the rebuilding of a memtable from a log.
- `SkipLists`, `MemTables`, `Snapshots`: the skip list under a writer and lock-free readers, the
  memtable on top of it, and the ring of snapshots.

A user key is an integer that stands for its position in the comparator's order; where keys are bytes
(`WriteBatches`, `Recovery`, `MemTables`) a parameter `rank` gives that position. A history of what was
inserted, answered and flushed is kept in the state for the theorems to speak about; no step depends
on it.

Five things the code does otherwise than one might expect are stated as they are.

- Reads are preserved by compaction only below kMaxSequenceNumber (`Compaction.ReadsPreservedIffBelowMax`).
- The entries of one user key may be spread over neighbouring tables of a level, and a compaction or a
  move may take the newer ones and leave the older. Then a deleted value can come back
  (`Levels.DeletedComesBack`, `LevelChanges.SplitMoveIsStale`, `LevelChanges.CoveredSplitIsStale`).
  `LevelChanges.MergeOrderedIff` and `LevelChanges.MoveOrderedIff` say exactly when Get finds the newest entry of
  every key afterwards.
- A flush that a compaction lets in may go into a gap between its inputs, where an output then reaches over
  it, and what was flushed is not found (`LevelChanges.GapIsLost`). `LevelChanges.FlushKeepsReadyIff` says when the
  compaction stays sound. The runs of `DatabaseLevels` are those without such splits and gaps.
- A failed append leaves the log writer ahead of its file. What it appends then is read back as long as the
  fragments still lie where a reader looks for them: while the writer is in the block in which the file
  ends (`LogDamage.SameBlock`), or when whole blocks were lost (`LogDamage.WholeBlocksLost`). After that a batch
  that was synced and answered OK may be lost (`DatabaseLosses.SyncedIsLost`), and an entry recovered that was
  never written (`DatabaseLosses.ForgedIsRecovered`). For one fragment, and for the first record
  out of step, the condition is exact (`LogDamage.FragmentReadIff`, `LogDamage.RecordTakenIff`).
- `pb_decode_varint32` takes some values of more than 32 bits (`PbVarints.Varint32Exact`).

## nanopb

- `PbVarints`, `PbStreams`: varints, zigzag and streams, after the Protocol Buffers Encoding
  specification, sections "Base 128 Varints" and "Signed Integers".
- `PbMessages`: descriptors as finite trees, messages, and the bytes of a message, with packed arrays as
  in section "Packed Repeated Fields". Sizes are those of the build's `PB_FIELD_32BIT`.
- `PbEncoder`: the encoder writes those bytes or fails, and its sizing pass is exact.
- `PbDecoder`, `PbIterator`, `PbDecoding`: what decoding makes of any input, the field iterator with the
  bitmap of required fields, and the decoder's loops.
- `PbRoundTrip`, `PbSizes`: decoding an encoded message gives it back; which messages have an encoding.
- `PbBounds`, `PbSequences`: whatever the input, what is decoded has room in its struct; required fields, and
  messages that come in parts.

## Model

| member | source | states |
|---|---|---|
| Keys.NewestExists | TwifreecaTV/Pods/leveldb-library/db/dbformat.cc:50-66 | among the entries of a key that a snapshot sees there is a newest one; so reading at a snapshot is well defined |
| Compaction.KeptIff | TwifreecaTV/Pods/leveldb-library/db/db_impl.cc:945-985 | below kMaxSequenceNumber, an entry of the input goes if and only if every snapshot that is still needed and sees it sees a newer one of its key, or it is a deletion that they all see of a key no deeper level can hold |
| Compaction.KeepSorted | TwifreecaTV/Pods/leveldb-library/db/db_impl.cc:911-1008 | what a compaction keeps is sorted as its input was |
| Compaction.DroppedNewest | TwifreecaTV/Pods/leveldb-library/db/db_impl.cc:945-975 | an entry that is gone although some snapshot would have found it newest was a deletion, and afterwards that snapshot finds nothing of the key, neither kept nor outside |
| Compaction.CompactionPreservesReads | TwifreecaTV/Pods/leveldb-library/db/db_impl.cc:911-1008 | for every sorted input, key and snapshot from the smallest one on, the newest visible entry over the kept entries and those outside gives the same answer as before the compaction, provided that what lies outside and is older than an input entry of its key is of a key that a deeper level covers |
| Compaction.ReadsPreservedIffBelowMax | TwifreecaTV/Pods/leveldb-library/db/db_impl.cc:935-947 | the loop marks "no entry of this key yet" by kMaxSequenceNumber; reads are preserved for all inputs if and only if smallest_snapshot is below that number |
| Compaction.ReadsPreservedIff | TwifreecaTV/Pods/leveldb-library/db/db_impl.cc:945-985 | without the proviso of CompactionPreservesReads: reads from the smallest snapshot on are preserved if and only if no deletion that the base level test drops hides, at the smallest snapshot, a value that lies outside the input |
| Compaction.BaseLevelTest.IsBaseLevelForKey | TwifreecaTV/Pods/leveldb-library/db/version_set.cc:1484-1503 | asked for ascending keys, the cursors of the deeper levels answer whether no file there covers the key |
| Compaction.CompactionState.Add | TwifreecaTV/Pods/leveldb-library/db/db_impl.cc:986-1000 | one more entry goes to the output file that is open, or to a new one, whose smallest and largest keys keep bounding its content |
| Compaction.CompactionState.DoCompactionWork | TwifreecaTV/Pods/leveldb-library/db/db_impl.cc:911-1035 | wherever shutdown or a failing file operation ends the loop, what was written is the beginning of the entries to be kept, cut into files as the plan says; each output file takes two operations, to open and to finish it, and none comes after one that fails; the status is OK if and only if the input could be read, no shutdown came, and none of the operations that were performed failed |
| Compaction.CutIsKeep | TwifreecaTV/Pods/leveldb-library/db/db_impl.cc:986-1008 | the files hold, one after another, just the entries that are kept |
| Compaction.OpenIff | TwifreecaTV/Pods/leveldb-library/db/db_impl.cc:911-1008 | an entry that is kept goes into the file of the one kept before it if and only if that one did not fill the file, and no entry since was to begin a new one |
| Levels.GetOverlappingInputs | TwifreecaTV/Pods/leveldb-library/db/version_set.cc:531-570 | the tables of a level that overlap a range of user keys; at level 0, where each may widen the range and the search starts over, those of the least range that no overlapping table reaches out of |
| Levels.SetupOtherInputs | TwifreecaTV/Pods/leveldb-library/db/version_set.cc:1345-1411 | all tables of the next level that overlap the inputs are taken, and at level 0 all that overlap one another; the inputs grow to the tables in the range of both if and only if there are tables below, growing is allowed, it brings more tables, and none further below |
| Levels.PickCompaction | TwifreecaTV/Pods/leveldb-library/db/version_set.cc:1291-1343 | the same, from the one table that sizes or seeks pick, at level 0 with those of the least range around it |
| Levels.CompactRange | TwifreecaTV/Pods/leveldb-library/db/version_set.cc:1413-1446 | the same, from the tables that overlap the range, all of them at level 0 and the first ones up to a limit below; none exactly when nothing overlaps the range |
| Levels.RangedIsUnique | TwifreecaTV/Pods/leveldb-library/db/version_set.cc:531-570 | there is only one such choice of tables for a range |
| Levels.OverlappingIsStretch | TwifreecaTV/Pods/leveldb-library/db/version_set.cc:531-570 | below level 0 the tables that overlap a range are neighbours and keep their order |
| Levels.BaseLevelIff | TwifreecaTV/Pods/leveldb-library/db/version_set.cc:1484-1503 | a key is at its base level exactly when no table of the levels below the output reaches over it |
| Levels.SeparatedIff | TwifreecaTV/Pods/leveldb-library/db/version_set.cc:1291-1411 | on ordered levels, what such a choice leaves is not older than what it takes, or of a key that a deeper level covers, if and only if in neither input level the table after a chosen one is left although it begins with the user key that one ends with, a key without deeper entries |
| Levels.MergeInputIff | TwifreecaTV/Pods/leveldb-library/db/version_set.cc:1291-1411 | so exactly then the contract is met that the state machine asks of a compaction |
| Levels.DeletedComesBack | TwifreecaTV/Pods/leveldb-library/db/db_impl.cc:945-975 | otherwise a deleted value may come back: a deletion and the value beneath it, kept apart for a snapshot and written to two tables, of which the first is compacted alone |
| VersionGet.FindFile | TwifreecaTV/Pods/leveldb-library/db/version_set.cc:86-106 | binary search for the first table of an ordered level that does not end before the lookup key |
| VersionGet.LevelGetIsNewest | TwifreecaTV/Pods/leveldb-library/db/version_set.cc:375-395 | one seek in that table gives the newest entry of the level that the snapshot sees, or shows there is none |
| VersionGet.Level0IsNewest | TwifreecaTV/Pods/leveldb-library/db/version_set.cc:359-374 | at level 0 the tables that may hold the key, newest first, do |
| VersionGet.Get | TwifreecaTV/Pods/leveldb-library/db/version_set.cc:332-427 | the first level from the top that has a visible entry answers, with its newest; on ordered levels that is the newest entry of all tables, so that the search answers as reading them all would |
| LevelChanges.ChosenIsReady | TwifreecaTV/Pods/leveldb-library/db/version_set.cc:1345-1411 | a choice that splits no user key of its upper level leaves there only newer entries of the keys it takes, and in the lower level no table amid them |
| LevelChanges.InstallKeepsOrdered | TwifreecaTV/Pods/leveldb-library/db/version_set.cc:640-775 | as long as that is so, also after flushes in between, putting the outputs in place of the inputs keeps the levels ordered |
| LevelChanges.CompactionKeepsOrdered | TwifreecaTV/Pods/leveldb-library/db/version_set.cc:640-775 | so a compaction, or a move of tables to the next level, keeps the levels ordered if it splits no user key of its upper level |
| LevelChanges.MoveOrderedIff | TwifreecaTV/Pods/leveldb-library/db/db_impl.cc:717-738 | a move below level 0 leaves the levels ordered if and only if it splits no user key; and if and only if it splits none does the search by levels then find the newest entry of all tables, for every key and number |
| LevelChanges.MergeOrderedIff | TwifreecaTV/Pods/leveldb-library/db/version_set.cc:1291-1411 | for a compaction, whose outputs are what the merge loop keeps: it meets the contract of the state machine, and leaves the levels ordered, if and only if no user key is divided between a chosen table and the next one of its level, in the lower level counting only keys without deeper entries; the same holds with the search being right in place of the order |
| LevelChanges.OutputLevelInOrderIff | TwifreecaTV/Pods/leveldb-library/db/version_set.cc:736-775 | whatever was flushed in between, the output level is in order if and only if no output overlaps a table that is left there |
| LevelChanges.SplitMoveIsStale | TwifreecaTV/Pods/leveldb-library/db/db_impl.cc:717-738 | the move of a table that takes a deletion beneath the value it deleted: before it Get answers with the deletion, after it with the value |
| LevelChanges.CoveredSplitIsStale | TwifreecaTV/Pods/leveldb-library/db/db_impl.cc:945-985 | a compaction that meets the contract, since a deeper level covers the key and the deletion is kept, and after which Get answers with the deleted value all the same |
| LevelChanges.PickLevelForMemTableOutput | TwifreecaTV/Pods/leveldb-library/db/version_set.cc:502-528 | the level for a flush: nothing overlaps it there or above, or it is level 0; and it is the deepest one, unless something overlaps or the tables further down are too large |
| LevelChanges.FlushKeepsOrdered | TwifreecaTV/Pods/leveldb-library/db/db_impl.cc:488-532 | a flush to such a level keeps the levels ordered |
| LevelChanges.FlushKeepsReadyIff | TwifreecaTV/Pods/leveldb-library/db/db_impl.cc:917-930 | a flush in the middle of a compaction leaves its choice sound if and only if the table does not enter the output level amid the input |
| LevelChanges.GapIsLost | TwifreecaTV/Pods/leveldb-library/db/db_impl.cc:488-532 | the code has no such rule: a flush goes into a gap between two inputs, the output then reaches over its table, the level is out of order, and the table that the search of the level turns to does not hold the key that was flushed |
| DatabaseQueue.KeepsOrder | TwifreecaTV/Pods/leveldb-library/db/db_impl.cc:1194-1265 | every step of the writers keeps the queue: those answered, then those waiting, are the writers in their order of arrival, each once |
| DatabaseQueue.QueueKeepsScheduling | TwifreecaTV/Pods/leveldb-library/db/db_impl.cc:645-661 | a memtable switch, and any other step of a writer, leaves at most one background call outstanding, and one scheduled while there is work |
| DatabaseQueue.ViewKeepsScheduling | TwifreecaTV/Pods/leveldb-library/db/db_impl.cc:584-661 | so do reads, snapshots, manual requests, cancellations and shutdown |
| DatabaseQueue.WorkKeepsScheduling | TwifreecaTV/Pods/leveldb-library/db/db_impl.cc:667-684 | so does every step of the background worker, up to its end, where it schedules the next call |
| DatabaseMemory.QueueKeepsMemory | TwifreecaTV/Pods/leveldb-library/db/db_impl.cc:1214-1379 | steps of writers keep the layers: numbers in tables, in imm_ and in mem_ ascend from layer to layer, no number is used twice, and numbers above the last one belong to the group being inserted; nothing inserted disappears |
| DatabaseMemory.WorkKeepsMemory | TwifreecaTV/Pods/leveldb-library/db/db_impl.cc:488-565 | a flush moves the immutable memtable into the tables without changing what was ever inserted or the order of the layers |
| DatabaseMemory.QueueKeepsLogs | TwifreecaTV/Pods/leveldb-library/db/db_impl.cc:1223-1245 | the logs that the descriptor asks for are those of mem_ and imm_, and hold exactly the entries of those memtables, plus a record that is not inserted yet or could not be synced |
| DatabaseMemory.WorkKeepsLogs | TwifreecaTV/Pods/leveldb-library/db/db_impl.cc:218-272 | installing a version and deleting obsolete files never deletes a log whose entries are not in a table |
| DatabaseMemory.QueueKeepsOrphans | TwifreecaTV/Pods/leveldb-library/db/db_impl.cc:1229-1245 | a record whose sync failed is never inserted, its numbers are above all others, and no write comes after it |
| DatabaseMemory.QueueKeepsEditLog | TwifreecaTV/Pods/leveldb-library/db/db_impl.cc:548-552 | logfile_number_ as recorded at a flush stays the log of the memtable being filled: no switch happens while imm_ is pending |
| DatabaseMemory.QueueKeepsLogOrder | TwifreecaTV/Pods/leveldb-library/db/db_impl.cc:1225-1227 | the records of a log carry ascending sequence numbers |
| DatabaseStorage.ReadThroughLayer | TwifreecaTV/Pods/leveldb-library/db/db_impl.cc:1129-1144 | a layer of newer entries hides all older ones of a key if it has a visible one, and none otherwise |
| DatabaseStorage.SameReadsUnder | TwifreecaTV/Pods/leveldb-library/db/db_impl.cc:534-565 | two sets of tables that read the same still do when the same newer entries come on top of both |
| DatabaseStorage.FlushReads | TwifreecaTV/Pods/leveldb-library/db/db_impl.cc:488-565 | after a flush is installed the version reads like all that was ever flushed |
| DatabaseStorage.FlushBesideMerge | TwifreecaTV/Pods/leveldb-library/db/db_impl.cc:917-930 | a flush in the middle of a compaction leaves the contract of that compaction: what lies outside it is not older, or of a key that a deeper level covers |
| DatabaseStorage.MergeReads | TwifreecaTV/Pods/leveldb-library/db/db_impl.cc:866-885 | installing the outputs of a compaction in place of its inputs changes no read of the tables from its smallest_snapshot on, if the choice of inputs met MergeInput |
| DatabaseStorage.WrittenIsOutput | TwifreecaTV/Pods/leveldb-library/db/db_impl.cc:986-1008 | output files that hold what the merge loop wrote are what MergeDone asks for |
| DatabaseStorage.QueueKeepsStorage | TwifreecaTV/Pods/leveldb-library/db/db_impl.cc:1194-1379 | steps of writers keep the version, the files of readers, the order and the bound of snapshots, and the descriptor on disk |
| DatabaseStorage.ViewKeepsStorage | TwifreecaTV/Pods/leveldb-library/db/db_impl.cc:1175-1183 | a new snapshot is at least every earlier one and at least every compaction's bound; releasing one keeps the order |
| DatabaseStorage.WorkKeepsStorage | TwifreecaTV/Pods/leveldb-library/db/db_impl.cc:686-1050 | every step of the worker, with each failure of the model, keeps all of storage: the version reads like the flushed history, no file in use is missing, outputs under way are nobody's, the disk holds the installed version or already the next |
| DatabaseStorage.CollectKeepsStorage | TwifreecaTV/Pods/leveldb-library/db/db_impl.cc:218-272 | deleting obsolete files deletes nothing that the version, a reader or a compaction under way needs |
| DatabaseReaders.LayeredGetIsRead | TwifreecaTV/Pods/leveldb-library/db/db_impl.cc:1109-1154 | because each layer is newer than the next, trying mem_, imm_ and the version in turn finds the newest entry of all three that the snapshot sees |
| DatabaseReaders.QueueKeepsReaders | TwifreecaTV/Pods/leveldb-library/db/db_impl.cc:1123-1144 | what a reader captured keeps answering for its snapshot while groups are inserted into the very memtable it reads |
| DatabaseReaders.ViewKeepsReaders | TwifreecaTV/Pods/leveldb-library/db/db_impl.cc:1109-1126 | a reader that begins captures memtables and a version that answer, with a snapshot, for what was inserted up to its number, and without one for all that is committed: all that was inserted but for the group under way |
| DatabaseReaders.WorkKeepsReaders | TwifreecaTV/Pods/leveldb-library/db/db_impl.cc:1056-1096 | flushes, compactions and deletions leave every reader's answers alone |
| DatabaseAcks.AdjacentAnswers | TwifreecaTV/Pods/leveldb-library/db/db_impl.cc:1218-1247 | the batches of a group take adjacent ranges of numbers, in queue order, from the last sequence number on |
| DatabaseAcks.FinishAnswers | TwifreecaTV/Pods/leveldb-library/db/db_impl.cc:1247-1257 | at the end of a group all its writers get its status, with the ranges of numbers of their batches |
| DatabaseAcks.QueueKeepsAcks | TwifreecaTV/Pods/leveldb-library/db/db_impl.cc:1194-1265 | every step of a writer keeps what answered writers were promised: adjacent numbers, all of a batch or nothing, a record or table that holds it, a sync over that record if asked for |
| DatabaseAcks.WorkKeepsAcks | TwifreecaTV/Pods/leveldb-library/db/db_impl.cc:534-565 | flushes and compactions keep those promises: a batch whose log goes is in a table |
| DatabaseRuns.OpenedInv | TwifreecaTV/Pods/leveldb-library/db/db_impl.cc:1490-1532 | what opening leaves behind satisfies the invariant |
| DatabaseRuns.StepKeeps | TwifreecaTV/Pods/leveldb-library/db/db_impl.cc:1194-1379 | every step of anyone keeps the invariant, and only adds entries and answers with larger numbers |
| DatabaseRuns.RunKeeps | TwifreecaTV/Pods/leveldb-library/db/db_impl.cc:1194-1379 | so does every run |
| DatabaseGuarantees.LayersReadHistory | TwifreecaTV/Pods/leveldb-library/db/db_impl.cc:1109-1154 | in every state that a run reaches, whose compactions met MergeInput, memtable, immutable memtable and the version, each read as a set, answer with the newest entry ever inserted |
| DatabaseLevels.ChosenMeetsContract | TwifreecaTV/Pods/leveldb-library/db/version_set.cc:1291-1446 | a choice of PickCompaction or CompactRange that splits no key meets MergeInput in every state of a run |
| DatabaseLevels.LevelStepKeeps | TwifreecaTV/Pods/leveldb-library/db/db_impl.cc:686-1050 | the state machine with levels: every step, among them compactions and moves that split no key, and flushes to the level that PickLevelForMemTableOutput gives and not amid the input of a compaction into that level, keeps all levels in order, those of the current version, of the one on disk and of those that readers hold |
| DatabaseLevels.LevelRunKeeps | TwifreecaTV/Pods/leveldb-library/db/db_impl.cc:686-1050 | so does every run |
| DatabaseLevels.LevelRunsAreRuns | TwifreecaTV/Pods/leveldb-library/db/db_impl.cc:686-1050 | a run with levels is a run of the plain state machine, so that all its guarantees hold |
| DatabaseGets.GetReadsHistory | TwifreecaTV/Pods/leveldb-library/db/db_impl.cc:1109-1154 | in every state that such a run reaches, a Get at the last sequence number or at a held snapshot, which tries memtable, immutable memtable and then level by level, answers with the newest entry ever inserted that is not newer than it: nothing committed is lost, and no flush, compaction or move shows |
| DatabaseGets.ReaderReadsHistory | TwifreecaTV/Pods/leveldb-library/db/db_impl.cc:1067-1096 | so does a reader that captured memtables and version earlier and has lost the mutex since |
| DatabaseGets.ReaderReadsAcross | TwifreecaTV/Pods/leveldb-library/db/db_impl.cc:1123-1144 | and it may look at memtable, immutable memtable and the levels of its version in three different states of a run, others going on in between: the answer is that of one look |
| DatabaseGets.SnapshotIsRepeatable | TwifreecaTV/Pods/leveldb-library/db/db_impl.cc:1175-1183 | as long as a snapshot is held, a Get at it answers as on the day it was taken, whatever was written, flushed, compacted, moved and deleted since |
| DatabaseFreshness.AnsweredIsCommitted | TwifreecaTV/Pods/leveldb-library/db/db_impl.cc:1239-1257 | all of a batch that was answered OK is committed, and nothing of one that failed |
| DatabaseFreshness.NewReaderReads | TwifreecaTV/Pods/leveldb-library/db/db_impl.cc:1109-1154 | a Get that begins without a snapshot, whenever it then looks at memtable, immutable memtable and levels, answers with the newest of all that was committed when it began: callers read what they have written; with a snapshot it answers for its number |
| DatabaseFreshness.NewSnapshotReads | TwifreecaTV/Pods/leveldb-library/db/db_impl.cc:1175-1183 | a snapshot is of all that was committed when it was taken, and a Get at it answers so in every later state until it is released |
| DatabaseFreshness.SnapshotStays | TwifreecaTV/Pods/leveldb-library/db/db_impl.cc:1180-1183 | a snapshot stays in the list, and so counts for compactions, as long as nobody releases it |
| DatabaseGuarantees.ReadsNeverChange | TwifreecaTV/Pods/leveldb-library/db/db_impl.cc:1109-1154 | what is read at a number that has been reached is the same in every later state |
| DatabaseGuarantees.AnsweredInOrder | TwifreecaTV/Pods/leveldb-library/db/db_impl.cc:1194-1265 | in every reachable state: writers are answered once, in their order of arrival; a batch has its operations' entries under numbers without gaps; a later batch has larger ones |
| DatabaseGuarantees.BatchesAreAtomic | TwifreecaTV/Pods/leveldb-library/db/db_impl.cc:1223-1247 | a reader at a number that was once the last sees all of a batch or nothing, at any later time, for batches that are answered and for the group that is being inserted |
| DatabaseGuarantees.AnswersAreFinal | TwifreecaTV/Pods/leveldb-library/db/db_impl.cc:1239-1257 | a batch that was answered OK is in the history ever after, one that failed never |
| DatabaseGuarantees.OkMeansKept | TwifreecaTV/Pods/leveldb-library/db/db_impl.cc:1225-1245 | a batch answered OK is in a table or in one record of the log of mem_ or imm_; for a sync writer a sync has covered that record |
| DatabaseGuarantees.MemtablesAreLogged | TwifreecaTV/Pods/leveldb-library/db/db_impl.cc:534-565 | mem_ and imm_ are in logs numbered at least the descriptor's log number; and a flush edit under way carries the number of the log being filled |
| DatabaseGuarantees.WaitersHaveAWaker | TwifreecaTV/Pods/leveldb-library/db/db_impl.cc:645-684 | at most one background call is outstanding; while imm_ or a manual compaction waits, without error or shutdown, exactly one is |
| DatabaseGuarantees.SnapshotsAboveBound | TwifreecaTV/Pods/leveldb-library/db/db_impl.cc:900-904 | every live snapshot is at least the smallest_snapshot of every compaction begun so far, and the oldest in the list is the smallest |
| DatabaseGuarantees.BoundIsLeast | TwifreecaTV/Pods/leveldb-library/db/db_impl.cc:900-904 | a compaction begins with the least of the snapshots held as its bound, or with the last number if there is none |
| DatabaseGuarantees.ManualStandsUntilServed | TwifreecaTV/Pods/leveldb-library/db/db_impl.cc:584-635 | a manual request stands until the worker has served it or found nothing to do, or its caller gives up |
| DatabaseGuarantees.ReleaseTakesOne | TwifreecaTV/Pods/leveldb-library/db/db_impl.cc:1180-1183 | releasing a snapshot takes that one out of the list, and no other |
| DatabaseGuarantees.SwitchEmptiesMemtable | TwifreecaTV/Pods/leveldb-library/db/db_impl.cc:1359-1376 | a write without a batch, and one that finds the memtable full, leaves the memtable empty, all it held in imm_, and the worker scheduled |
| DatabaseGuarantees.ObsoleteIsDeleted | TwifreecaTV/Pods/leveldb-library/db/db_impl.cc:218-272 | when a flush or a compaction is installed, only tables are left that the version, a reader, a compaction or an output under way needs, and only logs that the descriptor asks for; after an error nothing is deleted |
| DatabaseGuarantees.FailureStopsWrites | TwifreecaTV/Pods/leveldb-library/db/db_impl.cc:637-643 | after a sync, a flush, a compaction or a descriptor write has failed, no writer is answered OK any more, in any run, but those whose group was under way |
| DatabaseCrash.DiskReads | TwifreecaTV/Pods/leveldb-library/db/db_impl.cc:548-565 | the descriptor on disk, whether or not its last write is known to have succeeded, names tables that read like all that was flushed up to the logs it asks for |
| DatabaseCrash.RecoveryReads | TwifreecaTV/Pods/leveldb-library/db/db_impl.cc:365-486 | after a crash at any point of any run that cuts each log anywhere behind its synced bytes, the tables of the descriptor and what the log reader delivers of the logs hold only what was written, and read like everything that was flushed together with that, provided the logs are in step: each fragment where a reader looks for it |
| DatabaseCrash.CrashKeepsWholeBatches | TwifreecaTV/Pods/leveldb-library/db/db_impl.cc:1223-1245 | logs in step: a crash keeps all of a batch that was answered OK if it is in a table on disk or all bytes of its record are left, and nothing of it otherwise |
| DatabaseCrash.SyncedSurvives | TwifreecaTV/Pods/leveldb-library/db/db_impl.cc:1228-1237 | a batch of a sync writer that was answered OK survives every crash, if it is in a table or its log was in step up to its record, whatever was appended later, failed or not, and whatever became of other logs |
| DatabaseLosses.SyncedIsLost | TwifreecaTV/Pods/leveldb-library/db/log_writer.cc:84-109 | it does not survive in every run: with the block size of the code and three batches, the first of whose appends fails, the third is synced and answered OK, and gone after a crash that loses no byte |
| DatabaseLosses.ForgedIsRecovered | TwifreecaTV/Pods/leveldb-library/db/log_reader.cc:199-281 | and recovery can bring back what nobody wrote: in such a run a value that holds the bytes of a log record is read as one |
| DatabaseCrash.UndamagedIsInStep | TwifreecaTV/Pods/leveldb-library/db/db_impl.cc:1225-1237 | logs to which no append has failed are in step |
| DatabaseCrash.CrashKeepsAPrefix | TwifreecaTV/Pods/leveldb-library/db/log_reader.cc:60-182 | what a crash leaves of a log in step has no gaps |
| DatabaseCrash.ReopenedReads | TwifreecaTV/Pods/leveldb-library/db/db_impl.cc:274-363 | logs in step: opening after the crash gives a state from which all the guarantees hold again, and a Get then answers with the newest of what survived |
| DatabaseReopening.ReopenedInOrder | TwifreecaTV/Pods/leveldb-library/db/db_impl.cc:452-476 | what opening builds after a run with levels, the levels on disk with the replayed records in a table at level 0, has its levels in order, so that such runs, and with them the guarantees, begin anew |
| DatabaseReopening.GetAfterCrash | TwifreecaTV/Pods/leveldb-library/db/db_impl.cc:274-363 | logs in step: a Get after opening, level by level, answers with the newest of what was flushed and what is left in the logs |
| DatabaseLogs.ReplayWrites | TwifreecaTV/Pods/leveldb-library/db/db_impl.cc:412-450 | replaying the records of appends that succeeded gives their entries, in order |
| DatabaseLogs.InStepLog | TwifreecaTV/Pods/leveldb-library/db/db_impl.cc:401-470 | from a log in step, cut anywhere behind its synced bytes, recovery brings back exactly the entries of its first appends: of those whose bytes are all left, and all synced ones are among them |
| DatabaseLogs.EveryPrefixIsLeft | TwifreecaTV/Pods/leveldb-library/db/db_impl.cc:401-470 | and conversely, every run of first appends that includes the synced ones is what some such cut leaves |
| DatabaseLogs.SyncedInStep | TwifreecaTV/Pods/leveldb-library/db/db_impl.cc:401-470 | a synced append is brought back if the log was in step up to it |
| DbImpl.DBImpl.MakeRoomForWrite | TwifreecaTV/Pods/leveldb-library/db/db_impl.cc:1318-1379 | one pass of the loop: exactly when it has each of its six outcomes, and that the state changes by a memtable switch or not at all |
| DbImpl.DBImpl.SwitchMemTable | TwifreecaTV/Pods/leveldb-library/db/db_impl.cc:1355-1375 | the switch takes the step of the state machine |
| DbImpl.DBImpl.BuildBatchGroup | TwifreecaTV/Pods/leveldb-library/db/db_impl.cc:1269-1314 | the group is the longest that the sync and size rules allow, and its batch is the concatenation of the members' batches |
| DbImpl.DBImpl.LeadWrite | TwifreecaTV/Pods/leveldb-library/db/db_impl.cc:1194-1220 | from the front of the queue to the next wait or to logging: with room, the step that leads a group or answers a NULL batch; with an error, the step that answers it; else nothing |
| DbImpl.DBImpl.InsertInto | TwifreecaTV/Pods/leveldb-library/db/db_impl.cc:1238-1240 | the group's entries, all of them and nothing else, reach the memtable |
| DbImpl.DBImpl.FinishGroup | TwifreecaTV/Pods/leveldb-library/db/db_impl.cc:1241-1265 | popping the writers one by one takes the step that ends the group, and records a failed sync |
| DbImpl.DBImpl.PopGroup | TwifreecaTV/Pods/leveldb-library/db/db_impl.cc:1250-1257 | the loop pops exactly the group's writers and answers each with the group's status |
| DbImpl.DBImpl.MaybeScheduleCompaction | TwifreecaTV/Pods/leveldb-library/db/db_impl.cc:645-661 | schedules a call just when none is scheduled, nothing forbids it and there is work |
| DbImpl.DBImpl.EndBackgroundCall | TwifreecaTV/Pods/leveldb-library/db/db_impl.cc:677-684 | the end of a background call, and its successor |
| DbImpl.DBImpl.BeginLevel0Table | TwifreecaTV/Pods/leveldb-library/db/db_impl.cc:488-500 | a flush begins with a protected file number |
| DbImpl.DBImpl.FinishLevel0Table | TwifreecaTV/Pods/leveldb-library/db/db_impl.cc:505-565 | after the table is built: an edit if it was built and there is no shutdown, an error otherwise; the state machine's step either way |
| DbImpl.DBImpl.DeleteObsoleteFiles | TwifreecaTV/Pods/leveldb-library/db/db_impl.cc:218-272 | the pass over the directory takes the collection step of the state machine, tables and logs alike; of other files it deletes exactly the older descriptors and the temporary files that are not live, and nothing at all after a background error |
| DbIter.StepsCancel | TwifreecaTV/Pods/leveldb-library/db/db_iter.cc:146-230 | for the plain cursor, Next and Prev undo each other |
| DbIter.YieldsRead | TwifreecaTV/Pods/leveldb-library/db/db_iter.cc:173-203 | the first entry of a key that a snapshot sees, if it is a value, is what reading the key gives |
| DbIter.FirstYieldIsLeast | TwifreecaTV/Pods/leveldb-library/db/db_iter.cc:173-203 | the first entry shown within a bound is the least key of the map within it |
| DbIter.LastYieldIsGreatest | TwifreecaTV/Pods/leveldb-library/db/db_iter.cc:232-272 | the last one is the greatest |
| DbIter.DBIter.Next | TwifreecaTV/Pods/leveldb-library/db/db_iter.cc:146-171 | from either direction, to the least key of the snapshot's map above the current one |
| DbIter.DBIter.FindNextUserEntry | TwifreecaTV/Pods/leveldb-library/db/db_iter.cc:173-203 | from where the inner iterator stands, the least key within the bound, however many hidden and deleted entries lie between |
| DbIter.DBIter.Prev | TwifreecaTV/Pods/leveldb-library/db/db_iter.cc:205-230 | from either direction, to the greatest key below the current one |
| DbIter.DBIter.FindPrevUserEntry | TwifreecaTV/Pods/leveldb-library/db/db_iter.cc:232-272 | backwards likewise, although too new entries may leave the inner iterator several entries before the key shown |
| DbIter.DBIter.Seek | TwifreecaTV/Pods/leveldb-library/db/db_iter.cc:274-286 | to the least key at or after the target |
| DbIter.DBIter.SeekToFirst | TwifreecaTV/Pods/leveldb-library/db/db_iter.cc:288-297 | to the least key |
| DbIter.DBIter.SeekToLast | TwifreecaTV/Pods/leveldb-library/db/db_iter.cc:299-304 | to the greatest key |
| DbIter.DBIter.Run | TwifreecaTV/Pods/leveldb-library/db/db_iter.cc:146-304 | over any sequence of operations with all their changes of direction, what is shown is what a cursor over the map of the snapshot shows |
| LogFormat.UnmaskMask | TwifreecaTV/Pods/leveldb-library/util/crc32c.h:31-41 | unmasking undoes masking |
| LogFormat.FragmentsSplit | TwifreecaTV/Pods/leveldb-library/db/log_writer.cc:36-82 | the fragments of a record: kinds, lengths, and an empty first fragment exactly when there is no data or a block has just room for a header |
| LogFormat.LogBytesConcat | TwifreecaTV/Pods/leveldb-library/db/log_writer.cc:28-31 | the bytes of a log written in two sittings, the second reopened at the file's length, are those of one written in one |
| LogFormat.HeaderInNumbers | TwifreecaTV/Pods/leveldb-library/db/log_writer.cc:84-109 | a header is four bytes of masked checksum, two of length with the lowest first, and the kind, numbered from 1 to 4 |
| LogWriter.Writer.Reopen | TwifreecaTV/Pods/leveldb-library/db/log_writer.cc:28-31 | reopening at the length of a file resumes the block offset |
| LogWriter.Writer.AddRecord | TwifreecaTV/Pods/leveldb-library/db/log_writer.cc:36-82 | a record is appended in fragments that fit the blocks as the writer sees them; if a fragment cannot be appended, exactly those before it and the trailer reach the file, and the writer counts the lost one; after any number of calls the file is what all of them together bring to it |
| LogWriter.Writer.EmitPhysicalRecord | TwifreecaTV/Pods/leveldb-library/db/log_writer.cc:84-109 | header with masked checksum, then payload; the block offset moves on whether or not it could be appended |
| LogReader.Reader.SkipToInitialBlock | TwifreecaTV/Pods/leveldb-library/db/log_reader.cc:36-58 | reading begins at the block of the initial offset, or at the next if that lies in a trailer |
| LogReader.Reader.ReadPhysicalRecord | TwifreecaTV/Pods/leveldb-library/db/log_reader.cc:199-281 | block by block, the reader finds the next fragment, the end of the file, or a bad record, with the reports that go with it |
| LogReader.Reader.ReadRecord | TwifreecaTV/Pods/leveldb-library/db/log_reader.cc:60-182 | each call gives the next logical record of the file, and the reports up to it |
| LogChecks.GenuineIsTakenIff | TwifreecaTV/Pods/leveldb-library/db/log_reader.cc:199-281 | a fragment of any file whose length is all in the buffer is returned if and only if its bytes are those a writer makes of its kind and payload, checksum included; otherwise it is dropped with the rest of its block, and reported |
| LogChecks.AlteredIsDropped | TwifreecaTV/Pods/leveldb-library/db/log_reader.cc:254-266 | so a fragment with an altered payload that the checksum tells from the one written is dropped and reported |
| LogChecks.DeliveredIsGenuine | TwifreecaTV/Pods/leveldb-library/db/log_reader.cc:60-182 | with checksums on, every record delivered, of any file and from any offset, is the payload of one full fragment, or of a first, middle ones and a last right behind one another, each standing in the file byte for byte as a writer makes it |
| LogRecovery.ReadLogDelivers | TwifreecaTV/Pods/leveldb-library/db/log_reader.cc:60-281 | a log cut at any byte and read from any initial offset gives exactly the records whose first fragment starts at or after the offset and that lie wholly in the bytes kept; from offset 0 nothing is reported |
| LogRecovery.DeliveredIsPrefix | TwifreecaTV/Pods/leveldb-library/db/log_reader.cc:60-281 | from offset 0 that is the longest run of records whose bytes fit |
| LogRecovery.RoundTrip | TwifreecaTV/Pods/leveldb-library/db/log_writer.cc:36-109 | a log read from its start gives back its records, and no reports |
| LogDamage.InStepReads | TwifreecaTV/Pods/leveldb-library/db/log_reader.cc:60-182 | a file to which appends failed, but in which every fragment lies where a reader looks for it, cut anywhere: the reader delivers the records of the calls that succeeded and whose bytes are all left, and reports nothing unless a call lost a later fragment than its first |
| LogDamage.InStepPrefix | TwifreecaTV/Pods/leveldb-library/db/log_reader.cc:60-182 | records of calls in step are delivered first, whatever later calls bring to the file |
| LogDamage.UndamagedInStep | TwifreecaTV/Pods/leveldb-library/db/log_writer.cc:36-82 | without a failed call a file is in step |
| LogDamage.WholeBlocksLost | TwifreecaTV/Pods/leveldb-library/db/log_writer.cc:84-109 | if the lost bytes come to whole blocks, all that is appended then is in step |
| LogDamage.SameBlock | TwifreecaTV/Pods/leveldb-library/db/log_writer.cc:84-109 | so is what is appended, failed or not, as long as the writer is in the block in which the file ends |
| LogDamage.FragmentReadIff | TwifreecaTV/Pods/leveldb-library/db/log_reader.cc:184-271 | a fragment where the reader looks for the next one is returned if and only if it fits in the block there; otherwise the rest of the block is dropped and reported |
| LogDamage.RecordTakenIff | TwifreecaTV/Pods/leveldb-library/db/log_reader.cc:60-182 | after calls in step, a record is taken from its own place if and only if each of its fragments fits in the block where it lies; and then it is delivered next |
| LogDamage.RecordIsLost | TwifreecaTV/Pods/leveldb-library/db/log_writer.cc:84-109 | for any block size and any such records: after a lost one, and one that with it would just have filled the block, a third that is up to six bytes longer than the first is never delivered |
| LogDamage.RecordIsForged | TwifreecaTV/Pods/leveldb-library/db/log_reader.cc:199-281 | and if the third holds the bytes of a log record behind as many bytes as the first was long, that record is delivered instead |
| Coding.DecodeEncodeFixed64 | TwifreecaTV/Pods/leveldb-library/util/coding.cc:20-33 | fixed 64-bit numbers are read back |
| Coding.FixedInNumbers | TwifreecaTV/Pods/leveldb-library/util/coding.cc:9-33 | the lowest byte comes first |
| Coding.EncodeIsBase128 | TwifreecaTV/Pods/leveldb-library/util/coding.cc:47-73 | the five cases of EncodeVarint32 are the base 128 form |
| Coding.GetEncodedVarint32 | TwifreecaTV/Pods/leveldb-library/util/coding.cc:112-141 | GetVarint32 inverts EncodeVarint32, whatever follows |
| Coding.GetVarString | TwifreecaTV/Pods/leveldb-library/util/coding.cc:98-101 | length-prefixed strings are read back |
| WriteBatches.ParseBodyOf | TwifreecaTV/Pods/leveldb-library/db/write_batch.cc:42-80 | the updates of a batch are parsed back from its bytes |
| WriteBatches.InsertAllOf | TwifreecaTV/Pods/leveldb-library/db/write_batch.cc:112-134 | a batch is inserted as it was built: one entry for each update, numbered from the batch's number |
| WriteBatches.AppendedInsert | TwifreecaTV/Pods/leveldb-library/db/write_batch.cc:141-145 | batches that were appended to one another are inserted as one: the second under the numbers that follow the first |
| WriteBatches.RepInNumbers | TwifreecaTV/Pods/leveldb-library/db/write_batch.cc:5-14 | the bytes of a batch with a put and a deletion |
| WriteBatches.CutBatch | TwifreecaTV/Pods/leveldb-library/db/write_batch.cc:42-80 | a batch that is cut off at any byte behind its header is refused, and the updates before the cut are inserted |
| WriteBatches.MiscountedBatch | TwifreecaTV/Pods/leveldb-library/db/write_batch.cc:75-79 | a batch is sound if and only if it holds as many updates as it says |
| WriteBatches.UnknownKind | TwifreecaTV/Pods/leveldb-library/db/write_batch.cc:71-73 | a byte that is no kind of update ends a batch as unsound |
| WriteBatches.WriteBatch.Add | TwifreecaTV/Pods/leveldb-library/db/write_batch.cc:98-109 | Put and Delete append one update and count it |
| WriteBatches.WriteBatch.Append | TwifreecaTV/Pods/leveldb-library/db/write_batch.cc:141-145 | the other batch's updates follow |
| WriteBatches.InsertInto | TwifreecaTV/Pods/leveldb-library/db/write_batch.cc:42-80 | the loop over any bytes, malformed ones included, inserts what parsing says and fails when it does |
| Recovery.RecoverLogFile | TwifreecaTV/Pods/leveldb-library/db/db_impl.cc:401-470 | any log file, with or without paranoid checks, is replayed record by record; with paranoid checks a report is an error |
| Recovery.ReplayOkIff | TwifreecaTV/Pods/leveldb-library/db/db_impl.cc:412-450 | for records of any kind: with paranoid checks recovery succeeds if and only if each is a sound batch; without them it always does, and leaves nothing out that can be read |
| Recovery.CrashRecoveryIsPrefix | TwifreecaTV/Pods/leveldb-library/db/db_impl.cc:401-450 | from a log of group commits that is cut at any byte, recovery rebuilds exactly the entries of the commits whose records lie wholly in the bytes kept, with the last of their numbers or the one it started from, whichever is higher, and reports no corruption |
| SkipLists.LoadOk | TwifreecaTV/Pods/leveldb-library/db/skiplist.h:262-281 | one load of a link keeps a search sound; the one that ends it finds the first node at or after the target and the last before it |
| SkipLists.AllocateOk | TwifreecaTV/Pods/leveldb-library/db/skiplist.h:345-363 | raising max_height_ and allocating a node makes nothing reachable |
| SkipLists.PublishOk | TwifreecaTV/Pods/leveldb-library/db/skiplist.h:364-369 | the store into the predecessor links the node at one more level and keeps every level sorted and complete |
| SkipLists.StepKeepsOk | TwifreecaTV/Pods/leveldb-library/db/skiplist.h:337-370 | in any interleaving of a writer's stores and readers' loads all links and searches stay sound, and the set held changes at one step only, the store at the lowest level |
| SkipLists.RunKeepsOk | TwifreecaTV/Pods/leveldb-library/db/skiplist.h:16-26 | so in every run; and nodes are never lost |
| SkipLists.SearchIsLinearizable | TwifreecaTV/Pods/leveldb-library/db/skiplist.h:262-281 | whatever maximum height a search began with and whatever was inserted meanwhile, it returns the least key at or after its target of the set held at its last load |
| SkipLists.SkipList.FindGreaterOrEqual | TwifreecaTV/Pods/leveldb-library/db/skiplist.h:262-281 | the first node at or after the key, and the predecessor at every level |
| SkipLists.SkipList.FindLessThan | TwifreecaTV/Pods/leveldb-library/db/skiplist.h:285-302 | the last node before the key, or the head |
| SkipLists.SkipList.FindLast | TwifreecaTV/Pods/leveldb-library/db/skiplist.h:305-322 | the last node, or the head |
| SkipLists.SkipList.Insert | TwifreecaTV/Pods/leveldb-library/db/skiplist.h:337-370 | the list stays linked at all levels and holds the key besides what it held, whatever the random height |
| SkipLists.SkipList.Contains | TwifreecaTV/Pods/leveldb-library/db/skiplist.h:373-380 | true if and only if the key is in the list |
| SkipLists.FollowsIsUnique | TwifreecaTV/Pods/leveldb-library/db/skiplist.h:208-222 | each node has one successor and one predecessor: Next and Prev undo each other |
| SkipLists.Iterator.Next | TwifreecaTV/Pods/leveldb-library/db/skiplist.h:208-211 | to the successor |
| SkipLists.Iterator.Prev | TwifreecaTV/Pods/leveldb-library/db/skiplist.h:214-222 | to the node whose successor this one is, by searching |
| SkipLists.Iterator.Seek | TwifreecaTV/Pods/leveldb-library/db/skiplist.h:225-227 | to the first node at or after the target |
| SkipLists.Iterator.SeekToLast | TwifreecaTV/Pods/leveldb-library/db/skiplist.h:235-240 | to the node without a successor |
| MemTables.EntryParts | TwifreecaTV/Pods/leveldb-library/db/memtable.cc:82-106 | key, tag and value are read back from the buffer that Add fills, and the comparator sees the key and tag |
| MemTables.LookupParts | TwifreecaTV/Pods/leveldb-library/db/dbformat.cc:121-138 | the lookup key is seen as the user key with the largest tag the snapshot admits |
| MemTables.LookupDivides | TwifreecaTV/Pods/leveldb-library/db/dbformat.cc:50-66 | among the entries of a key, exactly those that the snapshot sees are not before the lookup key |
| MemTables.SeekFindsNewest | TwifreecaTV/Pods/leveldb-library/db/memtable.cc:108-143 | the node that one seek finds is the newest the snapshot sees, if it is of the key; if not there is none |
| MemTables.MemTable.Add | TwifreecaTV/Pods/leveldb-library/db/memtable.cc:82-106 | adds one entry |
| MemTables.MemTable.Get | TwifreecaTV/Pods/leveldb-library/db/memtable.cc:108-143 | true if and only if the key has an entry the snapshot sees; then the value, or none if the newest is a deletion |
| Snapshots.SnapshotList.New | TwifreecaTV/Pods/leveldb-library/db/snapshot.h:42-51 | the ring stays linked both ways, and a number not below the others keeps it ascending |
| Snapshots.SnapshotList.Delete | TwifreecaTV/Pods/leveldb-library/db/snapshot.h:53-58 | takes out that snapshot and leaves the others linked in their order |
| Snapshots.SnapshotList.Oldest | TwifreecaTV/Pods/leveldb-library/db/snapshot.h:39-39 | the first has the smallest number |
| PbVarints.VarintLength | TwifreecaTV/Pods/nanopb/pb_encode.c:574-594 | 64 bits take at most ten bytes |
| PbVarints.DecodeEncodedVarint | TwifreecaTV/Pods/nanopb/pb_decode.c:250-270 | decoding inverts encoding for every 64-bit value |
| PbVarints.VarintFits | TwifreecaTV/Pods/nanopb/pb_decode.c:250-270 | whatever the bytes, what is decoded has 64 bits |
| PbVarints.ZigZagInverts | TwifreecaTV/Pods/nanopb/pb_encode.c:596-605 | zigzag is inverted for every signed 64-bit value, and is 2n or -2n-1 |
| PbVarints.UnZigZagInverts | TwifreecaTV/Pods/nanopb/pb_decode.c:1240-1252 | and conversely |
| PbVarints.Varint32Exact | TwifreecaTV/Pods/nanopb/pb_decode.c:182-242 | exactly which 64-bit values the 32-bit reader takes, and what it makes of them |
| PbVarints.SignExtendedIsTaken | TwifreecaTV/Pods/nanopb/pb_decode.c:215-224 | a negative 32-bit number extended to 64 bits is taken as its lowest 32 bits |
| PbVarints.TooLargeIsRefused | TwifreecaTV/Pods/nanopb/pb_decode.c:215-236 | a value from 2^32 to 2^63 is refused |
| PbVarints.NotEveryOverflowIsRefused | TwifreecaTV/Pods/nanopb/pb_decode.c:215-236 | but 2^63 + 2^31 is taken as 2^31 |
| PbStreams.IStream.DecodeVarint | TwifreecaTV/Pods/nanopb/pb_decode.c:250-270 | the loop, on any bytes |
| PbStreams.IStream.DecodeVarint32 | TwifreecaTV/Pods/nanopb/pb_decode.c:182-242 | the loop, on any bytes; end of stream is told apart from a broken varint |
| PbStreams.IStream.ReadTag | TwifreecaTV/Pods/nanopb/pb_decode.c:293-314 | tag and wire type; the end of the message by the end of bytes or a zero |
| PbStreams.IStream.SkipField | TwifreecaTV/Pods/nanopb/pb_decode.c:316-326 | skips a field of any wire type, or fails |
| PbStreams.IStream.MakeStringSubstream | TwifreecaTV/Pods/nanopb/pb_decode.c:367-380 | a stream that is limited to the string, the rest being kept for this one |
| PbStreams.IStream.CloseStringSubstream | TwifreecaTV/Pods/nanopb/pb_decode.c:382-396 | this stream goes on after the string, read or not |
| PbStreams.OStream.Write | TwifreecaTV/Pods/nanopb/pb_encode.c:101-120 | writes, or only counts; fails if and only if there is no room |
| PbStreams.OStream.EncodeVarint | TwifreecaTV/Pods/nanopb/pb_encode.c:574-594 | the loop over a buffer of ten bytes writes the base 128 form |
| PbEncoder.EncodeValue | TwifreecaTV/Pods/nanopb/pb_encode.c:734-869 | each type's encoder writes the bytes of the value, or fails if there are none or no room |
| PbEncoder.EncodeArray | TwifreecaTV/Pods/nanopb/pb_encode.c:126-211 | packed where the type allows it, with the size found beforehand; else item by item |
| PbEncoder.EncodeSubmessage | TwifreecaTV/Pods/nanopb/pb_encode.c:682-730 | the second pass writes exactly the size the first one counted: "submsg size changed" cannot be reached |
| PbEncoder.EncodeBasicField | TwifreecaTV/Pods/nanopb/pb_encode.c:307-391 | required, optional, singular, repeated and union fields |
| PbEncoder.Encode | TwifreecaTV/Pods/nanopb/pb_encode.c:494-516 | field after field: the bytes of the message, if they exist and fit |
| PbEncoder.EncodeToBuffer | TwifreecaTV/Pods/nanopb/pb_encode.c:533-542 | the size counted beforehand is exact: encoding to a buffer succeeds if and only if its capacity is at least that size, and fills that many bytes |
| PbDecoding.DecValue | TwifreecaTV/Pods/nanopb/pb_decode.c:1289-1508 | each type's decoder, a submessage in a stream of its own |
| PbDecoding.DecPacked | TwifreecaTV/Pods/nanopb/pb_decode.c:418-441 | packed items as long as there is room; leftover bytes are an error |
| PbDecoding.DecSlot | TwifreecaTV/Pods/nanopb/pb_decode.c:401-475 | every rule of decode_static_field |
| PbDecoding.DecodeNoInit | TwifreecaTV/Pods/nanopb/pb_decode.c:901-1049 | for every input the loop computes what the decoding function says, with the field iterator, unknown fields, early ends and the check for required fields |
| PbDecoding.CountRequired | TwifreecaTV/Pods/nanopb/pb_decode.c:1011-1027 | stepping to the end of the fields from anywhere counts the required ones, 64 at most |
| PbDecoding.DecodeMessage | TwifreecaTV/Pods/nanopb/pb_decode.c:1051-1063 | defaults first, then the fields |
| PbIterator.FieldIter.Next | TwifreecaTV/Pods/nanopb/pb_common.c:20-76 | all that the iterator knows follows from its position |
| PbIterator.FieldIter.Find | TwifreecaTV/Pods/nanopb/pb_common.c:78-95 | finds a field of the tag if there is one, from wherever it stands, and stays where it was otherwise |
| PbIterator.BitsTellRequired | TwifreecaTV/Pods/nanopb/pb_decode.c:1005-1046 | every required field among the first 64 was seen if and only if the bits below their count are all set |
| PbIterator.SeenFields.Check | TwifreecaTV/Pods/nanopb/pb_decode.c:1029-1045 | the comparison of whole words and of the remaining bits says whether all bits below the count are set |
| PbSequences.RequiredIff | TwifreecaTV/Pods/nanopb/pb_decode.c:1019-1045 | a message whose fields can all be decoded is accepted if and only if the required ones, of the first 64, are among them |
| PbSequences.DecodeInParts | TwifreecaTV/Pods/nanopb/pb_decode.c:901-1018 | decoding bytes that follow one another is decoding the second part over what the first has made, with the fields seen in both |
| PbSequences.SentTwiceIsMerged | TwifreecaTV/Pods/nanopb/pb_decode.c:1463-1485 | a submessage that is sent twice is merged: the two come to the same as one with the bytes of both |
| PbSequences.SlotIsMerged | TwifreecaTV/Pods/nanopb/pb_decode.c:409-416 | a required or optional submessage is decoded over what the field holds |
| PbBounds.DecodedIsHeld | TwifreecaTV/Pods/nanopb/pb_decode.c:401-475 | whatever the input: what is decoded has room in its struct at every depth, bytes behind their size, strings with their zero, arrays within their size, and of a union at most one field |
| PbBounds.DecodedIsSentOn | TwifreecaTV/Pods/nanopb/pb_decode.c:1051-1063 | and it can be encoded, and comes back from its encoding |
| PbBounds.BytesTakenIff | TwifreecaTV/Pods/nanopb/pb_decode.c:1391-1426 | bytes are taken if and only if they have room behind their size |
| PbBounds.StringTakenIff | TwifreecaTV/Pods/nanopb/pb_decode.c:1428-1461 | a string is taken if and only if there is room for its zero as well; what follows a zero in it does not count |
| PbBounds.FixedLengthTakenIff | TwifreecaTV/Pods/nanopb/pb_decode.c:1487-1508 | a field of fixed length takes just that many bytes, or none for zeros |
| PbBounds.PackedTakenIff | TwifreecaTV/Pods/nanopb/pb_decode.c:418-448 | packed items are taken if and only if each can be decoded and all have room |
| PbBounds.ItemTakenIff | TwifreecaTV/Pods/nanopb/pb_decode.c:449-459 | an item sent by itself is taken if and only if the array has room for one more |
| PbBounds.IntegerTakenIff | TwifreecaTV/Pods/nanopb/pb_decode.c:1289-1372 | an integer is taken if and only if it fits its object; of a signed one the lowest 64 bits count, or the lowest 32 where the object is smaller |
| PbRoundTrip.ValueRoundTrip | TwifreecaTV/Pods/nanopb/pb_decode.c:1289-1508 | each type's value is read back from its bytes, whatever follows |
| PbRoundTrip.PackedRoundTrip | TwifreecaTV/Pods/nanopb/pb_decode.c:418-441 | packed arrays are read back |
| PbRoundTrip.UnpackedItems | TwifreecaTV/Pods/nanopb/pb_decode.c:443-453 | items that are sent one by one are collected in order |
| PbRoundTrip.MessageRoundTrip | TwifreecaTV/Pods/nanopb/pb_decode.c:1051-1063 | for every well-formed descriptor and conforming message, decoding its encoding succeeds and gives back all that is present in it: optional and singular fields, arrays, unions and submessages at every depth; absent fields hold their defaults |
| PbSizes.EncodesIffFits | TwifreecaTV/Pods/nanopb/pb_encode.c:126-516 | a message of fewer than 2^64 bytes has an encoding if and only if its byte fields fit their objects and its arrays their room, at every depth of what is sent; its size is then the sum of the sizes of its parts |
| PbSizes.KeysInNumbers | TwifreecaTV/Pods/nanopb/pb.h:313-318 | the key of a field is eight times its tag plus 0 for varints, 1 for 64 bits, 2 for what has a length, 5 for 32 bits |
| PbSizes.SpecifiedBytes | TwifreecaTV/Pods/nanopb/pb_encode.c:126-516 | three messages of the Encoding specification have the bytes given there |
| PbSizes.FittingMessageReturns | TwifreecaTV/Pods/nanopb/pb_decode.c:1051-1063 | every conforming message that fits and takes fewer than 2^32 bytes is encoded, and decoding gives it back |
| PbRoundTrip.UnknownFieldSkipped | TwifreecaTV/Pods/nanopb/pb_decode.c:935-960 | a field of an unknown tag, of any wire type, leaves the result as if it were not there |
| PbRoundTrip.PresentMessageBytes | TwifreecaTV/Pods/nanopb/pb_encode.c:494-516 | the message that comes back is encoded to the very same bytes |

## Left out

- DatabaseLevels.LevelRunKeeps: of runs in which a compaction or a move splits a user key, or a flush goes into a gap, nothing is promised; `LevelChanges` has what happens then.
- DatabaseStorage.MergeReads: under MergeInput only, which does not look at the kinds of entries; `Compaction.ReadsPreservedIff` does, for one compaction by itself.
- DatabaseStorage.WorkKeepsStorage: a merge that goes on after a descriptor write failed in the flush that interrupted it is outside the steps; the worker stops there, since nobody knows what was persisted.
- Compaction.CompactionState.DoCompactionWork: the flush of imm_ inside the loop is not in the method; it is the step FlushInMerge of the state machine, which may come at any point of a merge.
- A background error inside a merge is a step of its own that ends it; the method tells file operations apart.
- DatabaseCrash.SyncedSurvives: only one direction. The first record out of step is not taken from its place (`LogDamage.RecordTakenIff`), but a reader may come upon its bytes, or others that look like it, elsewhere, so no condition on the appends alone is exact for whole batches.
- DatabaseCrash.RecoveryReads: nothing is promised of logs out of step, and recovery is without paranoid checks, which would fail on the reports of `LogDamage`.
- LogWriter.Writer.AddRecord: a fragment that cannot be appended leaves none of its bytes in the file, and the trailer before it always gets there; short writes and a lost trailer are not modelled.
- Replay of several logs at opening, with flushes when the memtable fills up: `Recovery` replays one log, and opening turns what survives into one table.
- Reference counts: memtables and versions that nobody uses are not freed in the model; obsolete files are deleted.
- DbImpl.DBImpl.MakeRoomForWrite: the sleep of one millisecond and the waits end a pass; what happens meanwhile are the other steps.
- DbImpl.DBImpl: its fields are grouped into records, and the tables are ghost; the steps of readers and of descriptor writes have no method.
- ShouldStopBefore, file sizes and grandparent overlap: arbitrary booleans for each entry, or for each growing of the inputs.
- PbBounds.DecodedIsHeld: the initial values of the descriptor have room themselves, as the generator sees to (`PbBounds.InitialsHeld`).
- The format of tables, the table cache, MergingIterator and VersionEdit encoding: tables are sequences or sets of entries, and the iterator under `DbIter` runs over one sorted sequence.
- Which level and table are compacted next: compaction scores, compact_pointer_ and seek statistics are parameters.
- Unparseable internal keys, `reuse_logs`, repair, DB::CompactRange over all levels, read sampling and option sanitizing.
- FindShortestSeparator and FindShortSuccessor: they matter only for index blocks, which are not modelled.
- The weak memory model of the skip list, its arena, and termination of a search against endless inserts: loads and stores are atomic steps.
- The reports of a log reader that starts in the middle of a log: only the records it gives are characterised.
- Checksums are any function of the bytes: which alterations they detect depends on crc32c, which is not modelled.
- nanopb callbacks, extensions, pointer fields with malloc, fixed-count arrays, PB_WITHOUT_64BIT and user-defined streams.
- PbEncoder.EncodeSubmessage: sizes of 2^64 bytes and more, which no object has, are refused instead of wrapping.
- PbRoundTrip.MessageRoundTrip: encodings are below 2^32 bytes, as the decoder reads lengths with 32 bits.
- The exhaustion of sequence numbers: groups are formed only while their numbers stay below kMaxSequenceNumber, which the code does not check.
- The application's Swift code, its other pods and all generated headers.
