# LevelDB and nanopb, modelled and proved in Dafny

The app in this repository vendors two C and C++ libraries whose correctness its data depends on: LevelDB, a
log-structured merge store, and nanopb, a small Protocol Buffers encoder and decoder. This project models both
and proves what they are for.

**The store.** A database is specified by its history, the sequence of all numbered puts and deletions ever
logged; a read at a sequence number returns the newest entry of the key at or below it (`DbFormat.View`).
Everything else is shown to be a fast form of that:

- `Engine` is the state machine: memtables, seven levels of tables, snapshots, the running compaction, logs,
  manifest, history. `EngineWrites`, `EngineFlush`, `EngineCompaction`, `EngineInstall` and `EngineRecovery` show
  that every step keeps its invariant; `EngineRuns` states what follows for all runs. `DbImpl` is the class whose
  methods are shown to be these steps, and `DbRecovery` the replay of logs.
- `Versions`, `VersionBuilder`, `CompactionInputs`, `CompactionPick`, `CompactionWork` and `CompactionReads` are the
  version set: lookups, edits, the choice of compaction inputs, the compaction loop and what it may drop.
  `CompactionExamples` holds two concrete stores on which the code goes wrong, see below.
- `DbIter`, `Merger` and `TwoLevel` are the iterators as classes, and `EngineScan` puts them together.
- `WriteThreads` is group commit with one program counter for each thread, shown to act out the queue of
  `WriteQueue`; `WriteBatch` is its bytes. `FileLifecycle` is the deletion of files with failed installs and crashes,
  `SkipList` the memtable's list as single pointer writes among searches.
- `LogFormat`, `LogWriter` and `LogReader` are the log with its crash prefix; `VersionEdit` and `Manifest` the
  records in the manifest and the recovery of a version from them.
- `ByteCoding`, `ByteKeys`, `BlockFormat`, `Blocks`, `Bloom`, `FilterBlock` and `TableFormat` are tables: keys as
  bytes, prefix-compressed blocks, filters, separators, lookups. `CacheTable` and `LruCache` are the block cache.
- `FormatExamples` pins the formats down byte by byte, where a round trip would be content with another one.

**The messages.** `PbMessage` and `PbWire` define descriptors, values and their bytes after the Protocol Buffers
encoding guide; `PbEncode` is the encoder on sizing and writing streams; `PbDecode` says what any bytes mean to the
decoder, `PbStream`, `PbBits` and `PbDecoder` are the decoder as it runs, and `PbRoundTrip` is the round trip.
`PbRecords` splits any input into records and shows that decoding walks over them, one independent of the other;
`PbLaws` says from the records alone what every field ends up with and when decoding fails, `PbStorage` what fits,
and `PbEvolution` what the wire types are for: readers pass over fields that their descriptor does not have.

Two properties that the code is meant to have turned out to be false of it, and the exact condition is proved:

- A compaction may bring a deleted key back. Dropping a deletion looks for older values at level + 2 and deeper,
  but boundary files are added to the inputs at the upper level only, so an older entry of the same user key may
  sit in an unchosen file at level + 1. The reads of a key are kept if and only if that is not so
  (`EngineInstall.FinishKeepsReadsIff`); `CompactionExamples.DeletionUncovered` is a store on which they are not.
  The runs of the engine include such compactions: the state keeps the set of uncovered keys, a key is in it
  exactly if some installed compaction changed what readers see of it (`EngineRuns.UncoveredIff`), and reads of all
  other keys return what the history says (`EngineRuns.ReadsAreHistory`).
- The inputs of a manual compaction may leave a gap in the key space into which a memtable is flushed meanwhile,
  and an output may then span the flushed table. The output level stays sorted if and only if each output is
  disjoint from the tables that stay (`EngineInstall.InstallSortedIff`), and that is so for every way of cutting the
  outputs if and only if no flushed table lies between two entries that survive the compaction
  (`EngineInstall.EveryCuttingFitsIff`, `EngineInstall.FlushDisturbsIff`). `CompactionExamples.FlushedIntoGap` shows
  a lost entry and `CompactionExamples.FlushHarmless` a flush into a gap that does no harm. Compactions that the
  store picks itself are never affected (`EngineInstall.PickedIsClear`).

The one hypothesis on runs of the engine is that a compaction is installed with outputs disjoint from the tables
that stay at its output level (`Engine.FitsLevel`); flushes are not restricted.

Choices the code leaves to timing or chance are arbitrary in the model: which file a size or seek trigger names,
when a table or memtable is full, table sizes, skip-list heights, checksums and hashes, the interleaving of
threads at every point where the mutex is free.

## Model

| member | source | states |
|---|---|---|
| EngineRuns.ReadsAreHistory | TIFASoccer/Pods/leveldb-library/db/db_impl.cc:1100-1145 | in every state reachable by any interleaving of logged batches, inserts, publications, memtable switches, flushes, compactions, trivial moves, snapshots and crashes, a lookup at a live snapshot or at the latest sequence returns what the write history gives at that sequence, of every key that no installed compaction has uncovered |
| EngineRuns.UncoveredIff | TIFASoccer/Pods/leveldb-library/db/db_impl.cc:937-996 | a key counts as uncovered exactly if installing some compaction of the run has changed what readers at or above its smallest snapshot see of the key |
| EngineRuns.StepKeepsInv | TIFASoccer/Pods/leveldb-library/db/db_impl.cc:878-1035 | the invariant behind that: every engine step keeps the layers from memtable to level 6 strictly newer to older per key, the levels sorted and disjoint, the counters ahead, the logs and the manifest enough to rebuild the store; the one hypothesis is that a manual compaction cuts no output around a table flushed meanwhile |
| EngineRuns.CapturedRead | TIFASoccer/Pods/leveldb-library/db/db_impl.cc:1107-1134 | a reader that captured the memtables and the version under the mutex gets the same answer after releasing it, whatever is inserted into the captured memtable meanwhile |
| EngineRuns.LookupReadsStored | TIFASoccer/Pods/leveldb-library/db/db_impl.cc:1120-1134 | searching memtable, immutable memtable and tables in that order and stopping at the first hit gives the newest visible entry of all of them together |
| EngineRuns.ReadsAreStable | TIFASoccer/Pods/leveldb-library/db/db_impl.cc:1166-1175 | between two states of a run at which a sequence is readable, every read at it gives the same answer, compactions and crashes in between included, unless the key was uncovered |
| EngineRuns.WholeBatches | TIFASoccer/Pods/leveldb-library/db/db_impl.cc:1206-1237 | the published sequence is always the length the history had after some whole batch, so a batch is visible wholly or not at all |
| EngineRuns.RunContiguous | TIFASoccer/Pods/leveldb-library/db/db_impl.cc:1206-1237 | sequence numbers of the history are 1, 2, 3 and so on without gaps in every run |
| EngineRuns.HistoryGrows | TIFASoccer/Pods/leveldb-library/db/db_impl.cc:1206-1237 | nothing that was logged ever leaves the history |
| EngineRuns.CanRecover | TIFASoccer/Pods/leveldb-library/db/db_impl.cc:280-369 | after every run a recovery step is possible |
| EngineRuns.RecoveryRestoresLog | TIFASoccer/Pods/leveldb-library/db/db_impl.cc:280-369 | after a crash at any point of any run and a recovery, the latest view of a key never uncovered is the view of everything logged before the crash, and the sequence counter is the last one logged |
| EngineWrites.InitialInv | TIFASoccer/Pods/leveldb-library/db/db_impl.cc:182-212 | a new database meets the invariant |
| EngineWrites.LogBatchKeepsInv | TIFASoccer/Pods/leveldb-library/db/db_impl.cc:1206-1222 | logging a batch keeps the invariant: what is logged but not inserted is newer than everything held |
| EngineWrites.InsertNextKeepsInv | TIFASoccer/Pods/leveldb-library/db/write_batch.cc:132-137 | inserting the next operation of a logged batch into the memtable keeps the invariant |
| EngineWrites.PublishKeepsInv | TIFASoccer/Pods/leveldb-library/db/db_impl.cc:1236 | advancing the last sequence after the inserts keeps the invariant |
| EngineWrites.SwitchKeepsInv | TIFASoccer/Pods/leveldb-library/db/db_impl.cc:1346-1366 | switching to a new memtable and log keeps the invariant |
| EngineWrites.SnapshotKeepsInv | TIFASoccer/Pods/leveldb-library/db/db_impl.cc:1166-1169 | taking a snapshot keeps the invariant |
| EngineWrites.ReleaseKeepsInv | TIFASoccer/Pods/leveldb-library/db/db_impl.cc:1171-1175 | releasing a snapshot keeps the invariant |
| EngineWrites.BeginKeepsInv | TIFASoccer/Pods/leveldb-library/db/db_impl.cc:688-767 | starting a compaction keeps the invariant |
| EngineWrites.AbortKeepsInv | TIFASoccer/Pods/leveldb-library/db/db_impl.cc:769-784 | giving a compaction up keeps the invariant |
| EngineFlush.FlushKeepsInv | TIFASoccer/Pods/leveldb-library/db/db_impl.cc:535-566 | flushing the immutable memtable to the level picked for it keeps the invariant, with any compaction running or none |
| EngineCompaction.MoveKeepsInv | TIFASoccer/Pods/leveldb-library/db/db_impl.cc:715-731 | moving a table down a level without rewriting it keeps the invariant |
| EngineInstall.FinishKeepsInv | TIFASoccer/Pods/leveldb-library/db/db_impl.cc:860-876 | installing the outputs of a compaction keeps the invariant, although memtables and tables may have been added since the inputs were picked, if no output meets a table that stays at its level |
| EngineInstall.FinishKeepsReadsIff | TIFASoccer/Pods/leveldb-library/db/db_impl.cc:937-996 | for each key: installing a compaction changes no read at or above its smallest snapshot if and only if it uncovers no older value of the key beside its inputs at level + 1 |
| EngineInstall.InstallSortedIff | TIFASoccer/Pods/leveldb-library/db/db_impl.cc:860-876 | whatever was flushed since the compaction began, installing its outputs leaves level + 1 sorted if and only if each output is disjoint from every table that stays there |
| EngineInstall.EveryCuttingFitsIff | TIFASoccer/Pods/leveldb-library/db/db_impl.cc:984-1005 | all ways of cutting the survivors into tables give such outputs if and only if every table that stays has all survivors on one side |
| EngineInstall.FlushedFitsIff | TIFASoccer/Pods/leveldb-library/db/db_impl.cc:491-533 | a flushed table adds to what outputs must keep clear of exactly at the output level, and there exactly itself |
| EngineInstall.FlushDisturbsIff | TIFASoccer/Pods/leveldb-library/db/db_impl.cc:908-916 | a flush during a compaction leaves the output level sorted after every cutting if and only if the flushed table does not go to that level between two survivors |
| EngineInstall.PickedIsClear | TIFASoccer/Pods/leveldb-library/db/version_set.cc:1270-1322 | compactions the store picks itself always have every staying table on one side of the survivors, whatever is flushed meanwhile |
| EngineInstall.GarbageGone | TIFASoccer/Pods/leveldb-library/db/db_impl.cc:937-983 | of each key the outputs of a compaction hold at most one entry that is no newer than the smallest snapshot at its start, and no deletion among these that has nothing left to delete further down |
| EngineInstall.OldestIsLeast | TIFASoccer/Pods/leveldb-library/db/db_impl.cc:890-894 | the smallest snapshot is the least of those held, or the last sequence when none is held |
| EngineRecovery.RecoverKeepsInv | TIFASoccer/Pods/leveldb-library/db/db_impl.cc:371-489 | replaying the logs into level-0 tables on top of the version in the manifest restores the invariant |
| DbImpl.DBImpl.Get | TIFASoccer/Pods/leveldb-library/db/db_impl.cc:1100-1145 | the lookup returns the newest stored value visible at the snapshot, or at the last sequence, and that is the view of the history for every key not uncovered |
| DbImpl.DBImpl.GetSnapshot | TIFASoccer/Pods/leveldb-library/db/db_impl.cc:1166-1169 | is the snapshot step of the state machine and returns the last sequence, which stays readable |
| DbImpl.DBImpl.ReleaseSnapshot | TIFASoccer/Pods/leveldb-library/db/db_impl.cc:1171-1175 | is the release step: only this snapshot goes |
| DbImpl.DBImpl.AddRecord | TIFASoccer/Pods/leveldb-library/db/db_impl.cc:1206-1222 | is the logging step: the batch gets the next sequence numbers and is in the log before anything else |
| DbImpl.DBImpl.InsertPending | TIFASoccer/Pods/leveldb-library/db/write_batch.cc:121-128 | is the insertion step for one operation |
| DbImpl.DBImpl.SetLastSequence | TIFASoccer/Pods/leveldb-library/db/db_impl.cc:1236 | is the publication step |
| DbImpl.DBImpl.WriteGroup | TIFASoccer/Pods/leveldb-library/db/db_impl.cc:1201-1237 | a leader's work on its group appends exactly the numbered operations to the history and leaves version, immutable memtable and snapshots alone |
| DbImpl.DBImpl.SwitchToNewMemtable | TIFASoccer/Pods/leveldb-library/db/db_impl.cc:1346-1366 | is the memtable switch step |
| DbImpl.DBImpl.LogAndApply | TIFASoccer/Pods/leveldb-library/db/version_set.cc:801-884 | the new version is, per level, the edit applied to the old one, and the manifest records it with the counters |
| DbImpl.DBImpl.WriteLevel0Table | TIFASoccer/Pods/leveldb-library/db/db_impl.cc:491-533 | the table goes to the deepest level, up to 2, that it can reach without overlapping a file on the way or too many bytes two levels below, and becomes one file of it |
| DbImpl.DBImpl.CompactMemTable | TIFASoccer/Pods/leveldb-library/db/db_impl.cc:535-566 | is the flush step of the state machine, to the level that can be reached as above, with any compaction running or none |
| DbImpl.DBImpl.InstallCompactionResults | TIFASoccer/Pods/leveldb-library/db/db_impl.cc:860-876 | the new version has the outputs at level + 1 in place of the inputs at both levels |
| DbImpl.DBImpl.MoveToNextLevel | TIFASoccer/Pods/leveldb-library/db/db_impl.cc:715-731 | is the trivial move step |
| DbImpl.DBImpl.BackgroundCompaction | TIFASoccer/Pods/leveldb-library/db/db_impl.cc:688-767 | a waiting memtable is flushed first; otherwise the compaction is the one the trigger asks for, around the file that was sought too often or the first past the level's pointer; it is done as a move exactly when it has one file, nothing below and at most ten table sizes two levels below; the pointer of its level, and no other, becomes the largest key of its inputs |
| DbImpl.DBImpl.ManualCompaction | TIFASoccer/Pods/leveldb-library/db/db_impl.cc:692-706 | starts the compaction that is assembled from the files of the range, or reports done exactly when no table of the level is left in it; the pointer of the level follows |
| DbImpl.DBImpl.DoCompactionWork | TIFASoccer/Pods/leveldb-library/db/db_impl.cc:878-1035 | merging, dropping, cutting into tables and installing is the finishing step of the state machine, and every table is cut where it has to be and only there; of a manual compaction it is asked that no table was flushed between its survivors |
| DbImpl.DBImpl.CrashAndReopen | TIFASoccer/Pods/leveldb-library/db/db_impl.cc:280-369 | losing memory and replaying the live logs is the recovery step of the state machine |
| DbRecovery.RecoverLogFile | TIFASoccer/Pods/leveldb-library/db/db_impl.cc:371-489 | one table whenever the memtable is full and one for the rest: together they hold exactly the log, in order, and the largest sequence is found |
| DbRecovery.RecoverLogs | TIFASoccer/Pods/leveldb-library/db/db_impl.cc:333-366 | the logs not older than the recorded one, replayed in the order of their numbers, give tables holding their concatenation, and the next number is beyond those of the logs and the tables |
| DbRecovery.LiveNumbers | TIFASoccer/Pods/leveldb-library/db/db_impl.cc:333-349 | the logs the manifest has not retired are exactly those of the memtables |
| Versions.Get | TIFASoccer/Pods/leveldb-library/db/version_set.cc:326-421 | stopping at the first entry found level by level, newest level-0 file first, gives the newest visible entry in the whole version |
| Versions.FindFile | TIFASoccer/Pods/leveldb-library/db/version_set.cc:88-106 | the index returned splits the files into those ending before the key and those not |
| Versions.SomeFileOverlapsRange | TIFASoccer/Pods/leveldb-library/db/version_set.cc:122-159 | true exactly when some file meets the range, with binary search on disjoint files and without it on others |
| Versions.FilesToSearch | TIFASoccer/Pods/leveldb-library/db/version_set.cc:343-382 | at level 0 the files around the key, newest first, elsewhere at most one; what is left out holds nothing newer that is visible |
| Versions.FoundIsNewest | TIFASoccer/Pods/leveldb-library/db/version_set.cc:384-416 | an entry found in a candidate file settles the read against all deeper levels and the other files of its own |
| Versions.SeekGetNewest | TIFASoccer/Pods/leveldb-library/db/memtable.cc:100-134 | the first entry at or after the lookup key is the newest one visible of its user key; if it is of another key, nothing is visible |
| CompactionInputs.GetOverlappingInputs | TIFASoccer/Pods/leveldb-library/db/version_set.cc:519-559 | above level 0 exactly the files meeting the range; at level 0 exactly those meeting the least range around it that no file sticks out of, and the restarts end |
| CompactionInputs.WideningIsNeeded | TIFASoccer/Pods/leveldb-library/db/version_set.cc:543-553 | each restart widens the range only to where every closed range must reach, and leaves fewer file ends outside |
| CompactionInputs.GetRange | TIFASoccer/Pods/leveldb-library/db/version_set.cc:1205-1224 | the bounds are keys of the inputs and bound them all |
| CompactionInputs.FindSmallestBoundaryFile | TIFASoccer/Pods/leveldb-library/db/version_set.cc:1343-1363 | the first file continuing the user key of the given largest key, or none if there is none |
| CompactionInputs.AddBoundaryInputs | TIFASoccer/Pods/leveldb-library/db/version_set.cc:1378-1401 | each file added continues the user key that the files before it end with, and in the end no file of the level does; a contiguous run stays one, and no gap opens |
| CompactionPick.SetupOtherInputs | TIFASoccer/Pods/leveldb-library/db/version_set.cc:1403-1462 | the inputs are the given files with those that continue them, grown if possible, and all files below that they meet; the grandparents are those met two levels below; it is a valid compaction, and from a gap-free start no gap remains |
| CompactionPick.ExpandedInputs | TIFASoccer/Pods/leveldb-library/db/version_set.cc:1419-1422 | the wider set is what the whole compaction reaches in its level, with the files that continue it, and keeps the block gap-free |
| CompactionPick.GrowInputs | TIFASoccer/Pods/leveldb-library/db/version_set.cc:1424-1447 | inputs grow to the wider set exactly when it is larger, stays below 25 table sizes in all and meets no further file below |
| CompactionPick.PickCompaction | TIFASoccer/Pods/leveldb-library/db/version_set.cc:1270-1322 | the compaction is assembled around the file that was sought too often, or the first past the level's pointer, or the first of the level if none is past it; it is valid and leaves no gap in its key hull |
| CompactionPick.CompactRange | TIFASoccer/Pods/leveldb-library/db/version_set.cc:1464-1495 | no compaction exactly when no file of the level meets the range, else a valid one assembled from the files that reach the range, above level 0 from the first on until they are big enough |
| CompactionPick.PickLevelForMemTableOutput | TIFASoccer/Pods/leveldb-library/db/version_set.cc:491-516 | the deepest level, up to 2, that the table can reach without overlapping a file on the way or too many grandparents |
| CompactionWork.Compaction.IsBaseLevelForKey | TIFASoccer/Pods/leveldb-library/db/version_set.cc:1533-1552 | asked about keys in ascending order, the moving level pointers answer as a stateless search of all deeper levels does |
| CompactionWork.Compaction.ShouldStopBefore | TIFASoccer/Pods/leveldb-library/db/version_set.cc:1554-1576 | the grandparent cursor passes exactly the files ending before the key; it is time to stop exactly when those passed since the counting began have more than ten table sizes, and then counting starts over |
| CompactionWork.DropNext | TIFASoccer/Pods/leveldb-library/db/db_impl.cc:937-972 | the running key state decides the two drop rules as the whole input before the entry would |
| CompactionWork.NextEntry | TIFASoccer/Pods/leveldb-library/db/db_impl.cc:918-983 | keeps the running key state and decides for each entry whether it is dropped and whether it starts a new table |
| CompactionWork.DoCompactionWork | TIFASoccer/Pods/leveldb-library/db/db_impl.cc:907-1017 | the outputs together are exactly the entries no drop rule names, in order; between the first and the last key of an output at most ten table sizes of grandparents end, no output goes on once it is full, and none but the last ends without one of these reasons |
| CompactionWork.SurvivorsAreKept | TIFASoccer/Pods/leveldb-library/db/db_impl.cc:954-972 | the drop rules stated over the set of entries: an entry goes if a newer one of its key is at or below the oldest snapshot, or if it is an old deletion with nothing below |
| CompactionReads.PreservesReadsIff | TIFASoccer/Pods/leveldb-library/db/db_impl.cc:954-972 | for each key: no read at or above the oldest snapshot changes if and only if no dropped deletion leaves an older value of the key in an unchosen file at level + 1 |
| CompactionReads.BoundaryClosedBelowSuffices | TIFASoccer/Pods/leveldb-library/db/version_set.cc:1403-1411 | if boundary files were added to the inputs of level + 1 as well, no compaction of inputs as they are picked could change a read |
| CompactionExamples.DeletionUncovered | TIFASoccer/Pods/leveldb-library/db/version_set.cc:1407-1411 | the code does not do that: three tables for which a picked compaction makes a deleted key readable again |
| CompactionExamples.PicksLeftOnly | TIFASoccer/Pods/leveldb-library/db/version_set.cc:1403-1411 | those tables form a good version, and PickCompaction takes from it the upper table and, of level 2, the left one only |
| CompactionExamples.CompactRangeTakesBoth | TIFASoccer/Pods/leveldb-library/db/version_set.cc:1464-1495 | a manual compaction of a good version may leave a gap: CompactRange takes both tables of level 1 |
| CompactionExamples.FlushAllowed | TIFASoccer/Pods/leveldb-library/db/db_impl.cc:491-533 | a memtable with a key between the two tables may then be flushed to level 2, where it lies between two survivors |
| CompactionExamples.FlushedIntoGap | TIFASoccer/Pods/leveldb-library/db/db_impl.cc:908-916 | installing the manual compaction then leaves level 2 overlapping, and a search misses the flushed entry |
| CompactionExamples.FlushHarmless | TIFASoccer/Pods/leveldb-library/db/db_impl.cc:943-972 | the same flush does no harm if the lower table held only a deletion that the compaction drops |
| VersionBuilder.Builder.Apply | TIFASoccer/Pods/leveldb-library/db/version_set.cc:650-692 | accumulating an edit is the same per level as deleting its numbers and adding its files |
| VersionBuilder.Builder.SaveTo | TIFASoccer/Pods/leveldb-library/db/version_set.cc:695-739 | per level exactly the base and added files not deleted, in the order of their smallest keys |
| VersionBuilder.BatchIsOneByOne | TIFASoccer/Pods/leveldb-library/db/version_set.cc:695-739 | one merge for many edits gives the very list that applying them one after the other gives, if no number is added twice |
| VersionBuilder.ReusedNumberRevives | TIFASoccer/Pods/leveldb-library/db/version_set.cc:660-692 | without that condition it does not: a deletion is forgotten when a later edit reuses the number |
| VersionEdit.RoundTrip | TIFASoccer/Pods/leveldb-library/db/version_edit.cc:107-205 | decoding an encoded edit restores every field; compaction pointers already there stay, so the whole edit comes back exactly when it is decoded into one without any |
| VersionEdit.GetFieldInverts | TIFASoccer/Pods/leveldb-library/db/version_edit.cc:120-194 | every tagged field is read back as written, whatever follows it |
| VersionEdit.FieldsRestore | TIFASoccer/Pods/leveldb-library/db/version_edit.cc:41-85 | applying the fields in the order they are written rebuilds the edit, the ordered set of deleted files included |
| VersionEdit.VersionEdit.EncodeTo | TIFASoccer/Pods/leveldb-library/db/version_edit.cc:41-85 | the bytes are those of the fields that are set, in order |
| VersionEdit.VersionEdit.DecodeFrom | TIFASoccer/Pods/leveldb-library/db/version_edit.cc:107-205 | the fields become what the record says up to its first malformed field, and success means there is none |
| VersionEdit.VersionEdit.Clear | TIFASoccer/Pods/leveldb-library/db/version_edit.cc:26-39 | forgets everything but the compaction pointers |
| Manifest.Recover | TIFASoccer/Pods/leveldb-library/db/version_set.cc:886-1011 | from a manifest cut off anywhere: the version that the edits wholly in it lead to one by one, and for each counter the number in the last of these edits that records it; an error exactly when one names another comparator or the next file, the log or the last sequence is recorded by none |
| Manifest.ReadEdits | TIFASoccer/Pods/leveldb-library/db/version_set.cc:933-969 | every record becomes the edit it was written from; the builder has all of them, and each number is the one in the last edit that records it |
| Manifest.WriteSnapshot | TIFASoccer/Pods/leveldb-library/db/version_set.cc:1088-1116 | the snapshot lists comparator, pointers and every file level by level, and no counters |
| Manifest.SnapshotFiles | TIFASoccer/Pods/leveldb-library/db/version_set.cc:1104-1111 | read back, the snapshot adds to each level exactly the files of the version |
| Manifest.SnapshotThenEdits | TIFASoccer/Pods/leveldb-library/db/version_set.cc:1088-1116 | a snapshot followed by edits leads where the edits lead from the version itself |
| Manifest.RecoverSnapshot | TIFASoccer/Pods/leveldb-library/db/version_set.cc:886-1011 | recovery from a manifest that starts with a snapshot of a version and goes on with edits gives exactly the version that the edits wholly in the file lead to from it, so the current one when nothing is cut off, with the counters last recorded in these edits |
| DbIter.RowsAreView | TIFASoccer/Pods/leveldb-library/db/db_iter.cc:168-198 | the rows an iterator may show are exactly the pairs the history holds at the sequence: hidden versions and deletions never show |
| DbIter.RowsAscend | TIFASoccer/Pods/leveldb-library/db/db_iter.cc:168-198 | there is one row per key, in ascending order |
| DbIter.Drive | TIFASoccer/Pods/leveldb-library/db/db_iter.cc:141-299 | any mix of Seek, SeekToFirst, SeekToLast, Next and Prev, direction switches included, shows what a cursor on the sorted map shows, whatever writers insert before each move |
| DbIter.DBIter.Grow | TIFASoccer/Pods/leveldb-library/db/db_impl.cc:1062-1087 | entries inserted while the iterator is in use are too new for it: its rows and its place among them stay |
| DbIter.DBIter.Next | TIFASoccer/Pods/leveldb-library/db/db_iter.cc:141-166 | moves to the next row from either direction |
| DbIter.DBIter.Prev | TIFASoccer/Pods/leveldb-library/db/db_iter.cc:200-225 | moves to the previous row from either direction |
| DbIter.DBIter.Seek | TIFASoccer/Pods/leveldb-library/db/db_iter.cc:269-281 | lands on the first row at or after the key |
| DbIter.DBIter.SeekToFirst | TIFASoccer/Pods/leveldb-library/db/db_iter.cc:283-292 | lands on the first row |
| DbIter.DBIter.SeekToLast | TIFASoccer/Pods/leveldb-library/db/db_iter.cc:294-299 | lands on the last row |
| DbIter.DBIter.FindNextUserEntry | TIFASoccer/Pods/leveldb-library/db/db_iter.cc:168-198 | stops at the first entry from here on that is a row, and passes none |
| DbIter.DBIter.FindPrevUserEntry | TIFASoccer/Pods/leveldb-library/db/db_iter.cc:227-267 | stops at the last entry before here that is a row, with its key and value saved, and passes none |
| Merger.MergingIterator.Seek | TIFASoccer/Pods/leveldb-library/table/merger.cc:47-53 | the iterator is on the first entry of the sorted union at or after the target |
| Merger.MergingIterator.SeekToFirst | TIFASoccer/Pods/leveldb-library/table/merger.cc:31-37 | on the first entry of the sorted union |
| Merger.MergingIterator.SeekToLast | TIFASoccer/Pods/leveldb-library/table/merger.cc:39-45 | on the last entry of the sorted union |
| Merger.MergingIterator.Next | TIFASoccer/Pods/leveldb-library/table/merger.cc:55-79 | one entry further in the sorted union, after a change of direction too |
| Merger.MergingIterator.Prev | TIFASoccer/Pods/leveldb-library/table/merger.cc:81-108 | one entry back in the sorted union, after a change of direction too |
| Merger.MergingIterator.TurnForward | TIFASoccer/Pods/leveldb-library/table/merger.cc:62-76 | brings every other child behind the current key without moving the cursor |
| Merger.MergingIterator.TurnBackward | TIFASoccer/Pods/leveldb-library/table/merger.cc:88-105 | brings every other child before the current key without moving the cursor |
| TwoLevel.TwoLevelIterator.Seek | TIFASoccer/Pods/leveldb-library/table/two_level_iterator.cc:82-87 | the cursor is on the first entry of the concatenated blocks at or after the target |
| TwoLevel.TwoLevelIterator.Next | TIFASoccer/Pods/leveldb-library/table/two_level_iterator.cc:103-107 | one entry further in the concatenation, over any number of empty blocks |
| TwoLevel.TwoLevelIterator.Prev | TIFASoccer/Pods/leveldb-library/table/two_level_iterator.cc:109-113 | one entry back in the concatenation, over any number of empty blocks |
| TwoLevel.TwoLevelIterator.SkipEmptyDataBlocksForward | TIFASoccer/Pods/leveldb-library/table/two_level_iterator.cc:115-126 | goes to the first entry from here on |
| TwoLevel.TwoLevelIterator.SkipEmptyDataBlocksBackward | TIFASoccer/Pods/leveldb-library/table/two_level_iterator.cc:128-139 | goes to the last entry before here |
| TwoLevel.SeekPlace | TIFASoccer/Pods/leveldb-library/table/two_level_iterator.cc:82-87 | choosing one block by its separator and searching only that block finds what a search of everything finds |
| EngineScan.ChildrenMergeable | TIFASoccer/Pods/leveldb-library/db/db_impl.cc:1062-1087 | in every good state the memtables, level-0 tables and deeper levels are sorted, share no internal key and hold exactly what is stored |
| EngineScan.IterationIsHistory | TIFASoccer/Pods/leveldb-library/db/db_impl.cc:1147-1157 | the user iterator over the union of these shows exactly the view of the history at a readable sequence, of keys not uncovered |
| EngineScan.IterationWhileWriting | TIFASoccer/Pods/leveldb-library/db/db_impl.cc:1062-1087 | while the captured memtable grows, the union of the children grows by entries the iterator cannot see, and its rows stay the view of the history |
| EngineScan.UnionExists | TIFASoccer/Pods/leveldb-library/db/db_impl.cc:1062-1087 | such a sorted union always exists |
| WriteQueue.BuildBatchGroup | TIFASoccer/Pods/leveldb-library/db/db_impl.cc:1260-1306 | the group is the longest prefix of the queue in which nobody asks for a sync that the leader does not, more than one batch has at most 1048576 bytes, and behind a first batch of at most 131072 bytes the others have at most 131072; its operations are those of its writers in order |
| WriteThreads.StepSimulates | TIFASoccer/Pods/leveldb-library/db/db_impl.cc:1185-1256 | every step of a thread in Write, with no more guard than the wait for done or the front of the queue, is a step of the write queue with its one leader, or leaves it as it is |
| WriteThreads.OneLeader | TIFASoccer/Pods/leveldb-library/db/db_impl.cc:1191-1198 | at most one thread is past the wait, it is the front of the queue, and its write is not done |
| WriteThreads.DoneNeverLeads | TIFASoccer/Pods/leveldb-library/db/db_impl.cc:1191-1198 | a thread whose write was done for it is off the queue, never leads, and can only return the status left for it |
| WriteThreads.NoMissedWakeup | TIFASoccer/Pods/leveldb-library/db/db_impl.cc:1239-1253 | a waiting thread that a step of another thread allows to go on is signalled by that step |
| WriteThreads.SomebodyCanGoOn | TIFASoccer/Pods/leveldb-library/db/db_impl.cc:1185-1256 | while a call has not returned, some thread can take a step |
| WriteThreads.ArrivalOrder | TIFASoccer/Pods/leveldb-library/db/db_impl.cc:1191-1253 | calls finish in the order in which they were made, each exactly once |
| WriteThreads.ExactlyOnceInOrder | TIFASoccer/Pods/leveldb-library/db/db_impl.cc:1206-1237 | if no finished call has failed, the log and the memtable hold the batch of each exactly once, in order of arrival, numbered contiguously from 1 |
| WriteThreads.WholeGroupsVisible | TIFASoccer/Pods/leveldb-library/db/db_impl.cc:1236 | with failures too: no number is used twice, and at any moment the entries at or below the last sequence are exactly those of the finished groups |
| WriteThreads.SyncErrorIsLast | TIFASoccer/Pods/leveldb-library/db/db_impl.cc:1227-1232 | after a log write whose sync failed, no further group writes anything |
| WriteThreads.AckedIsWritten | TIFASoccer/Pods/leveldb-library/db/db_impl.cc:1185-1256 | a call that returned ok, as leader or served by another, has its whole batch in the log and the memtable under consecutive published numbers, and in the synced part of the log if it asked for a sync |
| FileLifecycle.StepKeepsInv | TIFASoccer/Pods/leveldb-library/db/db_impl.cc:223-278 | flushes, compactions, moves, failed installs, version references, sweeps, crashes and reopenings in any order keep every file that a version, some work or a manifest that may be on disk needs |
| FileLifecycle.NeededFilesExist | TIFASoccer/Pods/leveldb-library/db/version_set.cc:801-884 | in no run is a table missing that a referenced version, an output under way or any manifest that may be on disk names, nor a log with writes that some such manifest lacks, nor that manifest |
| FileLifecycle.RecoveryFindsEverything | TIFASoccer/Pods/leveldb-library/db/db_impl.cc:308-366 | whichever edits the manifest turns out to hold, a recovery finds all tables it lists, and every log ever written is in those tables or replayed |
| FileLifecycle.RecoveryReplaysOnce | TIFASoccer/Pods/leveldb-library/db/db_impl.cc:318-366 | as long as the process has seen no error, no log is replayed whose writes the tables hold already |
| FileLifecycle.CanReopen | TIFASoccer/Pods/leveldb-library/db/version_set.cc:886-1011 | after any run, each manifest that may be on disk can be the one found by a reopening, and the database then serves its tables |
| FileLifecycle.FailedFlush | TIFASoccer/Pods/leveldb-library/db/db_impl.cc:553-565 | a run in which the edit of a flush fails to be appended: manifests with and without the table may be on disk, and only the guard keeps the table |
| FileLifecycle.SweepDeletesTheRest | TIFASoccer/Pods/leveldb-library/db/db_impl.cc:240-277 | without an error a sweep leaves exactly the tables needed or pending, the logs some manifest that may be on disk needs, and the manifest in use |
| FileLifecycle.SweepIsSafeIff | TIFASoccer/Pods/leveldb-library/db/db_impl.cc:223-278 | the deletion loop would delete nothing needed if and only if no failed install has named a table, no flushed table is waiting for its edit to be appended, and opening is through; the first is what the test of bg_error_ guards against |
| FileLifecycle.DoubtMeansError | TIFASoccer/Pods/leveldb-library/db/db_impl.cc:226-230 | a failed install that has named a table keeps the sweep off for as long as the process lives |
| WriteBatch.WriteBatch.Put | TIFASoccer/Pods/leveldb-library/db/write_batch.cc:98-103 | the bytes are those of the batch with one more update, count included |
| WriteBatch.WriteBatch.Delete | TIFASoccer/Pods/leveldb-library/db/write_batch.cc:105-109 | likewise for a deletion |
| WriteBatch.WriteBatch.Append | TIFASoccer/Pods/leveldb-library/db/write_batch.cc:144-148 | the bytes are those of both batches' updates in order, also when a batch is appended to itself |
| WriteBatch.WriteBatch.Iterate | TIFASoccer/Pods/leveldb-library/db/write_batch.cc:42-80 | on any bytes: the updates up to the first malformed one, and success exactly when there is none and the count is right |
| WriteBatch.GetUpdatesInverts | TIFASoccer/Pods/leveldb-library/db/write_batch.cc:51-74 | every update written is read back, in order |
| WriteBatch.UnknownTagRefused | TIFASoccer/Pods/leveldb-library/db/write_batch.cc:54-73 | behind any updates, a tag other than 0 and 1 is an error |
| WriteBatch.CutShortRefused | TIFASoccer/Pods/leveldb-library/db/write_batch.cc:54-73 | a batch cut within an update yields the updates before it and an error |
| WriteBatch.WriteBatch.InsertInto | TIFASoccer/Pods/leveldb-library/db/write_batch.cc:132-137 | each update enters the memtable under the next sequence number |
| WriteBatch.ApplyGroup | TIFASoccer/Pods/leveldb-library/db/write_batch.cc:132-148 | several batches merged, numbered, logged as bytes and replayed give all their updates in order with consecutive numbers |
| LogWriter.Writer.AddRecord | TIFASoccer/Pods/leveldb-library/db/log_writer.cc:34-80 | a record becomes fragments that never cross a block, with zero padding where no header fits |
| LogWriter.Writer.EmitPhysicalRecord | TIFASoccer/Pods/leveldb-library/db/log_writer.cc:82-108 | appends header and payload and keeps the block offset right |
| LogReader.Reader.ReadPhysicalRecord | TIFASoccer/Pods/leveldb-library/db/log_reader.cc:189-271 | the next fragment if the file holds all of it, else the end of the file, never a corruption |
| LogReader.Reader.ReadRecord | TIFASoccer/Pods/leveldb-library/db/log_reader.cc:56-174 | the next record if the file holds all of it, else none |
| LogReader.RecordsAreWhole | TIFASoccer/Pods/leveldb-library/db/log_reader.cc:59-186 | whatever physical records a file yields, a record returned is made up of a full fragment, or of a first one, middle ones and a last one in a row |
| LogReader.NothingLost | TIFASoccer/Pods/leveldb-library/db/log_reader.cc:59-186 | whatever physical records a file yields, unless a corruption is reported no payload is left out of the record returned |
| LogReader.ReadAll | TIFASoccer/Pods/leveldb-library/db/log_reader.cc:56-174 | for any records and any byte at which the file is cut: exactly the records wholly before the cut, in order, with no corruption reported |
| LogReader.RoundTrip | TIFASoccer/Pods/leveldb-library/db/log_writer.cc:34-108 | what was written is what is read |
| LogFormat.UnmaskInvertsMask | TIFASoccer/Pods/leveldb-library/util/crc32c.h:29-38 | the stored checksum is recovered |
| LogFormat.MaskRotates | TIFASoccer/Pods/leveldb-library/util/crc32c.h:29-32 | but for the constant, each bit of a masked checksum is the bit 15 places further up |
| FormatExamples.FragmentBytes | TIFASoccer/Pods/leveldb-library/db/log_writer.cc:82-108 | the bytes of a fragment of any kind: masked checksum of type and payload, length, type, payload |
| FormatExamples.BlockTrailer | TIFASoccer/Pods/leveldb-library/db/log_writer.cc:43-72 | six bytes at the end of a block are filled with zeros, seven take a header |
| FormatExamples.BatchBytes | TIFASoccer/Pods/leveldb-library/db/write_batch.cc:5-14 | a batch of two updates byte by byte |
| FormatExamples.EditBytes | TIFASoccer/Pods/leveldb-library/db/version_edit.cc:14-85 | names and numbers of an edit byte by byte, each under its tag |
| FormatExamples.FileBytes | TIFASoccer/Pods/leveldb-library/db/version_edit.cc:14-85 | pointers, deletions and new files of an edit byte by byte |
| FormatExamples.EntryBytes | TIFASoccer/Pods/leveldb-library/table/block_builder.cc:16-22 | block entries byte by byte |
| FormatExamples.FilterBytes | TIFASoccer/Pods/leveldb-library/table/filter_block.cc:35-49 | a filter block byte by byte |
| FormatExamples.InternalKeyBytes | TIFASoccer/Pods/leveldb-library/db/dbformat.cc:14-23 | an internal key byte by byte |
| SkipList.AlwaysWell | TIFASoccer/Pods/leveldb-library/db/skiplist.h:355-368 | after every single pointer write of every insertion, each level is a sorted chain and part of the level below |
| SkipList.ConcurrentSearch | TIFASoccer/Pods/leveldb-library/db/skiplist.h:260-322 | any number of searches interleaved with insertions in any way: FindGreaterOrEqual, FindLessThan and FindLast each stop at the right node for the list as it is at their last read |
| SkipList.ReadLowers | TIFASoccer/Pods/leveldb-library/db/skiplist.h:260-322 | each read of a link lowers the pair of the level and the number of nodes ahead, or is the last |
| SkipList.SearchEnds | TIFASoccer/Pods/leveldb-library/db/skiplist.h:260-322 | however insertions fall between its reads, a search has read at most as many links as there are levels and nodes in the list |
| SkipList.PublishKeepsWell | TIFASoccer/Pods/leveldb-library/db/skiplist.h:361-367 | the one write that makes a node part of a level keeps all levels well formed |
| SkipList.SkipList.FindGreaterOrEqual | TIFASoccer/Pods/leveldb-library/db/skiplist.h:260-282 | the first node at or after the key, and on every level in use the last node before it |
| SkipList.SkipList.FindLessThan | TIFASoccer/Pods/leveldb-library/db/skiplist.h:284-302 | the last node before the key, or the head |
| SkipList.SkipList.FindLast | TIFASoccer/Pods/leveldb-library/db/skiplist.h:304-322 | the last node, or the head |
| SkipList.SkipList.Insert | TIFASoccer/Pods/leveldb-library/db/skiplist.h:337-368 | the keys afterwards are those before with the new one at its place |
| SkipList.SkipList.Contains | TIFASoccer/Pods/leveldb-library/db/skiplist.h:371-378 | true exactly for the keys in the list |
| ByteKeys.FindShortestSeparator | TIFASoccer/Pods/leveldb-library/util/comparator.cc:29-50 | the shortest of all keys strictly between start and limit, exactly when their first different bytes differ by more than one; otherwise the start key |
| ByteKeys.FindShortSuccessor | TIFASoccer/Pods/leveldb-library/util/comparator.cc:52-64 | the shortest of all keys after the given one, which itself is returned only if all its bytes are 0xff |
| ByteKeys.FindInternalSeparator | TIFASoccer/Pods/leveldb-library/db/dbformat.cc:69-86 | not before the left key and before the right one; with the shortest user key between theirs and the number that comes first, exactly when that is shorter than the left user key |
| ByteKeys.FindInternalSuccessor | TIFASoccer/Pods/leveldb-library/db/dbformat.cc:88-101 | not before the key; with the shortest user key after its own, exactly when that is shorter |
| ByteKeys.ExtractInvertsAppend | TIFASoccer/Pods/leveldb-library/db/dbformat.cc:20-23 | user key and packed number come back from the bytes |
| ByteKeys.PackedOrder | TIFASoccer/Pods/leveldb-library/db/dbformat.cc:51-67 | packed numbers order entries by sequence, then by type |
| Bloom.CreateFilter | TIFASoccer/Pods/leveldb-library/util/bloom.cc:28-54 | the bits of the filter are exactly those that some key of the set probes |
| Bloom.DeltaRotates | TIFASoccer/Pods/leveldb-library/util/bloom.cc:47 | each bit of the increment is the bit of the hash value 17 places further up |
| Bloom.ProbeSpacing | TIFASoccer/Pods/leveldb-library/util/bloom.cc:46-52 | probe j is the hash value plus j times the increment, in 32 bits |
| Bloom.MaskIsShift | TIFASoccer/Pods/leveldb-library/util/bloom.cc:50 | bit p of a byte is 1 shifted by p |
| Bloom.KeyMayMatch | TIFASoccer/Pods/leveldb-library/util/bloom.cc:56-80 | true exactly when all probe bits are set, or the filter is of an unknown kind |
| Bloom.NoFalseNegative | TIFASoccer/Pods/leveldb-library/util/bloom.cc:28-80 | no key is denied by a filter built from a set with it |
| Bloom.BloomNeverDenies | TIFASoccer/Pods/leveldb-library/util/bloom.cc:28-80 | as bytes with the probe count behind the bits, Bloom filters are a policy as the filter block asks for |
| FilterBlock.FilterBlockBuilder.StartBlock | TIFASoccer/Pods/leveldb-library/table/filter_block.cc:21-27 | keys added before stay with the filter of the range their block started in |
| FilterBlock.FilterBlockBuilder.Finish | TIFASoccer/Pods/leveldb-library/table/filter_block.cc:35-49 | the finished block matches every key for the offset of the block it was added for, and its bytes are the filters, their offsets and the trailer |
| FilterBlock.ReaderAgrees | TIFASoccer/Pods/leveldb-library/table/filter_block.cc:77-104 | a reader of these bytes answers for every block offset and key as the filters written do |
| TableFormat.InternalGet | TIFASoccer/Pods/leveldb-library/table/table.cc:216-244 | looking in one block, or in none if the filter denies it, finds the first entry at or after the target whenever that is of the target's user key, and nothing otherwise |
| TableFormat.TableBuilder.Add | TIFASoccer/Pods/leveldb-library/table/table_builder.cc:94-123 | the table holds one more entry, blocks and pending index entry in step |
| TableFormat.TableBuilder.Flush | TIFASoccer/Pods/leveldb-library/table/table_builder.cc:125-139 | closes the block and loses nothing |
| TableFormat.TableBuilder.Finish | TIFASoccer/Pods/leveldb-library/table/table_builder.cc:198-253 | every separator lies between its block and the next without losing a user key, and the filter knows every key under its block's offset |
| TableFormat.BuildAndGet | TIFASoccer/Pods/leveldb-library/table/table_builder.cc:94-253 | a lookup in a built table gives what a scan of all entries gives, wherever blocks were cut |
| Blocks.BlockBuilder.Add | TIFASoccer/Pods/leveldb-library/table/block_builder.cc:72-106 | one more entry; the longest common prefix with the key before is left out, except at a restart point, which comes after every so many entries |
| Blocks.BlockBuilder.Finish | TIFASoccer/Pods/leveldb-library/table/block_builder.cc:62-70 | the contents open as a block laid out as the entries were added |
| BlockFormat.OpenInverts | TIFASoccer/Pods/leveldb-library/table/block.cc:24-39 | the restart array and its length are read back |
| BlockFormat.DecodeInverts | TIFASoccer/Pods/leveldb-library/table/block.cc:54-74 | an entry stored anywhere is decoded as written, on the fast path and on the slow one |
| BlockFormat.ParseAt | TIFASoccer/Pods/leveldb-library/table/block.cc:224-251 | every entry parses after the key before it, and at a restart point after no key at all |
| Blocks.BlockIter.ParseNextKey | TIFASoccer/Pods/leveldb-library/table/block.cc:224-251 | on any bytes stays within the block; on a sound block moves to the next entry, restart index in step, or off the end |
| Blocks.BlockIter.Seek | TIFASoccer/Pods/leveldb-library/table/block.cc:163-201 | on a sound block with ascending keys, the position of the first entry not before the target |
| Blocks.BlockIter.LastRestartBefore | TIFASoccer/Pods/leveldb-library/table/block.cc:164-189 | the key at the restart point found is before the target, unless it is the first |
| Blocks.BlockIter.Next | TIFASoccer/Pods/leveldb-library/table/block.cc:137-140 | one entry further |
| Blocks.BlockIter.Prev | TIFASoccer/Pods/leveldb-library/table/block.cc:142-161 | one entry back, from every position |
| Blocks.BlockIter.SeekToFirst | TIFASoccer/Pods/leveldb-library/table/block.cc:203-206 | the first entry |
| Blocks.BlockIter.SeekToLast | TIFASoccer/Pods/leveldb-library/table/block.cc:208-213 | the last entry |
| Blocks.RoundTrip | TIFASoccer/Pods/leveldb-library/table/block.cc:76-252 | any entries and any restart interval: scanning the bytes forwards and backwards gives the entries |
| Blocks.BuildAndSeek | TIFASoccer/Pods/leveldb-library/table/block.cc:163-201 | a search in the bytes of a block finds the first entry not before the target, or that there is none |
| CacheTable.HandleTable.Insert | TIFASoccer/Pods/leveldb-library/util/cache.cc:78-92 | the table is a map from keys to entries: the entry takes the place of the one for its key, which is returned |
| CacheTable.HandleTable.Lookup | TIFASoccer/Pods/leveldb-library/util/cache.cc:74-76 | the entry for the key, or none if there is none |
| CacheTable.HandleTable.Remove | TIFASoccer/Pods/leveldb-library/util/cache.cc:94-102 | takes out the entry for the key and nothing else |
| CacheTable.HandleTable.Resize | TIFASoccer/Pods/leveldb-library/util/cache.cc:122-146 | every entry is in its new chain once, and there is a chain for every entry |
| LruCache.LRUCache.Insert | TIFASoccer/Pods/leveldb-library/util/cache.cc:266-303 | the entry is cached in place of the one for its key; the oldest entries without clients are thrown out, no more than needed, until the rest fits or none is left |
| LruCache.LRUCache.Lookup | TIFASoccer/Pods/leveldb-library/util/cache.cc:252-259 | the entry last inserted for the key and not erased since, with a reference for the client, or none |
| LruCache.LRUCache.Release | TIFASoccer/Pods/leveldb-library/util/cache.cc:261-264 | the last reference runs the deleter; the last client of a cached entry makes it the newest that may be evicted |
| LruCache.LRUCache.Erase | TIFASoccer/Pods/leveldb-library/util/cache.cc:318-321 | the entry leaves the cache, and its deleter runs now exactly if no client holds it |
| LruCache.LRUCache.Prune | TIFASoccer/Pods/leveldb-library/util/cache.cc:323-333 | every entry without a client goes, oldest first, and no other |
| LruCache.LRUCache.Destroy | TIFASoccer/Pods/leveldb-library/util/cache.cc:205-215 | with no references held, the deleter of every entry ever made has run once |
| LruCache.LRUCache.Unref | TIFASoccer/Pods/leveldb-library/util/cache.cc:225-237 | counts, lists and deleter calls stay those of the remaining references |
| LruCache.LRUCache.Ref | TIFASoccer/Pods/leveldb-library/util/cache.cc:217-223 | an entry is on the evictable list exactly while only the cache refers to it |
| LruCache.LRUCache.FinishErase | TIFASoccer/Pods/leveldb-library/util/cache.cc:307-316 | usage, lists and counts are those of a cache without the entry |
| LruCache.Run | TIFASoccer/Pods/leveldb-library/util/cache.cc:197-333 | any client trace: a successful lookup returns the last value inserted and not erased, every lookup succeeds as an unbounded map would while everything fits, and after the end every inserted value has been deleted exactly once |
| ByteCoding.ReadVarintInverts | TIFASoccer/Pods/leveldb-library/util/coding.cc:47-157 | a varint is read back whatever follows it, within as many bytes as its size needs |
| ByteCoding.GetLengthPrefixedInverts | TIFASoccer/Pods/leveldb-library/util/coding.cc:98-101 | a length-prefixed string is read back and what follows it is left |
| ByteCoding.FixedRoundTrip | TIFASoccer/Pods/leveldb-library/util/coding.cc:9-33 | fixed-width numbers are read back |
| PbRoundTrip.MessageRoundTrip | TIFASoccer/Pods/nanopb/pb_decode.c:928-1076 | for every descriptor tree with distinct tags and every message that fits it, decoding the encoding returns the message and uses every byte |
| PbDecoder.DecodeBuffer | TIFASoccer/Pods/nanopb/pb_decode.c:1078-1090 | on any bytes and any descriptor: the streams, substreams and loops produce exactly what the definition of the decoding says, and succeed exactly if the input splits into records that can be performed, each of the first 64 required fields has one, and the fixed-count array under way is full; the result fits its storage |
| PbDecoder.DecodeNoinit | TIFASoccer/Pods/nanopb/pb_decode.c:928-1076 | the field loop, with its required-field words and fixed-count bookkeeping, is the merge of the input into the message, and fails if one of the first 64 required fields has no record in the input |
| PbRecords.LoopPerforms | TIFASoccer/Pods/nanopb/pb_decode.c:943-1023 | decoding any input is performing its records one by one up to the end or a zero tag, and fails if the input is anything else |
| PbRecords.RecordReaches | TIFASoccer/Pods/nanopb/pb_decode.c:321-331 | a record takes exactly the bytes that its wire type, or that of its field, prescribes, whatever they hold |
| PbRecords.DecodeConcat | TIFASoccer/Pods/nanopb/pb_decode.c:943-1023 | decoding one input behind another goes on from where the first has led |
| PbRecords.UnknownChangeNothing | TIFASoccer/Pods/nanopb/pb_decode.c:958-989 | records with unknown tags change nothing, wherever they stand |
| PbRecords.UnknownRecord | TIFASoccer/Pods/nanopb/pb_decode.c:958-989 | the bytes of a record with an unknown tag can be put between records or left out |
| PbLaws.DecodesIff | TIFASoccer/Pods/nanopb/pb_decode.c:928-1076 | decoding succeeds if and only if the records can be performed, each of the first 64 required fields has one, and the fixed-count array under way at the end is full |
| PbLaws.RequiredIff | TIFASoccer/Pods/nanopb/pb_decode.c:1015-1073 | the required fields noted are all there if and only if each of the first 64 has a record in the input |
| PbLaws.LastWins | TIFASoccer/Pods/nanopb/pb_decode.c:416-422 | of several records of a scalar or string the last one wins |
| PbLaws.SubmessagesMerge | TIFASoccer/Pods/nanopb/pb_decode.c:1519-1541 | the record of a submessage is merged into what the records before it have left |
| PbLaws.ArraysAppend | TIFASoccer/Pods/nanopb/pb_decode.c:424-464 | an array has what it had and behind that the values of all its records, packed or not, in order, and never more than it has room for |
| PbLaws.UnionMemberDisplaced | TIFASoccer/Pods/nanopb/pb_decode.c:466-478 | a record of one member of a union leaves the others without a value |
| PbLaws.Untouched | TIFASoccer/Pods/nanopb/pb_decode.c:406-483 | a field depends on its own records and on those of its union only |
| PbLaws.FixedCountIsExact | TIFASoccer/Pods/nanopb/pb_decode.c:991-1013 | a run of records of a fixed-count array, up to the next such array or the end, has exactly as many values as the array has items, and these become its contents |
| PbLaws.MergeInputs | TIFASoccer/Pods/nanopb/pb_decode.c:928-1076 | decoding one input and then another into the same message gives what decoding both together gives, if no fixed-count array has records in both |
| PbStorage.UnsignedRange | TIFASoccer/Pods/nanopb/pb_decode.c:1376-1398 | of each width: an unsigned number is taken exactly if it fits |
| PbStorage.ZigZagRange | TIFASoccer/Pods/nanopb/pb_decode.c:1400-1422 | of each width: a zigzag number is taken exactly if it fits |
| PbStorage.SignedRange | TIFASoccer/Pods/nanopb/pb_decode.c:1339-1374 | of each width below 64 bits: all but the low 32 bits of a signed number are lost, and the rest is taken exactly if it fits |
| PbStorage.StringRange | TIFASoccer/Pods/nanopb/pb_decode.c:1441-1564 | a string is taken exactly if it leaves room for the terminator, bytes if they fit, fixed-length bytes if there are as many or none |
| PbStorage.DecodedFits | TIFASoccer/Pods/nanopb/pb_decode.c:1078-1090 | whatever the bytes, a decoded message fits its storage: numbers in range, strings and arrays within bounds, one member to a union, at every depth |
| PbDecoder.DecodeRecord | TIFASoccer/Pods/nanopb/pb_decode.c:952-1023 | one record changes one slot; a required field is noted, a fixed-count array must be complete before another starts |
| PbDecoder.DecodeSlot | TIFASoccer/Pods/nanopb/pb_decode.c:406-483 | presence, arrays, packed arrays and unions for one record |
| PbDecoder.DecodePackedArray | TIFASoccer/Pods/nanopb/pb_decode.c:425-453 | items of a packed array up to its capacity, else an error |
| PbDecoder.DecodeValue | TIFASoccer/Pods/nanopb/pb_decode.c:1328-1564 | each scalar and string type checks its range and consumes its bytes |
| PbDecoder.DecodeSubmessage | TIFASoccer/Pods/nanopb/pb_decode.c:1519-1541 | a submessage is merged from exactly its own bytes |
| PbDecoder.MakeSubstream | TIFASoccer/Pods/nanopb/pb_decode.c:372-385 | the bytes of the substream and those left to its parent are together the bytes after the length |
| PbDecoder.CloseSubstream | TIFASoccer/Pods/nanopb/pb_decode.c:387-400 | the parent goes on right behind the substream, however much of it was read |
| PbDecoder.SkipField | TIFASoccer/Pods/nanopb/pb_decode.c:321-331 | an unknown field is skipped exactly |
| PbDecoder.AllRequired | TIFASoccer/Pods/nanopb/pb_decode.c:1033-1073 | comparing two words accepts exactly when each of the first 64 required fields was seen |
| PbDecoder.NoteRequired | TIFASoccer/Pods/nanopb/pb_decode.c:1015-1020 | setting a bit adds one field to those seen |
| PbBits.AllSeen | TIFASoccer/Pods/nanopb/pb_decode.c:1054-1072 | a word equals the low bits exactly when all of them are set, because no bit above them ever is |
| PbBits.WithBitIsSeen | TIFASoccer/Pods/nanopb/pb_decode.c:1018-1019 | or-ing a bit into a word adds it to the set the word stands for |
| PbDecoder.FieldIter.Next | TIFASoccer/Pods/nanopb/pb_common.c:20-76 | the iterator counts the required fields before the current one and wraps at the end |
| PbDecoder.FieldIter.Find | TIFASoccer/Pods/nanopb/pb_common.c:78-95 | a search from any field, all the way round, finds the field with the tag exactly if there is one |
| PbDecoder.FieldIter.CountRequired | TIFASoccer/Pods/nanopb/pb_decode.c:1038-1049 | the number of required fields of the message, wherever the iterator stood |
| PbStream.InStream.DecodeVarint | TIFASoccer/Pods/nanopb/pb_decode.c:255-275 | up to ten bytes, and bits beyond 64 are lost |
| PbStream.InStream.DecodeVarint32 | TIFASoccer/Pods/nanopb/pb_decode.c:187-247 | bits beyond 32 are accepted only as zero or sign extension |
| PbStream.InStream.Read | TIFASoccer/Pods/nanopb/pb_decode.c:102-137 | succeeds exactly when enough bytes are left, and counts them |
| PbWire.VarintBytes | TIFASoccer/Pods/nanopb/pb_encode.c:608-628 | the loop writes the base-128 digits with continuation bits |
| PbWire.VarintRoundTrip | TIFASoccer/Pods/nanopb/pb_decode.c:255-275 | every 64-bit value is read back, whatever follows |
| PbWire.TenBytesAtMost | TIFASoccer/Pods/nanopb/pb_decode.c:255-275 | a varint of 64 bits has ten bytes at most |
| PbWire.Varint32RoundTrip | TIFASoccer/Pods/nanopb/pb_decode.c:187-247 | every 32-bit value is read back, whatever follows |
| PbWire.LowBits32 | TIFASoccer/Pods/nanopb/pb_decode.c:187-247 | whatever bytes are accepted, the value is the low 32 bits of the number they stand for |
| PbWire.Large32Refused | TIFASoccer/Pods/nanopb/pb_decode.c:187-247 | positive numbers of more than 32 bits are refused |
| PbWire.Negative32 | TIFASoccer/Pods/nanopb/pb_decode.c:187-247 | negative numbers of 32 bits, sign-extended to 64, are accepted |
| PbWire.ZigZagRoundTrip | TIFASoccer/Pods/nanopb/pb_encode.c:630-639 | signed values come back from their zigzag form |
| PbEncode.EncodeMessage | TIFASoccer/Pods/nanopb/pb_encode.c:528-550 | succeeds exactly when the message may be encoded and its bytes fit; then exactly these bytes are counted, and written unless the stream only sizes; what the bytes must be is said by the members below |
| PbEncode.EncodeSubmessage | TIFASoccer/Pods/nanopb/pb_encode.c:717-765 | the sizing pass and the writing pass agree at every depth: the length prefix is right and a size change is never reported |
| PbEncode.EncodeArray | TIFASoccer/Pods/nanopb/pb_encode.c:147-236 | packed and unpacked arrays, the packed length computed in advance |
| PbEncode.EncodeField | TIFASoccer/Pods/nanopb/pb_encode.c:341-426 | presence rules and default values decide whether the field is written |
| PbEncode.OStream.Write | TIFASoccer/Pods/nanopb/pb_encode.c:103-127 | writes all or nothing, and a sizing stream only counts |
| PbEncode.GetEncodedSize | TIFASoccer/Pods/nanopb/pb_encode.c:567-576 | exactly the number of bytes that encoding writes |
| PbEncode.EncodeToBuffer | TIFASoccer/Pods/nanopb/pb_encode.c:528-576 | encoding into a buffer succeeds exactly when the size found in advance fits it |
| PbEvolution.ValueSkipped | TIFASoccer/Pods/nanopb/pb_encode.c:675-707 | the wire type written for a value of any type tells a reader where the value ends |
| PbEvolution.BytesSkipped | TIFASoccer/Pods/nanopb/pb_decode.c:289-296 | likewise for strings, submessages and packed arrays under wire type 2 |
| PbEvolution.PickedRoundTrip | TIFASoccer/Pods/nanopb/pb_decode.c:956-989 | a reader whose descriptor lacks any of the fields decodes the others from the encoded message and passes over the rest |
| PbEvolution.OtherWireTypesRefused | TIFASoccer/Pods/nanopb/pb_decode.c:321-331 | a record with wire type 3, 4, 6 or 7 is refused wherever it stands |
| PbEvolution.FieldsInOrder | TIFASoccer/Pods/nanopb/pb_encode.c:528-550 | fields are encoded one behind the other in the order of the descriptor |
| PbEvolution.NumberOnTheWire | TIFASoccer/Pods/nanopb/pb_encode.c:675-707 | numbers byte by byte, with tag and wire type 0 |
| PbEvolution.FixedOnTheWire | TIFASoccer/Pods/nanopb/pb_encode.c:641-707 | fixed-width numbers byte by byte, with wire types 5 and 1 |
| PbEvolution.TextOnTheWire | TIFASoccer/Pods/nanopb/pb_encode.c:675-715 | a string byte by byte, with wire type 2 |
| PbEvolution.PackedOnTheWire | TIFASoccer/Pods/nanopb/pb_encode.c:147-210 | a packed array byte by byte |
| PbStorage.MessageTaken | TIFASoccer/Pods/nanopb/pb_encode.c:147-172 | a message that the encoder takes comes back from the decoder exactly if it meets what the encoder does not check: terminators, lengths, one member to a union |
| PbStorage.SilentIff | TIFASoccer/Pods/nanopb/pb_encode.c:240-339 | nothing at all is written exactly for a message in which every field is absent or has its default value |

## Left out

- EngineRuns.ReadsAreHistory: says nothing of keys that an installed compaction has uncovered, although a later write of such a key is read back; which keys they are is exact, see above.
- EngineRuns.StepKeepsInv: installing a manual compaction whose outputs meet a table flushed meanwhile is not a step, since the level is no longer sorted then; the condition is exact, see above. EngineInstall.FinishKeepsInv and DbImpl.DBImpl.DoCompactionWork ask for the same.
- EngineRuns.RecoveryRestoresLog: appends to the log and the manifest are taken to be durable and free of I/O errors, and installing an edit is one step; what a cut-off log or manifest gives is proved separately in LogReader and Manifest.
- DbImpl.DBImpl.Get: user keys are integers in the engine, since it only compares them; keys as bytes are in ByteKeys, BlockFormat and TableFormat. Sequence numbers stay below 2 to the power of 56.
- DbImpl.DBImpl.DoCompactionWork: of a manual compaction it requires that no table was flushed between its survivors, see above. Output file numbers are drawn when the outputs are installed, the state machine allows any; the flush that may come between two entries is a separate step of the state machine; an input key that cannot be parsed does not occur.
- DbImpl.DBImpl.CrashAndReopen: reuse_logs is off, and replayed tables have size 0 in their metadata.
- DbImpl.DBImpl.LogAndApply: the manifest's counters are those at the moment of the commit, and the append does not fail; the window without the mutex and failed appends are in FileLifecycle.
- CompactionPick.PickCompaction: scores and seek counts only choose the trigger, which is arbitrary here.
- WriteQueue.BuildBatchGroup: a batch is a sequence of operations whose byte size is a field; bytes are in WriteBatch.
- WriteThreads.StepSimulates: slowing writers down and waiting for a flush are one step, making room; condition variables wake a thread only when its condition holds, since a thread woken in vain waits again.
- SkipList.ConcurrentSearch: memory orders beyond the order of the pointer writes are not modelled (sequential consistency), and there is one writer at a time, as the code demands. Keys are integers, nodes are indices into sequences.
- LogReader.ReadAll: reading starts at offset 0, and the file is cut off but not changed; what is made of whatever physical records a changed file yields is in LogReader.RecordsAreWhole and LogReader.NothingLost.
- Manifest.Recover: the CURRENT file and the reuse of an old manifest are not modelled, and neither are records that no encoder wrote; a table is given by its metadata through an arbitrary function. File numbers are added at most once per level.
- WriteBatch.WriteBatch.SetCount: counts and lengths are required to fit their 32-bit fields.
- BlockFormat.DecodeEntry: the 32-bit wrap-around of the sum of two lengths is not modelled; such an entry counts as malformed.
- Blocks.BlockBuilder.Add: sizes and offsets must fit 32 bits, as the format demands.
- TableFormat.TableBuilder.Finish: blocks are sequences of entries and offsets are numbers there; block trailers, compression, the metaindex, the footer and reading a block from disk are left out. A block as bytes is in Blocks.
- FilterBlock.ReaderAgrees: filters together stay below 4 GB, as the 32-bit offsets demand.
- FileLifecycle.RecoveryFindsEverything: what the tables of a manifest hold is told by the logs flushed into them; that a compaction keeps it is the subject of EngineInstall. Tables and logs named in an installed edit are durable, and replayed memtables always become tables (reuse_logs is off). File deletion does not fail.
- DbIter.DBIter.Grow: entries arrive between moves, not within one.
- VersionBuilder.Builder.Apply: the compaction pointers of an edit are not kept; which file a compaction starts from is arbitrary up to PickCompaction.
- Bloom.CreateFilter: the number of probes is a parameter between 1 and 30, since 0.69 times the bits per key is a floating-point product. The hash is an arbitrary function.
- ByteKeys.FindInternalSuccessor: the custom comparators a client may supply are not modelled.
- LruCache.LRUCache.Insert: the two circular lists are sequences and the chains of the hash table too, so the relinking of neighbours is not captured; the sixteen shards, their mutexes and the ids are left out.
- LogFormat.UnmaskInvertsMask: the checksum itself is an arbitrary function; its table code is left out.
- PbDecoder.FieldIter.Find: descriptors have distinct tags from 1 on; a tag of 0 with a non-zero wire type on an empty descriptor is not modelled as the code treats it. Pointers into the message structure are slot positions.
- PbDecoder.DecodeBuffer: padded varints of more than 37 bytes and a tag of 0 on an empty descriptor are not decoded as the code does, see the two lines around this one.
- PbStream.InStream.DecodeVarint32: the bit position is a number without bound, the code keeps it in eight bits, which matters after 37 superfluous bytes.
- PbLaws.MergeInputs: asks that no fixed-count array has records in both inputs, since decoding both together would go on counting where decoding one after the other starts anew; PbRecords.DecodeConcat has no such condition.
- PbStorage.DecodedFits: a decoded string may hold a zero byte, which the code's caller would take for its end.
- PbRoundTrip.MessageRoundTrip: what memory holds behind absent fields is not represented, and neither are explicit proto2 default values; lengths fit 32 bits.
- PbEncode.EncodeToBuffer: sizes do not wrap around.
- Callbacks, extensions, malloc mode and 32-bit-only builds of nanopb.
- Opening and locking a database, options, statistics, logging, background threads and error propagation: the model has no failing file operations outside WriteThreads and FileLifecycle.
- Snapshots are a list of sequence numbers; the circular list of snapshot.h would add an easy member.
- repair.cc, dumpfile.cc, c.cc, filename.cc, histogram.cc and the environment: tools, bindings and string work.
- The Swift sources of the app, its user interface and its network code.
