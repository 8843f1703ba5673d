# kv_mem in Dafny

A Dafny model of an LSM-tree key-value engine with snapshots (MVCC) and an optional HNSW
vector index, with proofs of what the design promises: crash recovery, compaction that
changes no answer, reads that refine a log of versions, byte formats that read back, and a
vector index that agrees with the store.

## How it is organised

The engine is a state machine (`Engine.dfy`) with one step per lock region: write, memtable
switch, capture, build and publish of flush and compaction, snapshots, pinned readers,
removal of obsolete files, recording an error, Close, crash and reopen. Every step that touches the disk can
fail; a failed manifest save leaves nothing, a part or all of its record, and a failed log
append may have left a whole one. A crash keeps any prefix of the manifest records that is at
least the synced one. The specification is the list of committed batches (`past`); a read means the newest version
at or below its sequence. `EngineInv.dfy` holds the invariant, one file per group of steps
shows that it is kept, and `EngineTheorems`, `EnginePublish`, `EngineNumbers`, `EngineTorn`,
`EngineCut`, `EngineGet` and `EngineIterate` state the results over whole runs. `EngineWitness.dfy` and `EngineOverlap.dfy` build the runs
that show a failure, and `CrashBytes.dfy` ties the crash step to the bytes of the files. The state keeps history that the code does not have: `past`, the sequences at which memtables
were switched (`cuts`) and the lowest sequence compaction has preserved (`floor`).

`Db.dfy` is the database object with its loops and rollbacks. Each method that changes
it takes one step of the machine or none, so the results over runs hold of the object. Its fields are grouped
into three records (memtables, manifest and tables, control) beside the disk.

Below the engine, each storage component is modelled as the code has it, with loops over
bytes, lists or linked nodes, and proved against a plain meaning:

- write-ahead log and batches: `Codec`, `WriteBatch`, `Wal`
- tables: `InternalKey`, `Block`, `Bloom`, `Cache`, `Table`, `SSTable`, `TableIterator`
- memtable: `SkipList`
- manifest: `Manifest` (edit lines), `ManifestLog` (file framing), `FileNames`
- compaction and iteration: `Merge`, `CompactionMerge`, `MergingIterator`, `Picker`, `Scheduler`
- recovery and shutdown: `Recovery`, `Drain`
- vectors: `HnswSearch`, `HnswGraph`, `HnswIndex`, `IndexBytes`, `IndexFile`, `VectorDb`

`Versions`, `Store` and `Compaction` hold the vocabulary they share.

## Conventions

- Byte strings are sequences of numbers below 256, ordered as `std::string` orders them.
  Where 32- or 64-bit width matters it is written out.
- The CRC and the Bloom hash are arbitrary functions of the bytes; a vector distance is an
  arbitrary real-valued function of two vectors of 32-bit patterns.
- Outcomes the program does not control (a failed write or sync, a random level, an injected
  failure) are parameters.
- Readers of bytes accept any input. Where a contract is about a well-formed file it names
  what the file was built from in ghost parameters and says "if the file is that, then".
- Statements written `hide F;` only keep definitions out of a proof.
- The README of the program says that batch type 3 decodes as a put; the code rejects it,
  and so does the model.

## What turned out not to hold as first stated

- A manifest record lists only which files came and went. Replay gives the saved edit exactly
  when no file that stays changes its metadata (`Store.ApplyDiff`).
- A manifest save that is cut short leaves a torn record and a recorded error, but a flush or
  compaction already under way publishes all the same and appends its record behind the torn
  one. Loading refuses such a file, or drops what follows; acknowledged batches become
  unreadable or are lost (`EngineWitness.AcknowledgedUnreadable`, `AcknowledgedLost`). Recovery
  works at every moment of a run exactly if nothing is appended behind a torn record
  (`EngineTorn.RecoveryExact`), which a check for a recorded error before publishing ensures
  (`EngineTorn.GuardedRecovers`). A reopen that drops records gives the fold exactly if every key
  whose newest logged version was in a removed log file reads the same without it
  (`EngineCut.CutIsFold`). Results over runs therefore speak of runs in which no reopen
  has dropped records.
- An allocated file number is above every log file that holds a record, but a memtable switch
  that fails after creating its log file gives the number back, and the empty file stays
  (`EngineNumbers.LogNumbers`, with a run in `EngineWitness.StaleLog`).
- When a compaction into level 2 drops a tombstone, an older value of its key may still be in a
  memtable: after a crash between the flush and the last save of Close the replayed log holds
  what a table holds too (`EngineOverlap.OlderOutside`). The tombstone is then there as well, and
  older versions are outside the inputs exactly below versions held on both sides
  (`EnginePublish.LevelsHold`).
- Parsing a numbered file name is not the inverse of writing it: longer names with leading
  zeros are accepted too (`FileNames.NameCanonical`).
- The order of internal keys and the meaning of 0 in the snapshot scan need NUL-free keys and
  nondecreasing snapshots (`InternalKey.OrderNeedsNulFree`, `EngineCompact.MinActiveNeedsOrder`).

## Model

| member | source | states |
|---|---|---|
| Versions.FoldIsNewest | src/db.cc:466-531 | the key-value map after folding whole batches in order is, for every key, the newest version in the history (a tombstone reads as absent) |
| Versions.FoldAtBoundary | src/db.cc:1368-1409 | reading the whole history at the sequence of a batch boundary equals folding the batches up to that boundary, so no reader sees part of a batch |
| Store.ApplyDiff | src/manifest.cpp:41-68 | replaying the recorded difference of two edits on the first gives the second if and only if no file present in both changes its metadata |
| Compaction.RetainNewest | src/db.cc:796-811 | what the retention rule keeps answers like the inputs at every read sequence from the oldest active snapshot (or the last sequence) on, except for tombstones dropped into level 2 |
| Compaction.CompactAnswer | src/db.cc:796-811 | replacing the inputs by what is retained changes no user-visible answer over all sources, even when tombstones are dropped, provided no other source hides an older version |
| Compaction.RestShields | src/db.cc:656-715 | when the output goes to level 2, no table outside the inputs holds an older value of a key the inputs hold: a dropped tombstone uncovers nothing |
| Compaction.OutputDisjoint | src/db.cc:54-60 | the output range meets no other range of its level, including the empty-range-overlaps-everything rule |
| Compaction.CompactLevelled | src/db.cc:868-904 | publishing a compaction keeps the ranges within level 1 and within level 2 pairwise disjoint |
| Compaction.CompactGood | src/db.cc:846-915 | an edit from which recovery reproduces the history is still one after a compaction is published |
| Compaction.FlushGood | src/db.cc:1246-1269 | likewise after a flush is published, with the log number moved past the flushed memtable |
| EngineWrite.WriteCommitted | src/db.cc:500-531 | a committed write keeps the whole invariant: logs, memtables, tables, manifests a crash may leave, snapshots, readers and running jobs |
| EngineWrite.WriteFailed | src/db.cc:501-506 | a failed append, whose record may be wholly in the log, keeps the invariant |
| EngineWrite.SwitchDone | src/db.cc:1148-1187 | a memtable switch keeps the invariant: the queue, its log numbers and the sequences at which memtables were cut stay aligned |
| EngineWrite.SwitchSaveFailed | src/db.cc:1167-1171 | a switch whose manifest save fails, leaving nothing, a part or all of its record, keeps the invariant after the rollback |
| EngineFlush.FlushSaved | src/db.cc:1246-1271 | publishing a flush keeps the invariant, with a compaction possibly running |
| EngineFlush.FlushFailedSave | src/db.cc:1258-1264 | a flush whose save fails, leaving nothing, a part or all of its record, is rolled back; every manifest a crash may leave recovers the same map |
| EngineCompact.MinActiveSound | src/db.cc:1389-1400 | because active snapshots are listed in nondecreasing order, the scan with 0 as "none" is a lower bound for every active snapshot that can see anything |
| EngineCompact.MinActiveNeedsOrder | src/db.cc:1389-1400 | without that order the scan can report "none" although a snapshot is active |
| EngineCompact.CompactSaved | src/db.cc:846-915 | publishing a compaction keeps the invariant, whatever writes, flushes and snapshots happened since capture |
| EngineCompact.CompactFailedSave | src/db.cc:905-912 | a compaction whose save fails, leaving nothing, a part or all of its record, is rolled back; a crash that finds its record still recovers the same map |
| EngineRead.LookupIsNewest | src/db.cc:539-622 | memtable hit first, otherwise the maximum over the tables, equals the newest version over all sources |
| EngineRead.GetRefines | src/db.cc:539-622 | in every reachable open state a read at the last sequence or at an active snapshot equals the newest version of the history at that sequence |
| EngineRead.GetFromFloor | src/db.cc:539-622 | at every read sequence from the floor on the lookup equals the newest version of the history |
| EngineLifecycle.CloseEndInv | src/db.cc:436-463 | the end of Close keeps the disk recoverable, whether its manifest save succeeds or fails, leaving nothing, a part or all of its record |
| EngineLifecycle.RemoveWalInv | src/db.cc:1463-1490 | removing obsolete log files never removes one that a possible manifest needs |
| EngineLifecycle.RecordErrorInv | src/db.cc:1330-1334 | recording a background error at any moment keeps the invariant |
| EngineRecover.OpenInv | src/db.cc:1053-1139 | reopening establishes the invariant of an open database; manifest records that were read but never synced may still be lost in a later crash |
| EngineRecover.RecoveryPossible | src/db.cc:1053-1139 | after any run and any crash there is an open step, if nothing follows a torn manifest record |
| EngineTheorems.StepInv | src/db.cc:396-1490 | every step keeps the invariant, save failures that leave part of a record included; the one exception is opening a manifest cut off in front of whole records |
| EngineTheorems.RunInv | src/db.cc:396-1490 | the invariant holds in every state of every run up to a reopen that dropped manifest records |
| EngineTheorems.GetIsFold | src/db.cc:539-622 | in every open state of every run Get returns the fold of all committed batches |
| EngineTheorems.SnapshotIsFold | src/db.cc:1402-1409 | in every run a read at an active snapshot returns the fold of the batches up to its boundary |
| EngineTheorems.ReaderIsFold | src/db.cc:551-575 | in every run a pinned reader returns the fold as of its pin |
| EngineTheorems.ReaderStable | src/db.cc:551-575 | between any two states of a run in which a reader stays pinned, it answers the same for every key |
| EngineTheorems.AcknowledgedSurvives | src/db.cc:466-531 | an acknowledged batch is in the database in every later state of the run, through any crashes and reopens, as long as no reopen dropped manifest records |
| EngineTheorems.OnlyWholeWrites | src/db.cc:1094-1136 | every batch in the database was written by one write step, whole, and was acknowledged or had its record wholly in the log |
| EngineTheorems.CrashRecovery | src/db.cc:1053-1139 | in every run, a crash that keeps any unsynced manifest records and the surviving log record or not, followed by a reopen, gives the fold of the committed batches plus at most that one batch |
| EngineTorn.RecoveryExact | src/manifest.cpp:70-96 | in every run: at every moment a stop, with whatever survives of it, can be recovered from, exactly if no step appended anything behind a torn manifest record |
| EngineTorn.ReadableExact | src/manifest.cpp:263-323 | every state of a run has a manifest that reads as a whole exactly if no step appended anything behind a torn record |
| EngineTorn.ReopenIsFold | src/db.cc:1053-1139 | in every run a reopen gives the fold of the committed batches and of a batch whose log record survived |
| EngineTorn.BehindOnlyAfterError | src/db.cc:1234-1258 | only a flush or compaction publish can append behind a torn record, and only when a background error is recorded already: the publish could check for it |
| EngineTorn.GuardedRecovers | src/db.cc:1234-1258 | if no flush or compaction publishes once an error is recorded, every state of the run can be recovered from and no reopen drops a record |
| EngineTorn.GuardedSurvives | src/db.cc:466-531 | under the same condition an acknowledged batch is in the database in every later state |
| EngineTorn.LostForever | src/manifest.cpp:263-333 | from any state in which a synced record lies behind a torn one, no later step of the run opens the database with all its records |
| EngineTorn.SavedBehindLost | src/manifest.cpp:70-96 | in every run, once a save onto a manifest with a torn record has reported success, its record lies behind the torn one in every later state and no step opens the database with all its records |
| EngineCut.CutIsFold | src/db.cc:1053-1139 | in every run, for a reopen that drops what follows a torn record: it gives the fold of the committed batches exactly if every key whose newest logged version was in a log file removed since reads the same without it |
| EngineCut.CutComplete | src/db.cc:1463-1486 | if every log file of the time of the torn record is still there, or no record behind it moved the log number, such a reopen gives the fold |
| EngineCut.RunSince | src/db.cc:1231-1291 | from the torn record on nothing is committed, the records before it stay, log files are only removed and the tables they name are not rewritten |
| EngineCut.RunSuperseded | src/db.cc:1463-1486 | a log file removed since the torn record is below the log number in memory and of every manifest a crash may leave |
| EngineWitness.AcknowledgedUnreadable | src/db.cc:1152-1270 | a run of ten steps from a new database: a batch is acknowledged, a switch save is cut in its header, the flush behind it reports success and its log is removed; then no step opens the database |
| EngineWitness.AcknowledgedLost | src/db.cc:1152-1270 | the same with the cut in the payload: the database opens and the acknowledged key is absent |
| EngineWitness.StaleLog | src/db.cc:1160-1165 | a run of three steps after which a log file carries the next file number |
| CrashBytes.CrashOnBytes | src/db.cc:1053-1139 | in every run with a readable manifest: whatever byte prefixes of the manifest and the log files survive, holding what was synced, they read as the outcome of a crash step, from which the database opens; the manifest may end in several records cut short, as long as they do not complete the first |
| CrashBytes.UnreadableOnBytes | src/manifest.cpp:263-323 | on the bytes: records behind one cut in its header are refused; behind one cut in its payload they are dropped if too short for it, refused otherwise unless the checksum agrees by accident |
| EnginePublish.CompactionInvisible | src/db.cc:635-929 | in every run, publishing a compaction changes no answer at any read sequence from the last one at its capture on, nor at any active snapshot (one at 0 included), whatever happened since |
| EnginePublish.FloorsAtCapture | src/db.cc:720-723 | what a captured compaction and all before it preserve reaches down to the last sequence at capture, until it publishes |
| EnginePublish.PublishChecksHold | src/db.cc:852-865 | in no run do the checks for a changed queue and for vanished compaction inputs fire, and every table named by any manifest a crash may leave exists |
| EngineNumbers.Freshness | src/db.cc:1455-1461 | in every open state of every run the next sequences and the next file number are above every version in the history, every table file and every log file that holds a record; no sequence names two operations |
| EngineNumbers.LogNumbers | src/db.cc:1153-1171 | counting empty log files too: in every open state of every run no log number is above the next one, one equal to it is empty, and it is there exactly when a failed switch left it and neither a reopen nor a new number came since |
| EnginePublish.LevelsHold | src/db.cc:657-715 | in every open state of every run level 1 and level 2 ranges are disjoint and cover their tables; so when a compaction into level 2 publishes, any other table, memtable or live log that holds an older version of a key than one in the inputs, a dropped tombstone say, also holds that one; and nothing outside is older exactly if nothing is older than a version held both in the inputs and outside; nothing is held on both sides, and so nothing outside is older, exactly if the inputs end at the first memtable and before the live log files and share no version with another level-0 table |
| EngineOverlap.OlderOutside | src/db.cc:395-423 | a run of twelve steps after which a compaction into level 2 is about to drop a tombstone while a memtable holds the older value below it: Close was cut off after its flush, and reopening replayed the log |
| Db.NewestTable | src/db.cc:593-618 | the scan over the tables with its early stop at the read sequence returns the newest version of all of them |
| Db.MinActiveSnapshot | src/db.cc:1389-1400 | the loop computes the minimum the machine uses |
| Db.DB.GetAt | src/db.cc:539-622 | the lookup loops return the value of the first memtable hit, otherwise of the newest table version |
| Db.DB.Get | src/db.cc:539-622 | all errors of Get (bad key, closed database, released or unknown snapshot) exactly; otherwise the fold of all committed batches, or of those up to the snapshot's batch boundary |
| Db.DB.InsertOps | src/db.cc:508-527 | the insertion loop adds exactly the versions of the batch and ends at its last sequence |
| Db.DB.Write | src/db.cc:466-531 | a refused batch changes nothing, a failed append stops the database, an accepted batch is exactly one write step |
| Db.DB.FlushMemTable | src/db.cc:1148-1187 | an empty memtable or used-up file numbers change nothing; otherwise exactly one switch step, with rollback on either failure |
| Db.DB.SaveManifest | src/db.cc:1448-1453 | appends the difference to the persisted edit; a failure leaves nothing, a part or all of the record, records the background error and keeps the persisted edit |
| Db.DB.PublishFlush | src/db.cc:1246-1269 | exactly one flush-publish step, with rollback |
| Db.DB.CaptureCompaction | src/db.cc:643-724 | the chosen inputs, target, snapshot bound and file number form an enabled compaction job |
| Db.DB.PublishCompaction | src/db.cc:867-912 | exactly one compaction-publish step, with rollback |
| Db.DB.GetSnapshot | src/db.cc:1402-1409 | nothing on a closed database; otherwise an active snapshot at the last sequence is appended |
| Db.DB.ReleaseSnapshot | src/db.cc:1411-1422 | the handle stays, inactive; an unknown handle changes nothing |
| Db.DB.BeginClose | src/db.cc:404-423 | the active memtable joins the queue with its own log number |
| Db.DB.EndClose | src/db.cc:436-463 | exactly one close step: log number moved past every log file when the drain was clean |
| Db.DB.Open | src/db.cc:333-394 | on a manifest with nothing behind a torn record: succeeds unless file numbers are used up, and recovers exactly the committed batches and a surviving record; otherwise refused, except for the exact case in which what follows is dropped |
| Db.LogsReplay | src/db.cc:1109-1117 | on such a disk the order check and the key check of the replay never fire |
| Db.OpenFits | src/db.cc:1053-1139 | what the recovery loops compute is the machine's open step |
| Recovery.ReplayRecord | src/db.cc:1114-1134 | one record adds exactly its versions and raises the last sequence to its own |
| Recovery.ReplayFiles | src/db.cc:1094-1136 | the replay accepts every list of files with increasing records and valid keys and collects exactly their versions |
| Recovery.Recover | src/db.cc:1053-1139 | newest and oldest live log, a file number above everything seen, the replayed memtable and the greatest sequence |
| Merge.Children.Top | src/db.cc:181-192 | the heap top is not after any entry any child still holds, by key and then newest first |
| Merge.Children.TakeKey | src/db.cc:767-787 | taking the smallest key takes all its versions from all children and nothing else |
| Merge.Children.Rebuild | src/db.cc:194-208 | the heap holds exactly the children with an entry, and an error is recorded exactly if a child already stands where it cannot be read |
| CompactionMerge.SortVersions | src/db.cc:788-794 | newest first, a permutation |
| CompactionMerge.KeepVersions | src/db.cc:796-811 | of one key, exactly the versions the retention rule keeps, newest first |
| CompactionMerge.MergeInputs | src/db.cc:748-819 | the output holds exactly the retained versions of all inputs and is already in table order; it fails exactly if an input cannot be read to its end |
| CompactionMerge.OutputMeta | src/db.cc:884-903 | the published range is the exact key range of the output, empty for an empty output |
| CompactionMerge.FlushMeta | src/db.cc:1315-1326 | first and last key of the sorted entries are the exact key range |
| MergingIterator.MemCursor.constructor | src/db.cc:64-73 | keeps exactly the entries at or below the read sequence |
| MergingIterator.MemCursor.Seek | src/db.cc:79-86 | what is left is what the source shows from the target on |
| MergingIterator.Iterator.Advance | src/db.cc:224-245 | moves to the first live key of what is left, with its newest value, or to the end; an error of any child, met exactly when it moves to where it cannot be read, ends the search |
| MergingIterator.Iterator.Seek | src/db.cc:139-145 | stands on the first live key at or after the target, or has an error |
| MergingIterator.Iterator.SeekToFirst | src/db.cc:131-137 | stands on the first live key, or has an error |
| MergingIterator.Iterator.Next | src/db.cc:147-152 | moves to a greater key with no live key in between, or to the end or an error, from which it does not move |
| MergingIterator.Iterator.Collect | src/db.cc:131-253 | from any target a loop over the iterator yields exactly the live keys from there on, in strictly increasing order, each with its newest version; if a child cannot be read to its end, exactly those up to the last one yielded, and it ends with an error |
| MergingIterator.ViewAnswer | src/db.cc:139-145 | from the target on, what the children show answers like all sources |
| EngineGet.Get | src/db.cc:539-622 | in any open state of a run, at the last sequence or an active snapshot, over skip lists that hold the memtables and table files built from the tables, read through the shared block cache: the value the committed batches leave, or none; the cache stays faithful |
| EngineGet.GetAt | src/db.cc:571-622 | the lookup over the linked nodes and the file bytes equals the lookup over sets of versions |
| EngineGet.FromLists | src/db.cc:571-594 | the first skip list with a visible version decides, otherwise the tables do |
| EngineGet.FromTables | src/db.cc:596-622 | the newest version in any table file, with the early stop, and a read error ends the lookup |
| EngineIterate.Scan | src/db.cc:1424-1446 | in any open state of a run, over one child per table, immutable and active memtable, a loop from any target yields exactly the fold of the committed batches at the read sequence, from the target on, in strictly increasing key order, or the part of it up to a read error |
| Picker.CombinedRange | src/db.cc:678-690 | the combined range contains every non-empty input range and its bounds are input bounds |
| Picker.AddOverlapping | src/db.cc:657-669 | adds exactly the files of the level that overlap, each once |
| Picker.PickInputs | src/db.cc:656-719 | all of level 0 and what it overlaps in level 1, or all of level 1 and what it overlaps in level 2; nothing exactly when both levels are empty |
| Scheduler.Measure | src/db.cc:1346-1352 | file count of level 0 and byte size of level 1 |
| Scheduler.Worker.CompactUnlocked | src/db.cc:635-929 | a successful compaction empties level 0 if it had files and otherwise level 1 |
| Scheduler.Worker.MaybeCompact | src/db.cc:1336-1366 | on an open database success means both limits hold, and at most two compactions were made |
| Drain.StepInv | src/db.cc:1181-1245 | every lock-level step of writers, Close and the worker keeps the invariant |
| Drain.NoLostWakeup | src/db.cc:1181-1197 | in every interleaving a sleeping worker with a queued memtable can be woken now or right after the queueing writer sets its flag |
| Drain.ExitDrained | src/db.cc:1200-1223 | the worker exits only with an empty queue after Close began, or with a recorded error |
| Drain.AlwaysDrained | src/db.cc:440-443 | Close never reports that the queue was not drained |
| Drain.QueueUnchanged | src/db.cc:1238-1243 | the memtable being flushed is still queued when it is published |
| Drain.CloseWaitEnds | src/db.cc:425-434 | while Close waits, the worker always has a step, and each step without failure brings it nearer to its exit |
| Codec.EncodeFixed | src/storage_util.cc:8-20 | little-endian bytes of the value, truncated to the width |
| Codec.DecodeFixed | src/storage_util.cc:21-34 | the value of little-endian bytes |
| Codec.UnfixedFixed | src/storage_util.cc:8-34 | decoding an encoded value that fits the width gives it back |
| WriteBatchCodec.DecodeEncode | src/write_batch.cc:39-103 | decoding the encoding of a valid batch gives the batch |
| WriteBatchCodec.EncodeDecode | src/write_batch.cc:39-103 | encoding what was decoded gives back the bytes |
| WriteBatchCodec.WriteBatch.Encode | src/write_batch.cc:39-49 | the loop produces the encoding of the operations |
| WriteBatchCodec.WriteBatch.ValidateEncoding | src/write_batch.cc:51-63 | accepts exactly the batches whose sizes fit 32 bits |
| WriteBatchCodec.WriteBatch.Decode | src/write_batch.cc:65-103 | replaces the operations exactly when the bytes decode, and leaves them otherwise |
| Wal.ReadWhole | src/wal.cc:155-222 | a whole record reads back as its batch, whatever follows |
| Wal.ReadTorn | src/wal.cc:110-153 | a proper prefix of a record is a torn tail, never a corruption |
| Wal.WalPrefix | src/wal.cc:110-240 | reading any byte prefix of a log gives exactly the batches wholly inside it and keeps exactly their bytes |
| Wal.WalFile.Append | src/wal.cc:58-106 | appends one framed record, or refuses what it cannot frame and appends nothing |
| Wal.WalReader.ReadNext | src/wal.cc:110-153 | the next record, the end, or a torn tail that is cut off and reads as the end |
| Wal.WalReader.ReadAll | src/db.cc:1097-1107 | the batches of the whole file, with the file cut to their bytes |
| InternalKey.DecodeEncode | src/format.cc:53-81 | key and sequence come back from an internal key |
| InternalKey.OrderPreserved | src/format.cc:53-61 | byte order of internal keys is key ascending, sequence descending, for NUL-free keys |
| InternalKey.OrderNeedsNulFree | src/format.cc:53-61 | with a NUL byte in a key the order is lost |
| InternalKey.BeforeTarget | src/sstable.cpp:308-322 | against NUL-free keys, byte order still never places a key before a target it is not before, whatever bytes the target holds |
| InternalKey.EncodeKey | src/format.cc:53-61 | the loop writes the inverted sequence big-endian behind the key and a NUL |
| InternalKey.DecodeKey | src/format.cc:63-81 | the loop reads them back or reports that there is no internal key |
| FileNames.ParseNumberedName | src/format.cc:15-41 | what a name denotes, refusing non-digits, zero and values beyond 64 bits |
| FileNames.ParseName | src/format.cc:15-49 | every file number can be read back from its name |
| FileNames.NameCanonical | src/format.cc:15-49 | a parsed name is the one its number is given if and only if it has six digits or no leading zero |
| Block.DecodeIndex | src/sstable.cpp:200-241 | the record of entry i decodes to entry i after its predecessor's key, and at a restart after any key |
| Block.ParseLayout | src/sstable.cpp:155-198 | accepts every encoded block and finds its records and restarts; on other bytes its result stays in bounds |
| Block.DecodeEntries | src/sstable.cpp:243-270 | decodes all records back to the entries |
| Block.RestartKey | src/sstable.cpp:272-289 | the internal key of the entry at a restart |
| Block.SeekRestart | src/sstable.cpp:789-806 | the binary search finds a restart at or before the target, or the first one |
| Block.Scan | src/sstable.cpp:807-833 | decoding from a restart is the scan of the entries from there |
| Block.StartAt | src/sstable.cpp:790-809 | starting at such a restart misses nothing |
| Block.FindIsNewest | src/sstable.cpp:811-833 | the first visible entry in table order is the newest version |
| Block.BuildBlock | src/sstable.cpp:82-124 | one pass with prefix compression and restarts gives the encoding of the entries |
| Block.GetFromBlock | src/sstable.cpp:763-834 | on the bytes of sorted entries the lookup is the linear scan of the entries |
| Block.DecodeBlock | src/sstable.cpp:836-844 | a block decodes to its entries |
| Bloom.Build | src/bloom_filter.cc:10-28 | every added key is found: no false negatives within the 32-bit size bound |
| Bloom.MayContain | src/bloom_filter.cc:45-58 | true exactly when all probed bits are set, or the filter is empty |
| Bloom.SetBitExact | src/bloom_filter.cc:21-24 | setting a bit sets that bit and no other |
| Bloom.DecodeEncode | src/bloom_filter.cc:30-66 | every built filter is accepted and restored |
| Cache.BlockCache.Get | src/block_cache.cc:9-27 | returns the stored block and makes it the most recent, or misses and changes nothing but the counter |
| Cache.BlockCache.Put | src/block_cache.cc:29-49 | stores the block in front and evicts the least recently used key when full |
| Cache.LruPrefix | src/block_cache.cc:9-49 | after any sequence of uses the bounded cache holds exactly the most recently used keys of an unbounded one |
| Table.ReadIndex | src/sstable.cpp:688-719 | reads back every index that was written; on other bytes every accepted range lies in the data |
| Table.IndexInside | src/sstable.cpp:465-475 | index entry i carries the last key of block i and its exact place in the file |
| Table.OffsetsApart | src/sstable.cpp:465-476 | no two blocks share an offset |
| Table.Load | src/sstable.cpp:646-727 | a built file is accepted and gives back its index and filter |
| SSTable.NextCut | src/sstable.cpp:453-463 | a block reaches the size limit, passes it only to keep the versions of one key together, and never splits a key |
| SSTable.UniqueKeys | src/sstable.cpp:435-440 | the distinct keys, each once |
| SSTable.WriteBlocks | src/sstable.cpp:452-477 | blocks and index of groups that together are the entries |
| SSTable.Create | src/sstable.cpp:435-509 | rejects exactly the filters it cannot size; otherwise the file holds the entries in blocks and a filter that knows every key |
| SSTable.OneGroup | src/sstable.cpp:557-586 | looking only into the block at the lower bound equals scanning all entries |
| SSTable.LowerBound | src/sstable.cpp:567-574 | a block whose last key is not before the target while the block before it ends before the target |
| SSTable.Reader.ReadRaw | src/sstable.cpp:729-747 | with or without a cache, the bytes of the block; entries of other files in the cache are untouched |
| SSTable.Reader.Get | src/sstable.cpp:557-586 | filter, index, cache, restart search and decoding together equal a linear scan of the entries |
| SSTable.Reader.ReadBlock | src/sstable.cpp:749-761 | the entries of one block |
| SSTable.Reader.Entries | src/sstable.cpp:607-620 | a full decode returns the entries the table was built from |
| SSTable.Open | src/sstable.cpp:538-555 | a built file opens, whatever cache is used |
| SSTable.BuildOpenGet | src/sstable.cpp:425-586 | building a table, opening it and looking a key up gives the newest version of the entries at or below the sequence, with or without a cache, as long as sizes fit their fields |
| TableIterator.Cursor.SeekToFirst | src/sstable.cpp:299-306 | will show exactly the entries at or below the read sequence |
| TableIterator.Cursor.Seek | src/sstable.cpp:308-322 | will show exactly the visible entries from the target on, for any target bytes, although a NUL in the target breaks the order of internal keys |
| TableIterator.Cursor.Next | src/sstable.cpp:324-330 | drops the current entry from what is to be shown |
| TableIterator.Cursor.Current | src/sstable.cpp:332-352 | the current entry is the first to be shown |
| TableIterator.Cursor.SkipTo | src/sstable.cpp:392-405 | passes over exactly the entries before the target or above the read sequence |
| SkipList.List.Find | src/skiplist.cc:41-54 | the first node not before the key, and at every level the last node before it that reaches the level |
| SkipList.List.Insert | src/skiplist.cc:64-93 | for any choice of level the version goes to its place in order, or replaces the one with the same key and sequence; all link invariants are kept |
| SkipList.List.Splice | src/skiplist.cc:86-91 | linking a node in at each of its levels gives the links of the longer list at every level |
| SkipList.List.Get | src/skiplist.cc:95-109 | the newest version of the key at or below the sequence |
| SkipList.List.Entries | src/skiplist.cc:111-127 | all versions in order |
| SkipList.List.EntriesSorted | src/skiplist.cc:111-127 | strictly sorted by key, then newest first |
| SkipList.PlacedSet | src/skiplist.cc:64-93 | an insertion keeps the order and changes only the version with that key and sequence |
| SkipList.ChainExact | src/skiplist.cc:41-93 | the links of a level visit exactly the nodes that reach it, in order, so each level is a sublist of the one below |
| Manifest.BuildEditPayload | src/manifest.cpp:41-68 | the lines of a record are the difference of the two edits, whatever edit they are applied to |
| Manifest.ParseEditPayload | src/manifest.cpp:112-203 | accepts exactly complete records with legal metadata, local file names that denote their number and non-zero numbers, and applies them line by line; the files come out sorted |
| Manifest.SortFiles | src/manifest.cpp:198-201 | sorted by number, the same files |
| ManifestLog.SavesReplay | src/manifest.cpp:253-344 | replaying the first k records of any sequence of saves gives the edit of the k-th save, if no file's metadata ever changes |
| ManifestLog.FramesPrefix | src/manifest.cpp:253-330 | any byte prefix of a manifest reads as the records wholly inside it |
| ManifestLog.LoadEditLog | src/manifest.cpp:253-344 | a file that is broken before its end is refused; what is read gives the edit of its records and the length to cut to; on a byte prefix these are the records wholly inside; fails exactly when there is none or a named file is missing |
| ManifestLog.ManifestFile.Save | src/manifest.cpp:70-96 | appends the difference; on failure the edits stay and any part of the record may be in the file; replay of successful saves stays the saved edit, but a save behind such a part succeeds and loading then stops at the part, refuses, or takes the new bytes for its rest |
| ManifestLog.ManifestFile.SetSSTables | src/manifest.cpp:436-442 | the given files, sorted |
| ManifestLog.ManifestFile.SetCurrentEdit | src/manifest.cpp:444-451 | the given edit, sorted |
| HnswSearch.VisitMarks.Begin | src/hnsw_graph.cc:157-165 | a fresh, empty visited set on every call, also when the generation counter wraps |
| HnswSearch.SearchLayer | src/hnsw_graph.cc:140-227 | distinct visible nodes in order of distance and id; all reachable visible ones if there is room, otherwise every visible entry point and neighbour of a result is a result or no better than the worst |
| HnswSearch.ExactWhenRoomy | src/hnsw_graph.cc:140-227 | with room for all reachable visible nodes the results are exactly those |
| HnswGraph.SelectNeighbors | src/hnsw_graph.cc:229-261 | as many as fit, nearest first, each diverse choice nearer to the query than to the earlier ones, the rest filled from the pruned |
| HnswGraph.Prune | src/hnsw_graph.cc:267-282 | cut to the limit, distinct, from the given list; unchanged when it fits |
| HnswGraph.Connect | src/hnsw_graph.cc:284-294 | reverse links keep every list within its limit, without self or duplicate edges and at its level |
| HnswGraph.Graph.AddNode | src/hnsw_graph.cc:296-367 | keeps the graph invariant for any level and never takes its corruption returns |
| HnswGraph.Graph.Search | src/hnsw_graph.cc:369-397 | never reports corruption; the first k of a layer-0 search with its guarantees |
| HnswIndex.Index.IsVisibleAt | src/hnsw_index.cc:95-111 | a node is visible exactly when it is the latest, undeleted version of its key at the sequence |
| HnswIndex.LatestEmplaced | src/hnsw_index.cc:154-208 | a new version is what readers see from its sequence up to the next version's, and nothing else changes |
| HnswIndex.Index.InsertVersion | src/hnsw_index.cc:154-186 | adds one node and one version, or refuses a taken sequence or key; repeating a version is accepted exactly if vector and metadata are the same; whenever none is added nothing changes |
| HnswIndex.Index.MarkDeleted | src/hnsw_index.cc:188-208 | adds a tombstone version; a taken sequence is accepted exactly if it is a tombstone, and then nothing changes |
| HnswIndex.Index.SearchAt | src/hnsw_index.cc:730-762 | only records visible at the sequence, each key once, with metadata and distance, nearest first; as many as the layer-0 search found up to k, and exactly its first ones |
| HnswIndex.NearestReached | src/hnsw_index.cc:730-762 | with room for every reachable visible node the results are its nearest: a missing one is no nearer than any result |
| IndexFile.Load | src/hnsw_index.cc:337-582 | gives back a saved index; and whatever bytes it accepts, the graph invariant holds and the version table matches the nodes |
| IndexFile.CheckAll | src/hnsw_index.cc:527-572 | the checks before publishing are exactly the graph invariant and the agreement of nodes and versions |
| IndexFile.Save | src/hnsw_index.cc:210-304 | fails only for strings or lists that do not fit their size field; otherwise writes the file of the index |
| IndexFile.SavedIsStored | src/hnsw_index.cc:210-582 | what is saved of any index built by insert and delete is what loading gives back |
| IndexFile.Reload | src/hnsw_index.cc:210-582 | saving and then loading any index made by inserts and deletes restores the same graph, entry point and version table, so every search at every sequence agrees |
| IndexBytes.ReadVector | src/hnsw_index.cc:429-448 | the coordinates, refusing non-finite ones and, for cosine, the zero vector |
| IndexBytes.ReadLayers | src/hnsw_index.cc:459-479 | the neighbour lists, refusing too many layers, too long lists and ids out of range |
| VectorDb.ViewInserted | src/hnsw_index.cc:154-186 | inserting a version newer than all of its key changes what is visible at exactly that key |
| VectorDb.ViewDeleted | src/hnsw_index.cc:188-208 | a newer tombstone hides exactly its key |
| VectorDb.VectorDB.BuildIndex | src/vector_db.cc:124-144 | an index that shows exactly the vectors of the view, or a failure exactly when injected or a stored vector is invalid |
| VectorDb.VectorDB.Rebuild | src/vector_db.cc:146-166 | Ready with agreement, or Dirty |
| VectorDb.VectorDB.RebuildIndex | src/vector_db.cc:168-173 | restores agreement of an open database whose stored vectors are valid |
| VectorDb.VectorDB.Open | src/vector_db.cc:87-107 | succeeds exactly when the store opens, no failure is injected and all stored vectors are valid; then Ready with agreement, with a batch whose failed append survived counted in; still closed otherwise |
| VectorDb.VectorDB.UpdateIndex | src/vector_db.cc:200-216 | the index follows one committed operation |
| VectorDb.VectorDB.Write | src/vector_db.cc:179-229 | keeps "Ready means agreement"; a refused batch changes nothing, an unknown outcome or a failed index update leads to Dirty, Dirty stays Dirty; refused exactly when closed or when a key, a size or a vector is not legal |
| VectorDb.VectorDB.Search | src/vector_db.cc:288-314 | answers exactly when Ready and the query is legal; only vectors of the current map, and exactly the first of what the layer-0 search found |
| VectorDb.VectorDB.SearchSnapshot | src/vector_db.cc:306-313 | answers exactly when Ready and the view builds, from an index that shows exactly the snapshot's vectors |
| VectorDb.BruteForce | src/vector_db.cc:316-352 | exactly the n nearest vectors of the view in order, whatever the state of the index |
| Block.CommonPrefix | src/sstable.cpp:99-103 | the longest common prefix of two keys: no longer one is shared |
| Block.BuildRecords | src/sstable.cpp:85-114 | the records of the entries and, for every 16th of them, where it starts |
| CompactionMerge.MinMaxKeys | src/db.cc:894-902 | keys of the output that bound all of them |
| Db.DB.ValidateKeys | src/db.cc:486-498 | accepts exactly the batches whose keys are all legal |
| Db.DB.CaptureFlush | src/db.cc:1200-1224 | exactly one flush-capture step; used-up file numbers become a background error |
| FileNames.ParseDigits | src/format.cc:26-37 | the decimal value, refused exactly for a non-digit or more than 64 bits |
| HnswGraph.Graph.Descend | src/hnsw_graph.cc:323-331 | from the entry point down there is always a node to enter the next level by |
| HnswGraph.Graph.Choose | src/hnsw_graph.cc:323-351 | for every shared level, links to nodes of that level, within the limit and distinct |
| HnswIndex.UpperBound | src/hnsw_index.cc:104-109 | how many versions of a key are at or below the sequence |
| HnswSearch.Expand | src/hnsw_graph.cc:197-216 | visiting the neighbours of a candidate loses no visible node that could be a result |
| HnswSearch.Seed | src/hnsw_graph.cc:173-187 | every entry point of the level is visited, and is a candidate or beaten |
| HnswSearch.BetterOrder | src/hnsw_graph.cc:16-21 | the order by distance and id is a strict total order |
| IndexFile.ReadNodes | src/hnsw_index.cc:403-481 | reads back the node records that were written; any it accepts are well formed |
| IndexFile.ReadRows | src/hnsw_index.cc:483-513 | reads back the version table; any it accepts has no version twice |
| IndexFile.CheckNode | src/hnsw_index.cc:528-554 | exactly: the node is listed under its sequence, and its links are distinct, not to itself and at their level |
| IndexFile.CheckVersions | src/hnsw_index.cc:561-572 | exactly: every live version names a node of its key and sequence |
| IndexFile.SequencesOf | src/hnsw_index.cc:224-232 | the sequence of every node that a live version names |
| IndexFile.WriteNodes | src/hnsw_index.cc:237-271 | the records of all nodes, or a failure exactly when a size does not fit its field |
| Manifest.DeleteLines | src/manifest.cpp:48-54 | a line for exactly the files that are gone |
| Manifest.AddLines | src/manifest.cpp:55-66 | a line with the new metadata and the name of its number for exactly the files that are new |
| ManifestLog.ReadWholeFrame | src/manifest.cpp:264-315 | a whole frame reads back, whatever follows it |
| ManifestLog.ReadTornFrame | src/manifest.cpp:264-315 | a proper prefix of a frame is a torn tail, never a corruption |
| ManifestLog.ReadPending | src/manifest.cpp:263-323 | any beginning of a record cut short with parts of further ones behind it, which neither end its header line nor reach its size, is a torn end |
| ManifestLog.ReadBehindCut | src/manifest.cpp:263-323 | how loading goes on when whole records follow one that was cut after any number of bytes: it never reads them as themselves |
| ManifestLog.MixedHeader | src/manifest.cpp:280-291 | the start of a header line with another header line after it never parses as a header |
| Merge.Children.PopPast | src/db.cc:210-222 | popping a child loses nothing: what it held is what it still holds and what was taken |
| MergingIterator.MemCursor.Next | src/db.cc:88-92 | drops the first of what is left |
| Recovery.LiveNumbers | src/db.cc:1061-1082 | the log files at or above the manifest's log number, in ascending order |
| Recovery.MaxNumber | src/db.cc:1056-1077 | the greatest number seen |
| Recovery.ReplayFile | src/db.cc:1097-1135 | extends what was replayed by one file; an overlapping or misplaced record is refused |
| Scheduler.ReplaceInputs | src/db.cc:878-904 | the live files with the inputs gone and the output added |
| SkipList.List.Walk | src/skiplist.cc:41-54 | the last node of the level before the key |
| SkipList.List.Overwrite | src/skiplist.cc:71-76 | the same key and sequence again changes that version in place |
| SSTable.FilterMiss | src/sstable.cpp:562-565 | when the filter says no, no entry has the key |
| TableIterator.Cursor.Ensure | src/sstable.cpp:359-377 | loads the next block that has entries without changing what is left |
| TableIterator.Cursor.Advance | src/sstable.cpp:379-390 | drops one entry, across block ends |
| VectorDb.VectorDB.FollowBatch | src/vector_db.cc:199-216 | without a failure the index shows the map after the whole batch |
| VectorDb.VectorDB.ValidateBatch | src/vector_db.cc:62-85 | accepts exactly the batches whose keys are non-empty without tab, newline or NUL, whose sizes can be encoded and whose vectors are valid |
| VectorDb.Consider | src/vector_db.cc:332-346 | keeps the n nearest of everything seen so far |
| EngineTheorems.InitInv | src/db.cc:1053-1139 | a new database satisfies the invariant |
| EngineTheorems.RunGrows | src/db.cc:466-531 | along a run the list of committed batches only grows |
| EngineLifecycle.CrashInv | src/db.cc:1053-1139 | a crash at any moment, with any unsynced records and any part of a torn one surviving, keeps the invariant; so does a second crash right after a reopen |
| Drain.RunInv | src/db.cc:1189-1223 | the invariant of the drain protocol holds after every interleaving |

## Left out

- Real files, directories, fsync, descriptors, locks on the directory and thread primitives: durable bytes and lock-level steps stand for them.
- EngineRecover.OpenInv: a log record that was never synced and is read on reopen is taken as durable from then on; losing it in a power loss right after is not modelled.
- The directory scan that rebuilds a missing manifest, the CURRENT file and Options validation.
- Bloom.Build: the hash is a parameter, so nothing is said about false positives.
- CRC strength: a damaged record or block that keeps its checksum is not excluded.
- SSTable.BuildOpenGet: block payloads are below 4 GiB, as their 32-bit restart offsets need; larger blocks are not covered.
- ManifestLog.LoadEditLog: the text of a line, its file name aside, is a parameter with a parser that reads it back, and the header line is read only in the form it is written in (single spaces, no signs).
- Db.DB.GetAt: the lookup in one memtable or table is by contract (the newest version); `EngineGet.GetAt` is the same lookup over the nodes and the file bytes. That the skip lists and files of an open database hold its memtables and tables is a hypothesis there.
- SkipList.List.Insert: Clear and the size-only accessors are left out; the random level is a parameter.
- HnswGraph.Graph.Search: recall, connectivity and symmetry of edges are not claimed; pruning drops edges.
- Floating-point rounding and the SIMD distance kernels; whether a pattern is finite or zero is a parameter of `IndexBytes.ReadVector`.
- HnswIndex.Index.SearchAt: batch search is the loop over single searches and is left out; so are MergeFrom and ReplaceWith.
- IndexFile.Reload: 64-bit sequences, and a file and counts below 2^64, are assumed.
- VectorDb.VectorDB.Write: the store under it is its key-value map with a commit that succeeds, fails, or fails having applied the batch; sequence overflow after 2^64 index updates is not modelled.
- Drain.StepInv: one life of the worker; Open starting a new worker is not modelled.
- Scheduler.Worker.MaybeCompact: the worker is the only thread that adds level-0 tables, so none appear between its compactions.
- Statistics, event log, testing hooks other than failures, benchmarks and command-line tools.
