# Verified model of the vendored storage and event code

Dafny models, with machine-checked proofs, of the C and C++ libraries under `ios/Pods`.
`dafny verify dfyconfig.toml` checks everything.

**LevelDB's storage engine.** A table is the sorted sequence of its entries; a version is
seven levels of tables; the store (`Database.Db`) has memtables, log files, a manifest
state, snapshots and pinned versions. Each public or background operation is a step of a
state machine (`Steps`, `Recovery`) and, where the code works in place, a method of a class
that is proved to make exactly that step (`DbImpl`, `CompactionWork`, `Builder`, `Inputs`,
`PickInputs`). The specification is a map with snapshots that is told nothing but the
actions (`Runs.Spec`): after any run, every key a client can read, now or at a snapshot it
holds, reads from the stored entries as that map says. A crash may tear the newest log
anywhere and leave stray files; recovery loses at most the batches torn, and whole batches
only (`Recovery`, `LogReplay`). The manifest is followed down to its bytes (`Manifest`,
`ManifestFile`), and a scan of the whole store up to the pairs a client gets (`Scan`).

**Cursors.** `DbIter`, `Merger`, `TwoLevel` and `BlockIter` are the iterator classes with
their direction switches, each held to a single cursor over one sorted sequence. The three
over entries share `Cursor.RunIterator` for the iterators they are given.

**Byte formats.** Logs (`LogFormat`, `LogWriter`, `LogReader`), prefix-compressed blocks
(`BlockFormat`, `BlockBuilder`, `BlockIter`), version edits (`VersionEdit`), write batches
(`WriteBatch`) and nanopb messages (`Pb*`): a writer and a stateful reader, proved to undo
each other, and the reader on arbitrary bytes against a function of the bytes left. What the
nanopb decoder makes of unknown fields and of fields in any order is `PbUnknown` and
`PbAnyOrder`. `Samples` holds a few bytes of each format, written out.

**libuv.** The pointer-linked binary heap and the timers on it (`Heap`, `Timer`), the
threadpool as interleaved steps under its locks (`Threadpool`), and the Punycode encoder
(`Idna`) against the decoder of section 6.2 of RFC 3492 (`Punycode`).

**How things are modelled.** A user key stands for its place in the comparator's order, a
real number: every total order on byte strings embeds there. In the byte formats keys are
bytes, with a function `rank` to their places. Sequence numbers, sizes and offsets are
natural numbers, cut to 32 or 64 bits where the code cuts them. Checksums are an arbitrary
function; random heights are parameters; files are byte sequences. Where the code's
comments and the code disagree, the model follows the code.

## Model

| member | source | states |
|---|---|---|
| `Tables.RunGetIsTop` | ios/Pods/leveldb-library/db/memtable.cc:100-134 | The first entry at or above the lookup key, if it is of the key, is the newest entry a snapshot may see; none otherwise |
| `Format.ReplayReads` | ios/Pods/leveldb-library/include/leveldb/db.h:98-106 | For every history and snapshot, the newest visible entry of a key is its value in the map after the operations numbered at most the snapshot |
| `Lookup.FindFile` | ios/Pods/leveldb-library/db/version_set.cc:88-106 | The first file whose largest key is at or above the key: no candidate is lost |
| `Lookup.SomeFileOverlapsRange` | ios/Pods/leveldb-library/db/version_set.cc:122-157 | Exactly whether a file overlaps the range, for disjoint sorted levels and for level 0 |
| `Lookup.VersionGet` | ios/Pods/leveldb-library/db/version_set.cc:326-421 | Stopping at the first hit, newest level-0 file first, then level by level, answers as the newest visible entry anywhere in the version |
| `Database.Get` | ios/Pods/leveldb-library/db/db_impl.cc:1100-1145 | Memtable, immutable memtable, tables, in that order: the value in the map of all batches up to the sequence read at |
| `DropRule.DropKeepsReads` | ios/Pods/leveldb-library/db/db_impl.cc:906-999 | Dropping shadowed entries and obsolete deletion markers keeps every read at or above the smallest snapshot if and only if the dropped markers uncover nothing in what is left out |
| `Compactions.CompactionKeepsReads` | ios/Pods/leveldb-library/db/db_impl.cc:878-1013 | For every version and choice of inputs: a compaction keeps every read at or above the smallest snapshot if and only if no dropped marker covers a value in a level+1 file left out |
| `Compactions.ClosedBelowIsSafe` | ios/Pods/leveldb-library/db/version_set.cc:1378-1401 | The boundary check, were it made for level+1 as it is for level, rules that out |
| `Resurrection.DeletedValueReturns` | ios/Pods/leveldb-library/db/version_set.cc:1403-1411 | A version and a choice of inputs the code can make after which a deleted key shows its old value again |
| `ResurrectionRun.DeletedValueReturnsInARun` | ios/Pods/leveldb-library/db/db_impl.cc:688-767 | Ordinary steps lead from the initial state to that version; after the next compaction the stored entries show a client a value the specification says is deleted |
| `ResurrectionRun.ChoosesThem` | ios/Pods/leveldb-library/db/version_set.cc:1270-1322 | Started from the upper file, the code chooses just those inputs |
| `CompactionWork.Compaction.IsBaseLevelForKey` | ios/Pods/leveldb-library/db/version_set.cc:1533-1552 | Asked in key order, the cached cursors say exactly whether the key lies outside the range of every file from level+2 down |
| `CompactionWork.Compaction.ShouldStopBefore` | ios/Pods/leveldb-library/db/version_set.cc:1554-1576 | An output ends before a key exactly when the grandparent files passed since the last end add up to more than ten file sizes |
| `CompactionWork.Compaction.DoCompactionWork` | ios/Pods/leveldb-library/db/db_impl.cc:878-1013 | The outputs hold, in order, exactly the input entries that no newer one of their key hides from the smallest snapshot, but for the deletion markers that snapshot sees of keys outside every file from level+2 down; valid files with consecutive numbers, each as soon as it is big enough, over few grandparents, and none earlier without grandparents |
| `DropRule.SurvivorsExactly` | ios/Pods/leveldb-library/db/db_impl.cc:944-964 | What must be dropped and what may not be: an entry is kept exactly when no newer one of its key is visible at the smallest snapshot, and it is no deletion marker visible there of a base-level key |
| `Tree.OutputsExactly` | ios/Pods/leveldb-library/db/db_impl.cc:928-999 | The same of the files an installed compaction adds, with the ranges of the deeper files written out |
| `Tree.CompactionKeepsTree` | ios/Pods/leveldb-library/db/db_impl.cc:860-876 | Installing a compaction keeps levels sorted and disjoint and newer entries above older ones, and stores exactly what the drop rule keeps |
| `Tree.TrivialMoveKeepsTree` | ios/Pods/leveldb-library/db/db_impl.cc:718-729 | Moving a file down keeps the tree and everything it stores |
| `Tree.FlushKeepsTree` | ios/Pods/leveldb-library/db/version_set.cc:491-516 | A flushed table may go to any level no shallower file overlaps: the tree is kept |
| `Inputs.GetOverlappingInputs` | ios/Pods/leveldb-library/db/version_set.cc:519-559 | The restarting scan ends; at level 0 it returns every file overlapping the smallest range that is closed under overlap and covers the request |
| `Inputs.AddBoundaryInputs` | ios/Pods/leveldb-library/db/version_set.cc:1378-1401 | It ends, adds a chain of boundary files, and leaves no file that continues the largest user key |
| `PickInputs.SetupOtherInputs` | ios/Pods/leveldb-library/db/version_set.cc:1403-1462 | Boundary files, level+1 inputs and expansion: the inputs are closed at level and complete at level+1; the inputs grow exactly when that adds files at level, none at level+1, and stays below 25 file sizes; the grandparents are the level+2 files overlapping all inputs, in order; the compaction pointer is the largest key of the inputs at level |
| `PickInputs.Finalize` | ios/Pods/leveldb-library/db/version_set.cc:1050-1086 | The first level with the highest score |
| `PickInputs.PickCompaction` | ios/Pods/leveldb-library/db/version_set.cc:1270-1322 | None exactly when level 0 has fewer than 4 files, level l below 6 fewer than 10^l MB, and no file had too many seeks; else it starts from the level with the highest score, there from the first file past the compaction pointer, or from the file with too many seeks, and its inputs hold that file and are as above |
| `PickInputs.PointerMovesOn` | ios/Pods/leveldb-library/db/version_set.cc:1284-1298 | The next compaction pointer is past the last one, unless no file of the level is; then the level starts over at its first file |
| `PickInputs.CompactRange` | ios/Pods/leveldb-library/db/version_set.cc:1464-1495 | Nothing exactly when no file of the level is in the requested range; at level 0 every file in the range is an input, below it the first of them, in order, as many as it takes to be big enough, or all; and a choice of inputs as above |
| `PickInputs.PickLevelForMemTableOutput` | ios/Pods/leveldb-library/db/version_set.cc:491-516 | Level 0 if a file there overlaps the range; else down, at most to 2, exactly as long as no file of the next level overlaps it and those of the level after that do so with at most ten file sizes |
| `InputIterator.ReadInput` | ios/Pods/leveldb-library/db/version_set.cc:1237-1268 | The merged iterator over the inputs yields their entries, each once, in order |
| `Builder.VersionBuilder.Apply` | ios/Pods/leveldb-library/db/version_set.cc:650-692 | Deletions and additions per level, later additions cancelling earlier deletions of the same number |
| `Builder.SaveLevel` | ios/Pods/leveldb-library/db/version_set.cc:695-752 | Base and added files merged in order of smallest key, without the deleted ones |
| `Builder.RecoverVersion` | ios/Pods/leveldb-library/db/version_set.cc:922-995 | All edits through one builder give the version that installing them one by one gives, if no file number is re-added to a level it once held |
| `Manifests.RunTracks` | ios/Pods/leveldb-library/db/version_set.cc:801-882 | In every reachable state of every run that hypothesis holds of the manifest, and its edits fold to the current version: files only move down, and new ones have new numbers |
| `Manifests.ReadManifest` | ios/Pods/leveldb-library/db/version_set.cc:922-995 | At any moment of any run the edits of the manifest, a snapshot first, give the current version |
| `Manifests.RunTells` | ios/Pods/leveldb-library/db/version_set.cc:801-817 | In every reachable state the last record that names them tells the log number, next file number and last sequence the store was at |
| `ManifestFiles.RecoverFile` | ios/Pods/leveldb-library/db/version_set.cc:886-1000 | From the bytes of the manifest at any moment of any run, read as a log and decoded record by record: the current version and those counters |
| `ManifestFiles.CanSay` | ios/Pods/leveldb-library/db/version_edit.cc:41-85 | Every edit whose numbers and keys fit has such bytes |
| `Steps.CompactionIsSafeExactly` | ios/Pods/leveldb-library/db/db_impl.cc:688-767 | In a store in order, the compaction the code makes leaves it in order if and only if it brings no deleted value back |
| `Steps.FlushKeepsInv` | ios/Pods/leveldb-library/db/db_impl.cc:535-566 | A flush keeps the whole invariant: tree, logs, reads, snapshots, files |
| `Steps.DeleteKeepsInv` | ios/Pods/leveldb-library/db/db_impl.cc:223-278 | Deleting obsolete files loses no table of a version in use and no log still needed |
| `Steps.DeletesExactly` | ios/Pods/leveldb-library/db/db_impl.cc:223-278 | A table stays exactly when the current version or a pinned one has a file of that number, a log exactly when its number is not below the log number |
| `Recovery.RecoverKeepsInv` | ios/Pods/leveldb-library/db/db_impl.cc:280-369 | After a crash that tears the newest log and leaves stray files, recovery brings the store up in order with all committed batches but at most the torn records of the newest log, each batch whole |
| `LogReplay.ReplayLog` | ios/Pods/leveldb-library/db/db_impl.cc:371-488 | Of any bytes the log of some batches begins with, replay takes exactly the batches wholly there, in order, into the memtable |
| `LogReplay.WriteTearReplay` | ios/Pods/leveldb-library/db/db_impl.cc:371-488 | Batches written to the newest log, torn at any byte, replay as the log of that crash step, short of none if nothing was torn |
| `Runs.StepKeepsInv` | ios/Pods/leveldb-library/db/db_impl.cc:535-566 | Every commit, switch, flush, move, compaction, snapshot, pin, deletion and crash keeps the invariant |
| `Runs.RunKeepsInv` | ios/Pods/leveldb-library/db/db_impl.cc:688-767 | It holds in every state of every run |
| `Runs.SeesExactly` | ios/Pods/leveldb-library/db/db_impl.cc:1147-1157 | The stored entries of a store in order show exactly one map now and one at each held snapshot |
| `Runs.SilentStepsAreInvisible` | ios/Pods/leveldb-library/db/db_impl.cc:688-767 | Flushes, moves, compactions and deletions change what is stored and nothing a client can read |
| `Runs.RunRefines` | ios/Pods/leveldb-library/db/db_impl.cc:1185-1258 | After any run, what the stored entries show, now and at every held snapshot, is exactly what a map with snapshots computes from the actions alone |
| `Runs.ReachableState` | ios/Pods/leveldb-library/db/db_impl.cc:349-369 | In every reachable state the tables of all versions in use are on disk, and tables with the logs from LogNumber on hold every committed batch |
| `Runs.PinnedTablesStay` | ios/Pods/leveldb-library/db/db_impl.cc:1147-1157 | In every run, the tables of a version a reader took a reference to stay on disk until it is given up or the process dies |
| `DbImpl.BuildBatchGroup` | ios/Pods/leveldb-library/db/db_impl.cc:1260-1306 | The longest group from the head of the queue that puts no sync write behind a non-sync one and grows, behind a first batch of at most 131072 bytes, by no more than 131072, behind a larger one to no more than 1048576 in all; null batches join without counting |
| `DbImpl.GroupIsSequential` | ios/Pods/leveldb-library/db/db_impl.cc:1260-1306 | Committing a group does what its writers would do one by one, in queue order |
| `DbImpl.DBImpl.CommitGroup` | ios/Pods/leveldb-library/db/db_impl.cc:1185-1258 | One record, one run of sequence numbers, the group leaves the queue; a null batch at the head commits nothing and takes nobody along |
| `DbImpl.DBImpl.SwitchMemTable` | ios/Pods/leveldb-library/db/db_impl.cc:1346-1366 | A new log, and the memtable becomes the immutable one |
| `DbImpl.DBImpl.CompactMemTable` | ios/Pods/leveldb-library/db/db_impl.cc:535-566 | The flush step of the state machine, at the level the picking gives, followed by the deletion of obsolete files: tables and logs that stay are written out |
| `DbImpl.DBImpl.DeleteObsoleteFiles` | ios/Pods/leveldb-library/db/db_impl.cc:223-278 | A table is on disk afterwards exactly when it was and the current version or a pinned one has a file of that number; a log exactly when it was and its number is not below the log number |
| `DbImpl.DBImpl.RunCompaction` | ios/Pods/leveldb-library/db/db_impl.cc:688-767 | A move exactly under the trivial-move test, else the compaction step followed by the deletion, whose remaining tables and logs are written out |
| `DbImpl.DBImpl.AutoCompaction` | ios/Pods/leveldb-library/db/db_impl.cc:688-767 | Without a request: nothing exactly when nothing is due, else the picked compaction, moved exactly when it is a single file over few grandparents, and the compaction pointer of its level moves to the picked key |
| `DbImpl.DBImpl.ManualCompaction` | ios/Pods/leveldb-library/db/db_impl.cc:688-767 | With a request: nothing exactly when no file of the level is in the range, else a compaction of the files in it, as CompactRange chooses them, never a move |
| `DbImpl.InvIsReady` | ios/Pods/leveldb-library/db/db_impl.cc:535-566 | What the methods of the store require holds in every state in order |
| `DbImpl.FlushAndCleanKeepInv` | ios/Pods/leveldb-library/db/db_impl.cc:535-566 | The state the flush method leaves is in order |
| `DbImpl.CompactAndCleanKeepInv` | ios/Pods/leveldb-library/db/db_impl.cc:688-767 | So is the one a compaction leaves that brings no deleted value back |
| `DbImpl.DBImpl.Get` | ios/Pods/leveldb-library/db/db_impl.cc:1100-1145 | At a held snapshot the map of the moment it was taken, else the map of all committed batches |
| `DbIter.LiveIsAnswer` | ios/Pods/leveldb-library/db/db_iter.cc:168-198 | Live entries are what a reader of the sequence finds, one per user key |
| `DbIter.DBIter.Next` | ios/Pods/leveldb-library/db/db_iter.cc:141-198 | From either direction: the first live entry after the current one |
| `DbIter.DBIter.Prev` | ios/Pods/leveldb-library/db/db_iter.cc:200-267 | From either direction: the last live entry before the current one |
| `DbIter.DBIter.Seek` | ios/Pods/leveldb-library/db/db_iter.cc:269-281 | The first live entry at or after the target |
| `DbIter.DBIter.SeekToFirst` | ios/Pods/leveldb-library/db/db_iter.cc:283-292 | The first live entry |
| `DbIter.DBIter.SeekToLast` | ios/Pods/leveldb-library/db/db_iter.cc:294-299 | The last live entry |
| `Scan.ScanShowsImage` | ios/Pods/leveldb-library/db/db_iter.cc:168-198 | In every store in order, the live entries are exactly the map of the snapshot |
| `Scan.ScanStore` | ios/Pods/leveldb-library/db/db_impl.cc:1062-1087 | Memtables and tables through a merging iterator, and the result through a DBIter from SeekToFirst to its end: every pair of the map of the snapshot, once, in key order |
| `Merger.MergingIterator.SeekToFirst` | ios/Pods/leveldb-library/table/merger.cc:31-37 | The least entry of all children |
| `Merger.MergingIterator.SeekToLast` | ios/Pods/leveldb-library/table/merger.cc:39-45 | The greatest entry of all children |
| `Merger.MergingIterator.Seek` | ios/Pods/leveldb-library/table/merger.cc:47-53 | The place where the target belongs in the sorted union |
| `Merger.MergingIterator.Next` | ios/Pods/leveldb-library/table/merger.cc:55-79 | One place on in the sorted union, after any mix of moves |
| `Merger.MergingIterator.Prev` | ios/Pods/leveldb-library/table/merger.cc:81-108 | One place back in the sorted union, after any mix of moves |
| `TwoLevel.TwoLevelIterator.Seek` | ios/Pods/leveldb-library/table/two_level_iterator.cc:82-87 | The place where the target belongs in the concatenation of the blocks |
| `TwoLevel.TwoLevelIterator.Next` | ios/Pods/leveldb-library/table/two_level_iterator.cc:103-126 | One place on in the concatenation, over any number of empty blocks |
| `TwoLevel.TwoLevelIterator.Prev` | ios/Pods/leveldb-library/table/two_level_iterator.cc:109-139 | One place back in the concatenation, over any number of empty blocks |
| `SkipList.SkipList.FindGreaterOrEqual` | ios/Pods/leveldb-library/db/skiplist.h:260-282 | The first key at or above the key, and on every level the last node before it |
| `SkipList.SkipList.FindLessThan` | ios/Pods/leveldb-library/db/skiplist.h:284-302 | The last node before the key |
| `SkipList.SkipList.FindLast` | ios/Pods/leveldb-library/db/skiplist.h:304-322 | The last node |
| `SkipList.SkipList.Link` | ios/Pods/leveldb-library/db/skiplist.h:362-367 | One link store of an insertion leaves every level sorted and a sublist of the one below |
| `SkipList.SkipList.Insert` | ios/Pods/leveldb-library/db/skiplist.h:337-368 | For any height from 1 to 12, the keys grow by exactly the new one |
| `SkipList.SkipList.SearchDuringInsert` | ios/Pods/leveldb-library/db/skiplist.h:260-368 | Under every interleaving of a search with the link stores of an insertion: a search that ends is right for the bottom level of that moment, which holds the new key exactly once the insertion has made a step; each turn of the search passes one key or goes down one level, and it ends within as many as there are levels and keys; one that has not ended stands where it can go on |
| `LogFormat.UnmaskUndoesMask` | ios/Pods/leveldb-library/util/crc32c.h:29-38 | The masked checksum gives the checksum back |
| `Samples.LogRecord` | ios/Pods/leveldb-library/db/log_writer.cc:80-108 | The eight bytes of a record of one byte |
| `Samples.LogCut` | ios/Pods/leveldb-library/db/log_writer.cc:34-78 | Where a record one byte too long for a block is cut, and which block ends are padded |
| `LogWriter.Writer.AddRecord` | ios/Pods/leveldb-library/db/log_writer.cc:34-108 | Any record, cut into fragments that never cross a block, with zeroed block ends, behind the records before it |
| `LogReader.Reader.ReadRecord` | ios/Pods/leveldb-library/db/log_reader.cc:56-174 | On any bytes, a record handed out is one full fragment or a first, middle ones and a last read in a row, each standing in the file with its checksum; on a log cut off anywhere: the next record if all of it is there, else the end, and no report |
| `LogReader.ReadAll` | ios/Pods/leveldb-library/db/log_reader.cc:56-271 | Of a file a writer wrote, cut off anywhere, exactly the records wholly there, none reported |
| `LogReader.WriteAndRead` | ios/Pods/leveldb-library/db/log_reader.cc:56-271 | Any records, written and read back: all of them if nothing was cut, a prefix of them otherwise |
| `BlockBuilding.BlockBuilder.Add` | ios/Pods/leveldb-library/table/block_builder.cc:72-106 | The entry joins the layout, sharing as much of the last key as there is, nothing at a restart point |
| `BlockBuilding.BlockBuilder.Finish` | ios/Pods/leveldb-library/table/block_builder.cc:62-70 | Restart points exactly every interval entries, and the bytes of that layout |
| `BlockFormat.DecodesEntry` | ios/Pods/leveldb-library/table/block.cc:54-74 | An entry decodes to what was added, by the fast path or the slow one |
| `Samples.Block` | ios/Pods/leveldb-library/table/block_builder.cc:62-106 | The bytes of a block of two keys with a shared prefix |
| `BlockIteration.OpensBlock` | ios/Pods/leveldb-library/table/block.cc:24-39 | A finished block opens to its own entries and restart points |
| `BlockIteration.Iter.Next` | ios/Pods/leveldb-library/table/block.cc:137-140 | The next entry of a well-formed block |
| `BlockIteration.Iter.Prev` | ios/Pods/leveldb-library/table/block.cc:142-161 | The entry before, despite prefix compression; past the end from the first |
| `BlockIteration.Iter.Seek` | ios/Pods/leveldb-library/table/block.cc:163-201 | Binary search over restart points, then a scan: the first key at or above the target |
| `BlockIteration.Iter.SeekToFirst` | ios/Pods/leveldb-library/table/block.cc:203-206 | The first entry, or past the end of an empty block |
| `BlockIteration.Iter.SeekToLast` | ios/Pods/leveldb-library/table/block.cc:208-213 | The last entry |
| `BlockIteration.Iter.ParseNextKey` | ios/Pods/leveldb-library/table/block.cc:224-251 | On any bytes: an entry ends within 32 bits before the restart array, or the cursor is invalid; on a well-formed block, exactly the next entry |
| `BlockIteration.AcceptedStaysInside` | ios/Pods/leveldb-library/table/block.cc:70-72 | An entry the bounds check accepts lies within the block if and only if its two lengths add up in 32 bits |
| `BlockIteration.WrappingIsAccepted` | ios/Pods/leveldb-library/table/block.cc:54-74 | Seven bytes that are accepted and reach past the block |
| `Blocks.BuildAndScan` | ios/Pods/leveldb-library/table/block.cc:203-251 | For any pairs and any restart interval of at least 1, iterating the finished block gives them back |
| `Coding.Varint32RoundTrip` | ios/Pods/leveldb-library/util/coding.cc:47-128 | A 32-bit varint reads back as it was put |
| `Slices.Take64Back` | ios/Pods/leveldb-library/util/coding.cc:81-169 | A 64-bit varint reads back as it was put, and leaves what follows |
| `Samples.Varints` | ios/Pods/leveldb-library/util/coding.cc:47-104 | Varints of one to five bytes |
| `VersionEdits.DecodeEncode` | ios/Pods/leveldb-library/db/version_edit.cc:41-205 | Any edit, decoded into any object: DecodeFrom succeeds if and only if every level exists, and then gives the edit back behind the compaction pointers the object had |
| `Samples.EditItems` | ios/Pods/leveldb-library/db/version_edit.cc:41-85 | The bytes of one item of each kind |
| `VersionEdits.LevelSevenIsRefused` | ios/Pods/leveldb-library/db/version_edit.cc:96-105 | An edit that deletes a file of level 7 is written, and refused by any object |
| `VersionEdits.PointerStays` | ios/Pods/leveldb-library/db/version_edit.cc:25-39 | An object that holds a compaction pointer still holds it after decoding an edit that says nothing |
| `VersionEdits.VersionEdit.EncodeTo` | ios/Pods/leveldb-library/db/version_edit.cc:41-85 | The items of the edit in their order on disk |
| `VersionEdits.VersionEdit.DecodeFrom` | ios/Pods/leveldb-library/db/version_edit.cc:107-205 | On any bytes, what reading item by item gives, or corruption |
| `VersionEdits.EncodeAndDecode` | ios/Pods/leveldb-library/db/version_edit.cc:41-205 | A new object gets the same edit, exactly when its levels exist |
| `WriteBatches.CallsBack` | ios/Pods/leveldb-library/db/write_batch.cc:42-80 | Iterate makes exactly the calls that were put, in order; bytes malformed behind them stop it after those calls |
| `Samples.BatchCalls` | ios/Pods/leveldb-library/db/write_batch.cc:98-109 | The bytes of one Put and one Delete |
| `WriteBatches.HandsOver` | ios/Pods/leveldb-library/db/write_batch.cc:42-80 | It hands anything over if and only if the first operation is well formed, whatever is behind it |
| `WriteBatches.HandedBeforeBadTag` | ios/Pods/leveldb-library/db/write_batch.cc:42-80 | An operation with a bad tag behind it: handed over, then the failure |
| `WriteBatches.WriteBatch.Append` | ios/Pods/leveldb-library/db/write_batch.cc:144-148 | The operations of one batch behind those of the other, with the count of both |
| `WriteBatches.WriteBatch.InsertInto` | ios/Pods/leveldb-library/db/write_batch.cc:132-137 | Every call made is inserted with the next sequence number |
| `WriteBatches.ReplayRecord` | ios/Pods/leveldb-library/db/write_batch.cc:98-148 | The bytes of a batch, replayed, insert the entries of the batch |
| `Heaps.Heap.Min` | ios/Pods/Libuv-gRPC/src/heap-inl.h:67-69 | A node no other precedes |
| `Heaps.Heap.Relink` | ios/Pods/Libuv-gRPC/src/heap-inl.h:72-104 | Swapping parent and child changes their links and those of their neighbours, and no others |
| `Heaps.Heap.Insert` | ios/Pods/Libuv-gRPC/src/heap-inl.h:106-148 | Parent and child pointers stay a complete binary tree in heap order, and the node set grows by the node |
| `Heaps.Heap.Remove` | ios/Pods/Libuv-gRPC/src/heap-inl.h:150-237 | The same for the removal of any node |
| `Timer.Loop.Start` | ios/Pods/Libuv-gRPC/src/timer.c:66-94 | Invalid without a callback or when closing; else the timer is in the heap once, with a clamped timeout and the next start id |
| `Timer.Loop.Again` | ios/Pods/Libuv-gRPC/src/timer.c:110-120 | Only a repeating timer that is not closing is armed again |
| `Timer.Loop.NextTimeout` | ios/Pods/Libuv-gRPC/src/timer.c:133-151 | -1 exactly without timers, 0 exactly with one due, else the milliseconds to the next, capped |
| `Timer.Loop.RunTimers` | ios/Pods/Libuv-gRPC/src/timer.c:154-171 | It ends, if the clock is below its maximum or no timer due repeats, and then has fired each timer due on entry exactly once in order of timeout and start id, re-armed exactly the repeating ones, with new start ids in that order, changed no setting of any timer, and left none due |
| `Timer.Loop.RunTurns` | ios/Pods/Libuv-gRPC/src/timer.c:154-171 | Otherwise it does not end: any number of its turns all fire a timer, and one that is due and repeats is left |
| `Timer.FiresForEver` | ios/Pods/Libuv-gRPC/src/timer.c:154-171 | One repeating timer at the maximum of the clock, fired any number of times |
| `Threadpool.ThreadPool.Take` | ios/Pods/Libuv-gRPC/src/threadpool.c:66-118 | A worker takes the step of the state machine, written out field by field: it waits with nothing but the message queued and half of the workers on slow jobs, takes the first job, puts the message back, drops it without slow work, or takes the job that has waited longest |
| `Threadpool.ThreadPool.CancelCheck` | ios/Pods/Libuv-gRPC/src/threadpool.c:269-281 | Cancelling succeeds exactly when no worker has taken the job |
| `Threadpool.ThreadPool.CallDone` | ios/Pods/Libuv-gRPC/src/threadpool.c:295-315 | Each job is done once, cancelled exactly when its work never ran |
| `Threadpool.EveryScheduleIsSafe` | ios/Pods/Libuv-gRPC/src/threadpool.c:57-315 | After every schedule of steps of any number of workers and loops: twice the workers on slow jobs are at most nthreads+1, no two on one job; pending slow work has its message queued, at most once; work runs at most once and done is called at most once, cancelled exactly when the work never ran |
| `Threadpool.TakesSlow` | ios/Pods/Libuv-gRPC/src/threadpool.c:66-118 | Below that cap an idle worker at the message takes the slow job that has waited longest |
| `Threadpool.ScheduleGrows` | ios/Pods/Libuv-gRPC/src/threadpool.c:57-315 | Along every schedule no job disappears and no run and no call of done is taken back |
| `Threadpool.RestIsDone` | ios/Pods/Libuv-gRPC/src/threadpool.c:57-315 | Nothing is lost: when nobody can go on, done has been called once for every job submitted |
| `Threadpool.Interleave` | ios/Pods/Libuv-gRPC/src/threadpool.c:57-315 | The pool itself, driven by any schedule, is in the state the state machine gives for it |
| `Punycode.DeltasDecode` | ios/Pods/Libuv-gRPC/src/idna.c:159-243 | The decoder of section 6.2 of RFC 3492 reads written deltas back, digit by digit |
| `Samples.Biases` | ios/Pods/Libuv-gRPC/src/idna.c:218-236 | Three biases of the trace in section 7.2 of RFC 3492 |
| `Samples.Decoded` | ios/Pods/Libuv-gRPC/src/idna.c:159-243 | A label with one letter beyond ASCII, from its encoding |
| `Idna.ToAsciiLabel` | ios/Pods/Libuv-gRPC/src/idna.c:102-248 | ASCII labels are copied; any other is refused exactly when one of the deltas of RFC 3492 takes more than 32 bits, or else the decoder recovers it from the output behind the prefix; labels of moderate length are never refused |
| `PbCommon.FieldIter.Find` | ios/Pods/nanopb/pb_common.c:87-104 | From anywhere, wrapping around: a field of the tag if and only if there is one, with the count of required fields before it |
| `PbEncode.EncodeVarint` | ios/Pods/nanopb/pb_encode.c:608-628 | The base-128 bytes of the value |
| `Samples.NegativeField` | ios/Pods/nanopb/pb_encode.c:776-798 | Minus one as a plain varint: the ten bytes of its 64-bit cast |
| `Samples.PackedField` | ios/Pods/nanopb/pb_encode.c:147-201 | The bytes of a packed array of two integers |
| `PbEncode.EncodeArray` | ios/Pods/nanopb/pb_encode.c:147-236 | Packed arrays behind the size a first pass finds, others item by item |
| `PbEncode.EncodeSubmessage` | ios/Pods/nanopb/pb_encode.c:717-765 | The sizing pass predicts exactly what the writing pass writes, for every nested descriptor |
| `PbEncode.EncodeMessage` | ios/Pods/nanopb/pb_encode.c:528-550 | On a counting or writing stream: succeeds exactly when there is an encoding and room for it, and then has counted or written exactly that |
| `PbEncode.GetEncodedSize` | ios/Pods/nanopb/pb_encode.c:567-576 | The size of what pb_encode would write |
| `PbDecode.DecodeVarint32` | ios/Pods/nanopb/pb_decode.c:187-252 | On any bytes: the value, or an error for one that does not fit 32 bits |
| `PbDecode.CheckRequired` | ios/Pods/nanopb/pb_decode.c:1039-1079 | Exactly whether every tracked required field was seen |
| `PbDecode.DecodeMessage` | ios/Pods/nanopb/pb_decode.c:934-1082 | On any bytes: what reading field by field gives, unknown fields passed over, or an error |
| `PbUnknown.UnknownIsSkipped` | ios/Pods/nanopb/pb_decode.c:321-331 | A field of a number the message has not, of any wire type there is, is passed over, whatever is in front of it and behind it |
| `PbUnknown.OtherWireIsRefused` | ios/Pods/nanopb/pb_decode.c:321-331 | One of any other wire type is an error |
| `PbUnknown.MixedBack` | ios/Pods/nanopb/pb_decode.c:934-1082 | Unknown fields in any number between the fields of an encoding leave what it decodes to as it is |
| `PbUnknown.FieldIsStored` | ios/Pods/nanopb/pb_decode.c:406-484 | In any state of the struct a field that comes is stored: the last of a single field counts, an array grows until it is full, a oneof forgets its other fields; one too many, or a text without room for its NUL, is an error |
| `PbAnyOrder.AnyOrder` | ios/Pods/nanopb/pb_decode.c:934-1082 | Any fields in any order, repeated and with unknown ones among them, decode to what storing them one after the other gives, exactly when each is accepted and each of the first 64 required fields occurs |
| `PbMessages.DefaultsOk` | ios/Pods/nanopb/pb_decode.c:844-928 | A struct set to its defaults holds values of its fields types, at every level |
| `PbRoundTripProof.MessageBack` | ios/Pods/nanopb/pb_decode.c:934-1096 | For every nested descriptor and struct: decoding the encoding into defaults succeeds if and only if every encoded string leaves room for its NUL, and gives the struct back, fields not encoded at their defaults |
| `PbCodec.EncodeAndDecode` | ios/Pods/nanopb/pb_encode.c:528-550 | The same for the encoder and decoder themselves, through a buffer |
| `PbCodec.FullStringIsRefused` | ios/Pods/nanopb/pb_encode.c:873-898 | Any text as long as its buffer, in a message of one required string: encoded, and its encoding refused |
| `PbCodec.SameMessage` | ios/Pods/nanopb/pb_encode.c:339-426 | When fields without presence default to zero, as the code takes for granted, what came back encodes to the same bytes |

## Findings

Properties that turn out false of the code, each with an input and its exact condition.

- A compaction can bring a deleted value back. `SetupOtherInputs` completes the boundary of
  `level` but not of level+1, so a level+1 file left out may hold an older value of a key
  whose deletion marker is dropped. Input: `Resurrection.DeletedValueReturns`, reached from
  the initial state by `ResurrectionRun.DeletedValueReturnsInARun`, with the inputs the code
  chooses by `ResurrectionRun.ChoosesThem`. Condition: `Compactions.NoResurrection`, by
  `Compactions.CompactionKeepsReads` for reads and `Steps.CompactionIsSafeExactly` for the
  whole invariant. Runs admit exactly the compactions that meet it; `Compactions.ClosedBelow`
  is enough, by `Steps.ClosedBelowCanCompact`.
- A block entry can be accepted though it reaches past the block: the bounds check compares
  a sum of two lengths that wraps at 32 bits. Input: `BlockIteration.WrappingIsAccepted`.
  Condition: the sum fits 32 bits, by `BlockIteration.AcceptedStaysInside`. The cursor reads
  such a key from whatever memory lies behind the block (`Iter.beyond`); its offset, also
  wrapped, stays in range.
- A nanopb string that fills its buffer without a NUL encodes, and then does not decode.
  Input: `PbCodec.FullStringIsRefused`. Condition: `PbRoundTrip.FieldsTerminated`, by
  `PbRoundTripProof.MessageBack`.
- `uv__run_timers` need not end. Input: `Timer.FiresForEver`. Condition: `Timer.Ends`, the
  clock below its 64-bit maximum or no due timer repeating: with it the loop ends, by
  `Timer.Loop.RunTimers`; without it no turn is the last, by `Timer.Loop.RunTurns`.
- `VersionEdit::DecodeFrom` does not undo `EncodeTo`. It refuses an edit that names a level
  of 7 or more, which `EncodeTo` writes; input: `VersionEdits.LevelSevenIsRefused`. And it
  keeps the compaction pointers the object already had, since `Clear` does not drop them;
  input: `VersionEdits.PointerStays`. Condition for both: `VersionEdits.DecodeEncode`.
- `WriteBatch::Iterate` on malformed bytes may already have handed over operations when it
  fails. Input: `WriteBatches.HandedBeforeBadTag`. Condition: the first operation is well
  formed, by `WriteBatches.HandsOver`; which operations, by `WriteBatches.CallsBack`.

## Left out

- Flush inside a compaction: flushes and compactions are steps that do not overlap, while the code may flush the immutable memtable in the middle of a compaction (db_impl.cc:908-918).
- Concurrent readers of the store: each public operation is one step; what a reader keeps alive while a version is replaced is modelled by pinned versions.
- Weak memory: the acquire and release stores of the skip list are atomic steps, and a search runs beside one insertion at a time.
- Memtables: the engine's memtable is the sorted sequence of its entries; the skip list is modelled on its own.
- DbImpl.DBImpl.SwitchMemTable: the waits and delays of MakeRoomForWrite are left out; that it switches the memtable is a step that may happen whenever there is no immutable one.
- DbImpl.DBImpl.CommitGroup: syncing and the background-error state are left out.
- DbImpl.DBImpl.DeleteObsoleteFiles: manifests, temporary files and pending outputs are left out.
- Threads, locks and scheduling of the store's background work; errors of the file system; statistics. Which file had too many seeks is a parameter.
- PickInputs.Finalize: scores are exact quotients, not doubles.
- Builder.VersionBuilder.Apply: compaction pointers and allowed seeks are left out.
- Builder.RecoverVersion: the counters a manifest tells are `Manifests.RunTells` and `ManifestFiles.RecoverFile`.
- Manifests.ReadManifest: compaction pointers in the manifest are left out.
- Recovery.RecoverKeepsInv: the tail of the newest log is lost by whole records; that a tail torn at any byte replays so is `LogReplay.WriteTearReplay`. Log reuse, manifest reuse and the salvage of repair.cc are left out.
- Scan.ScanStore: the merging iterator is read to its end before the DBIter goes over the result, as the two classes share no type of iterator here.
- DBIter and compactions: keys that do not parse as internal keys are left out.
- LogReader.ReadAll: initial offsets and the reports of resynchronising are left out.
- BlockIteration.Iter.ParseNextKey: blocks are smaller than 4 GB; that reading memory behind a block may fault is not modelled.
- Blocks.NewIterator: bad contents and a block without restart points both give no cursor, where the code tells them apart.
- CompactionWork.Compaction.DoCompactionWork: the size of a table built from some entries is an arbitrary function, and building tables, filters and caches is left out (table.cc and table_builder.cc are not modelled).
- Punycode.DeltasDecode: the decoder works on unbounded integers; the overflow tests are the encoder's.
- Idna.ToAsciiLabel: a label is a sequence of code points; decoding UTF-8 is left out.
- Heaps.Heap.Remove: the code's last test, whether the child has become the root, is covered by the step before it.
- Threadpool.Interleave: starting and stopping threads, forks and wake-ups are left out, and the queues are sequences; a loop's own thread cancels only requests still active.
- Timer.Loop.RunTimers: callbacks touch no timers.
- VersionEdits.DecodeEncode: lengths written in 32 bits fit them.
- WriteBatches.ReplayRecord: keys, values and counts fit 32 bits.
- PbRoundTripProof.MessageBack: pointer, callback and extension fields, fixed-count arrays and varints longer than ten bytes are left out; field numbers have at most 29 bits and are distinct; a message is shorter than 4 GB.
- PbEncode.EncodeMessage: extension, callback and pointer fields are left out.
- PbDecode.DecodeMessage: extensions, callbacks and fixed-count arrays are left out; a stream is the bytes left, and a failed decode promises nothing about the struct; field number 0 in a message without fields is skipped here.
- PbCommon.FieldIter.Find: the cursor's data pointers are left out, as a struct is the sequence of its fields.
- The app's own Swift and JavaScript, UI pods, BoringSSL, gRPC and libuv's sockets and files.
