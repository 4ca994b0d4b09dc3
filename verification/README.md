# Models of LevelDB, libuv and nanopb, verified in Dafny

The application keeps its data through the vendored LevelDB, runs its network stack on the vendored
libuv, and stores and sends messages written by the vendored nanopb.  This project models the parts of
these that are hardest to get right, and proves what they are meant to keep.  `dafny verify
dfyconfig.toml` checks all of it.

**What LevelDB stores.**  An entry is a user key, a sequence number, a type and a value.  What a set of
entries means is one function, `DbFormat.Read`: the newest entry of a key at or below a snapshot, a
deletion meaning absent.  A table, a memtable or a sorted level is a run of entries in internal-key
order.  Everything else is proved against `Read`:

* `Tree` searches a version level by level and by binary search.  `Inputs` and `Selection` choose the
  files of a compaction.  `Compaction` drops entries, `OutputCuts` says where its outputs end, and `Builder`
  builds versions from edits.
* `TreeSteps`, `Boundary`, `Database` and `Background` put these together into a state machine of writes,
  snapshots, flushes, moves and compactions.  Its invariant holds in every run, and `Database.Get` answers
  from the whole history of writes.
* `DbIter` is the iterator that users see, with its two directions, as a cursor over the live keys;
  `StoreIter` runs it over the memtables and the tree of a store.
* `LogFormat`, `LogWriter`, `LogReader` and `Log` are the record log down to its bytes; `Coding`,
  `WriteBatch`, `MemTable` and `Recovery` are what is logged, and how it comes back after a crash that
  cut the file anywhere.  `OnDisk` says byte by byte what is written.
* `Manifest` replays the edits of a whole run through one builder.  `Durable` says what of a run is in
  tables and what in the logs of its memtables, and `Reopen` opens the store again after a crash at any time:
  from manifest and logs, in a state that it was in.
* `GroupCommit` is the queue of writers, one of whom logs for a whole group, in every interleaving.
* `SkipList` is the structure under the memtable, store by store, beside concurrent readers.

**What libuv schedules.**  `ThreadPool` is the pool with its sentinel for slow I/O and its cancellation, in
every interleaving of threads and loops; `PoolOrder` is the order in which it takes requests and calls
back.  `Heap` is the binary heap of linked nodes, `Timers` the timers on it.  `Punycode` is the label encoder of
`idna.c`, against the decoder of RFC 3492.

**What nanopb writes.**  `PbFormat` has descriptors, the messages that fit them and their bytes: required,
optional, proto3, packed and unpacked repeated fields, unions, and messages in messages.  `PbWire` says what
these bytes are, number by number and on known messages, and what takes none (`Division` is the arithmetic for
it).  `PbEncode` writes them in two passes, `PbDecode` has the input stream, `PbParts` and `PbMessage` read
messages back, with their fields in any order and others woven in that the reader does not know, and
`PbRoundTrip` puts both ends together.

**Where the code falls short of its promise.**  `SetupOtherInputs` looks for boundary files on the
level that is compacted but not on the next one.  `Boundary.TreeKeepsReadsIff` says for all trees and inputs
exactly when a compaction then changes what is read: if the first boundary file left behind in the next
level begins with a value, under a deletion that readers see and that is dropped (`Boundary.Uncovers`).
`Database.CompactKeepsInvIff` says the same of the whole store, and every result about runs covers all
compactions but these.  `MissedBoundary` is a run of the store, from empty, after which a compaction that
`PickCompaction` picks brings a deleted key back.

**Where the code and its comments differ.**  The comment on `DBIter` says that, moving backwards, the
inner iterator stands just before all entries of the current key.  Entries that are too new for the
snapshot may lie in between; the invariant here says only that nothing in between is visible.

**Forms.**  What the source updates in place is a class here (`Compaction.Job`, `OutputCuts.Watch`,
`VersionBuilder`, `Iter`, `Writer`, `Reader`, `WriteBatch`, `MemTable`, `SkipList`, `Heap`, `Loop`, `OStream`,
`IStream`, `FieldIter`), and its loops are loops with invariants.  Protocols between threads are relations
between states, one per region under a mutex and one per action outside of it.

## Model

| member | source | states |
|---|---|---|
| DbFormat.BeforeIsStrictTotalOrder | GenieD/Pods/leveldb-library/db/dbformat.cc:51-67 | Internal keys compared by user key ascending and then by packed sequence and type descending are strictly and totally ordered. |
| DbFormat.LookupKeySeparates | GenieD/Pods/leveldb-library/db/dbformat.cc:121-138 | Seeking to the lookup key of a snapshot skips exactly the entries of the key that are too new for it. |
| DbFormat.RunGetFindsNewest | GenieD/Pods/leveldb-library/db/memtable.cc:100-134 | Seek and compare, on any sorted run: what is found is the newest entry at or below the snapshot, and nothing is found only if there is none. |
| DbFormat.ReadAfterWrite | GenieD/Pods/leveldb-library/db/memtable.cc:75-98 | One newer entry changes what is read exactly where it is the newest visible one. |
| MemTables.MemTable.Add | GenieD/Pods/leveldb-library/db/memtable.cc:75-98 | Adds exactly one entry under the given number (its low 56 bits, as the shift by 8 leaves them) and keeps the table sorted if the key is new. |
| MemTables.MemTable.Get | GenieD/Pods/leveldb-library/db/memtable.cc:100-134 | Value, deletion or look further, agreeing with the newest visible entry of the table. |
| Tree.FindFile | GenieD/Pods/leveldb-library/db/version_set.cc:88-106 | The binary search returns the first file whose largest key is not before the key, or the number of files. |
| Tree.SortIsSorted | GenieD/Pods/leveldb-library/db/version_set.cc:278-280 | Ordering level-0 candidates newest first keeps them all and puts higher numbers first. |
| Tree.GetLevel0 | GenieD/Pods/leveldb-library/db/version_set.cc:336-366 | Level 0, searched newest file first, yields the newest visible entry of the whole level. |
| Tree.GetDeeperLevel | GenieD/Pods/leveldb-library/db/version_set.cc:367-395 | On a sorted level one file decides: it holds the newest visible entry of the level or there is none. |
| Tree.FirstLevelDecides | GenieD/Pods/leveldb-library/db/version_set.cc:326-421 | The first level with a visible entry of a key holds the newest of the whole tree. |
| Tree.Get | GenieD/Pods/leveldb-library/db/version_set.cc:326-421 | In every tree that keeps the invariant, the level-by-level search with its early exits reads what the set of all entries says. |
| Inputs.SomeFileOverlapsRange | GenieD/Pods/leveldb-library/db/version_set.cc:122-155 | True exactly if some file overlaps the range, on a level 0 list and by binary search on a sorted level. |
| Inputs.GetOverlappingInputs | GenieD/Pods/leveldb-library/db/version_set.cc:519-559 | The restarting loop ends, and on level 0 returns the least set of files closed under overlap that contains those meeting the range. |
| Inputs.EndsOutsideShrinks | GenieD/Pods/leveldb-library/db/version_set.cc:536-556 | Each restart takes in a file end that was outside before, which is why there are finitely many. |
| Inputs.PickLevelForMemTableOutput | GenieD/Pods/leveldb-library/db/version_set.cc:491-516 | The first level at which a table has to stop, going down to 2 at most: its keys overlap level 0, or the next level, or too many bytes two levels down; at none of the levels before was that so. |
| Inputs.GetRange | GenieD/Pods/leveldb-library/db/version_set.cc:1205-1224 | The least smallest and the greatest largest internal key of the inputs. |
| Inputs.FindSmallestBoundaryFile | GenieD/Pods/leveldb-library/db/version_set.cc:1344-1362 | Among the files that start after the key with the same user key, the one that starts first; none only if there is none. |
| Inputs.BoundaryIsNext | GenieD/Pods/leveldb-library/db/version_set.cc:1365-1401 | On a sorted level a boundary file is the very next one after the files taken. |
| Inputs.AddBoundaryInputs | GenieD/Pods/leveldb-library/db/version_set.cc:1378-1401 | Ends, adds each file at most once and only files of the level, and leaves no boundary file behind the largest key it returns. |
| Selection.NothingOlderOnSortedLevel | GenieD/Pods/leveldb-library/db/version_set.cc:1405-1412 | After boundary files are added, no file left on a sorted level holds an older entry of a taken key. |
| Selection.NothingOlderOnLevel0 | GenieD/Pods/leveldb-library/db/version_set.cc:519-559 | Nor on level 0, where a closed range is taken. |
| Selection.CloseInputs | GenieD/Pods/leveldb-library/db/version_set.cc:1405-1409 | The inputs of the level stay in it, without duplicates, and leave no older entry of a taken key behind. |
| Selection.NextLevelInputs | GenieD/Pods/leveldb-library/db/version_set.cc:1409-1412 | Exactly the files of the next level that the range of the inputs overlaps, in level order; the others lie to one side of all inputs. |
| Selection.SetupOtherInputs | GenieD/Pods/leveldb-library/db/version_set.cc:1403-1446 | The inputs contain those to start from and leave no boundary file in their level; they are exactly the widened ones if these take in more files, keep the same files of the next level and stay below the limit, and exactly those closed over their boundary files otherwise; fit to be compacted (InputsOk). |
| Selection.PickCompaction | GenieD/Pods/leveldb-library/db/version_set.cc:1270-1322 | From any chosen file of a level, on level 0 with all that overlap it: exactly the inputs that SetupOtherInputs makes of that file; fit, and containing it. |
| Selection.CompactRange | GenieD/Pods/leveldb-library/db/version_set.cc:1464-1495 | Inputs are found exactly if a file meets the range.  They start from all that do on level 0, and elsewhere from the first of them up to the one that reaches the size limit, and are exactly what SetupOtherInputs makes of these. |
| Compaction.Job.IsBaseLevelForKey | GenieD/Pods/leveldb-library/db/version_set.cc:1533-1552 | With its advancing pointers, and for every ascending sequence of user keys: exactly what a scan of all deeper levels would answer. |
| Compaction.DecideDrop | GenieD/Pods/leveldb-library/db/db_impl.cc:929-963 | The running state decides for each entry exactly whether a newer one hides it from every live snapshot or it is an obsolete deletion; Compaction.WhatIsLeft says which these are. |
| Compaction.KeptIsSorted | GenieD/Pods/leveldb-library/db/db_impl.cc:965-985 | What is kept is a sorted run made of input entries. |
| Compaction.KeptCompacts | GenieD/Pods/leveldb-library/db/db_impl.cc:929-963 | An entry is left exactly if no newer one at or below the snapshot has its key, and it is no deletion at or below the snapshot whose key no file two or more levels down has in range. |
| Compaction.WhatIsLeft | GenieD/Pods/leveldb-library/db/db_impl.cc:929-963 | What is left: every entry above the snapshot; of each user key at most one at or below it; and a deletion there only if a file two or more levels down has the key in range. |
| Compaction.AfterDropping | GenieD/Pods/leveldb-library/db/db_impl.cc:929-963 | For each key and snapshot at or above the smallest: the newest visible entry is kept, or it was an obsolete deletion. |
| Compaction.CompactionKeepsReadsIff | GenieD/Pods/leveldb-library/db/db_impl.cc:890-998 | For every input and every rest of the tree: all reads at live snapshots stay the same if and only if no dropped deletion hides an older entry outside the inputs. |
| Compaction.CutsAreDisjoint | GenieD/Pods/leveldb-library/db/db_impl.cc:918-985 | However the output is cut into files, these are tables whose ranges are disjoint and ascending. |
| OutputCuts.Watch.ShouldStopBefore | GenieD/Pods/leveldb-library/db/version_set.cc:1554-1578 | For keys asked in order, with the index moving only forward: true exactly if the grandparents that end between the key where it last said so, or the first, and this one come to more than the limit. |
| OutputCuts.StopsIfTooMuch | GenieD/Pods/leveldb-library/db/version_set.cc:1554-1578 | Over a whole input, outputs stop before a key exactly if too much has gone by since the stop before. |
| OutputCuts.ClosedFileIsWithin | GenieD/Pods/leveldb-library/db/db_impl.cc:918-985 | No output spans more of the grandparents than the limit, none goes on over a stop, and none was big enough before its last entry. |
| OutputCuts.Ends | GenieD/Pods/leveldb-library/db/db_impl.cc:918-1000 | At the end of the input each output but the last has ended for a reason: its size, or a stop before the next one begins. |
| Compaction.DoCompactionWork | GenieD/Pods/leveldb-library/db/db_impl.cc:878-1010 | Of each user key at most one entry at or below the snapshot is left, the newest; a deletion at or below it only if a file two or more levels down has the key in range; every newer entry is left; and nothing else is dropped.  The outputs are numbered, non-empty, disjoint tables, and are cut exactly where they have to be (WellCut). |
| Builder.BySmallestIsStrictOrder | GenieD/Pods/leveldb-library/db/version_set.cc:593-605 | Files are strictly ordered by smallest key and, where it is the same, by number. |
| Builder.VersionBuilder.Apply | GenieD/Pods/leveldb-library/db/version_set.cc:650-692 | After an edit the builder stands for the old files less the deleted ones and with the added ones; a file added again is not deleted. |
| Builder.VersionBuilder.SaveLevel | GenieD/Pods/leveldb-library/db/version_set.cc:695-739 | Merging base files and added files yields exactly the files that remain, sorted. |
| Builder.VersionBuilder.SaveTo | GenieD/Pods/leveldb-library/db/version_set.cc:695-754 | The new version holds, on each level, exactly what the builder stands for, sorted. |
| Builder.Build | GenieD/Pods/leveldb-library/db/version_set.cc:650-754 | Any list of edits through one builder gives the same files as applying the edits one at a time, provided no number is added where it has been before. |
| TreeSteps.MoveKeepsTree | GenieD/Pods/leveldb-library/db/version_set.cc:1403-1462 | Replacing fit inputs by disjoint tables of their entries one level down keeps sorted levels disjoint and shallower entries newer. |
| Boundary.OlderIsBoundary | GenieD/Pods/leveldb-library/db/version_set.cc:1533-1552 | Outside the inputs, what is older than one of them whose key has no data further down is in a boundary file of the next level that was not taken. |
| Boundary.ResurrectsIffUncovers | GenieD/Pods/leveldb-library/db/version_set.cc:1409-1412 | A dropped deletion uncovers an older value exactly if the boundary file that the test would have found in the next level begins with one. |
| Boundary.TreeKeepsReadsIff | GenieD/Pods/leveldb-library/db/db_impl.cc:890-998 | For every tree and fit inputs: all reads at or above the snapshot stay the same if and only if no value begins the first boundary file left behind, under a deletion that readers see and that is dropped. |
| Boundary.ClosedUncoversNothing | GenieD/Pods/leveldb-library/db/version_set.cc:1365-1401 | With the boundary test made for the next level too, nothing would be uncovered. |
| TreeSteps.FlushKeepsTree | GenieD/Pods/leveldb-library/db/version_set.cc:491-516 | A memtable written to the picked level keeps the invariant of the tree. |
| Database.InitHolds | GenieD/Pods/leveldb-library/db/db_impl.cc:1185-1256 | The empty store satisfies the invariant. |
| Database.StepKeepsInv | GenieD/Pods/leveldb-library/db/db_impl.cc:491-876 | Every write, snapshot, memtable switch, flush, trivial move, and compaction that uncovers nothing keeps it: the tree in order, numbers unique, and every live snapshot reading what was written. |
| Database.RunsKeepInv | GenieD/Pods/leveldb-library/db/db_impl.cc:491-1256 | So does every run of such steps. |
| Database.SnapshotSeesItsMoment | GenieD/Pods/leveldb-library/db/db_impl.cc:860-1136 | In every run, a snapshot shows the store as it was when it was taken, whatever is written, flushed, moved, compacted and released since, until it is released itself. |
| Database.CompactKeepsReadsIff | GenieD/Pods/leveldb-library/db/db_impl.cc:860-1010 | A compaction of fit inputs changes no read at or above the smallest snapshot if and only if it uncovers nothing in the next level. |
| Database.CompactKeepsInvIff | GenieD/Pods/leveldb-library/db/db_impl.cc:860-1010 | Of all compactions in a store, exactly those are steps of the state machine that keep its invariant. |
| Database.Get | GenieD/Pods/leveldb-library/db/db_impl.cc:1100-1136 | In every reachable state, for every key and live snapshot: the newest entry ever written at or below the snapshot, a deletion or nothing meaning absent. |
| Background.MergeFilesIsSorted | GenieD/Pods/leveldb-library/db/version_set.cc:1237-1268 | The merged inputs are a sorted run of exactly their entries. |
| Background.LogAndApply | GenieD/Pods/leveldb-library/db/version_set.cc:650-754 | Applying one edit builds a version that contains just what the edit says. |
| Background.CompactMemTable | GenieD/Pods/leveldb-library/db/db_impl.cc:491-560 | Flushing the immutable memtable is a step of the state machine, to the first level at which its table has to stop. |
| Background.MoveFile | GenieD/Pods/leveldb-library/db/db_impl.cc:718-725 | So is the trivial move of one file. |
| Background.Grandparents | GenieD/Pods/leveldb-library/db/version_set.cc:1446-1455 | The files two levels down that share user keys with the range from the first input to the last, in level order. |
| Background.CompactFiles | GenieD/Pods/leveldb-library/db/db_impl.cc:811-1010 | The merged inputs are replaced by what must be left of them, by the oldest snapshot held or else the last sequence number, in outputs cut where they have to be; and this is a step, and keeps the invariant, exactly if nothing is uncovered. |
| Background.BackgroundCompaction | GenieD/Pods/leveldb-library/db/db_impl.cc:714-750 | Exactly a single file with nothing to merge below it, whose grandparents keep the limit, is moved as it is, unless the compaction was asked for; anything else is compacted. |
| Manifest.WriteSnapshot | GenieD/Pods/leveldb-library/db/version_set.cc:1088-1115 | The edit written first lists exactly the files of every level, no number twice on a level. |
| Manifest.RunReplays | GenieD/Pods/leveldb-library/db/version_set.cc:803-884 | In every run, the snapshot and the edits logged since then add no file number to a level where it has been before, and replay, one after the other, to exactly the current version. |
| Manifest.EveryPrefix | GenieD/Pods/leveldb-library/db/version_set.cc:803-884 | Every prefix of the records was the whole descriptor log in some state of the run. |
| Manifest.Recover | GenieD/Pods/leveldb-library/db/version_set.cc:886-1010 | One builder that is fed what is left of the records of any run saves, file by file in order, the version of the store at the last of them. |
| Durable.StepSettles | GenieD/Pods/leveldb-library/db/db_impl.cc:491-876 | Every step keeps the split of all that was written into tables, frozen memtable and memtable by sequence number, the tables alone reading as what was written up to their mark. |
| Durable.CompactSettlesIff | GenieD/Pods/leveldb-library/db/db_impl.cc:860-1010 | While no snapshot is older than the tables, a compaction keeps that split exactly if it uncovers nothing in the tables alone. |
| Durable.RunsSettle | GenieD/Pods/leveldb-library/db/db_impl.cc:491-1256 | So does every run of such steps, with the marks that its switches and flushes set. |
| Durable.WasAState | GenieD/Pods/leveldb-library/db/db_impl.cc:1185-1256 | What had been written up to any number of the run is the history of a state that the run has been in. |
| MissedBoundary.ExampleIsReached | GenieD/Pods/leveldb-library/db/db_impl.cc:491-1256 | A run from the empty store to a tree in which two entries of a key are in two files of one level. |
| MissedBoundary.DeletedKeyComesBack | GenieD/Pods/leveldb-library/db/version_set.cc:1403-1462 | In the state that the run reaches, Get says that the key is deleted; after PickCompaction and DoCompactionWork, with any limits, it returns the deleted value: the boundary files of the next level are missing. |
| DbIter.Iter.FindNextUserEntry | GenieD/Pods/leveldb-library/db/db_iter.cc:168-198 | From any position: the first live entry of a key after the one to skip, or the end. |
| DbIter.Iter.Next | GenieD/Pods/leveldb-library/db/db_iter.cc:141-166 | Moves to the next live key, also right after moving backwards. |
| DbIter.Iter.FindPrevUserEntry | GenieD/Pods/leveldb-library/db/db_iter.cc:227-267 | Scans back to the live key before; the newest entry that the snapshot shows of it is remembered. |
| DbIter.Iter.Prev | GenieD/Pods/leveldb-library/db/db_iter.cc:200-225 | Moves to the live key before, also right after moving forwards. |
| DbIter.Iter.Seek | GenieD/Pods/leveldb-library/db/db_iter.cc:269-281 | Stands at the first live key at or after the target. |
| DbIter.Iter.SeekToFirst | GenieD/Pods/leveldb-library/db/db_iter.cc:283-292 | Stands at the first live key. |
| DbIter.Iter.SeekToLast | GenieD/Pods/leveldb-library/db/db_iter.cc:294-299 | Stands at the last live key. |
| DbIter.LiveInOrder | GenieD/Pods/leveldb-library/db/db_iter.cc:30-38 | The live keys and values ascend, each key once. |
| DbIter.LiveIsWhatIsRead | GenieD/Pods/leveldb-library/db/db_iter.cc:30-38 | They are exactly the keys with a value at the snapshot, each with the value that is read. |
| DbIter.Perform | GenieD/Pods/leveldb-library/db/db_iter.cc:39-120 | Each operation moves the iterator as it moves a cursor over the live keys. |
| DbIter.RunOps | GenieD/Pods/leveldb-library/db/db_iter.cc:141-299 | Every sequence of SeekToFirst, SeekToLast, Seek, Next and Prev shows what a cursor over the sorted live keys shows. |
| StoreIter.ChildrenAreAll | GenieD/Pods/leveldb-library/db/db_impl.cc:1062-1087 | The children of a store, level 0 merged and deeper levels one file after the other, hold all its entries, each once, in order. |
| StoreIter.IterateStore | GenieD/Pods/leveldb-library/db/db_impl.cc:1062-1087 | In every reachable state and at every live snapshot, an iterator over the store shows, for any operations, a cursor over exactly the keys and values that Get returns. |
| LogFormat.FramesAscend | GenieD/Pods/leveldb-library/db/log_writer.cc:34-80 | Physical records lie one after the other without overlap. |
| OnDisk.FrameIsLaidOut | GenieD/Pods/leveldb-library/db/log_writer.cc:82-108 | The bytes of a frame: four of checksum, two of length, low one first, one of type from 1 to 4, and the payload. |
| OnDisk.FramesAreLaidOut | GenieD/Pods/leveldb-library/db/log_writer.cc:34-80 | Where each frame begins: where the one before ends, or at the next block of 32768 bytes if fewer than seven are left. |
| LogWriter.Writer.Append | GenieD/Pods/leveldb-library/db/log_writer.cc:27-30 | A writer reopened on a log goes on where it ended. |
| LogWriter.Writer.EmitPhysicalRecord | GenieD/Pods/leveldb-library/db/log_writer.cc:82-108 | Appends one frame: header with checksum, length and type, then the payload. |
| LogWriter.Writer.AddRecord | GenieD/Pods/leveldb-library/db/log_writer.cc:34-80 | The log grows by frames that hold the record and nothing else, placed in blocks with zeros in the trailers, typed full or first, middle and last; an empty record is one frame. |
| LogReader.HeaderSays | GenieD/Pods/leveldb-library/db/log_reader.cc:222-227 | The header bytes give back the type, length and checksum of the frame. |
| LogReader.Reader.ReadPhysicalRecord | GenieD/Pods/leveldb-library/db/log_reader.cc:189-271 | On what a crash left of a log: the next frame if all of it is there, else the end of file, and no report.  On any file: what it returns stands there behind a header with its type, length and checksum. |
| LogReader.Reader.ReadRecord | GenieD/Pods/leveldb-library/db/log_reader.cc:56-174 | On such a file: the next record and its offset if all of it is there, else false; no corruption is reported.  On any file at all, with checksums: a record is put together from a full fragment, or a first, middle ones and a last, one behind the other and each with its checksum. |
| Log.WriteRecords | GenieD/Pods/leveldb-library/db/log_writer.cc:34-108 | A list of records becomes a log whose length after each record is returned. |
| Log.EndsAscend | GenieD/Pods/leveldb-library/db/log_writer.cc:34-80 | Each record ends after the one before, and the last where the log ends. |
| Log.ReadRecords | GenieD/Pods/leveldb-library/db/log_reader.cc:56-174 | Reading until false returns exactly the records that end before the file does. |
| Log.CrashAndRead | GenieD/Pods/leveldb-library/db/log_reader.cc:56-271 | For every list of records and every cut of the bytes: exactly the records whose last frame ends before the cut, no report; with no cut, all of them. |
| Coding.FixedRoundTrip | GenieD/Pods/leveldb-library/util/coding.cc:9-33 | A fixed-width number is read as it was written if it fits. |
| OnDisk.VarintByteOnDisk | GenieD/Pods/leveldb-library/util/coding.cc:47-79 | Each byte of a varint holds the next seven bits, and a top bit exactly if more follow. |
| Coding.GetVarint32 | GenieD/Pods/leveldb-library/util/coding.cc:112-140 | The reading loop, five bytes at most, computes the varint its specification says, for any input. |
| Coding.VarintRoundTrip | GenieD/Pods/leveldb-library/util/coding.cc:47-73 | Every 32-bit number is read back from its varint, whatever follows it. |
| Coding.SliceRoundTrip | GenieD/Pods/leveldb-library/util/coding.cc:98-101 | So is every length-prefixed string. |
| WriteBatches.ParseOfBytes | GenieD/Pods/leveldb-library/db/write_batch.cc:42-80 | The bytes of a list of operations parse to that list, with nothing left. |
| OnDisk.BatchIsLaidOut | GenieD/Pods/leveldb-library/db/write_batch.cc:82-96 | The bytes of a batch: sequence number and count, low bytes first, and the operations. |
| OnDisk.OperationsOnDisk | GenieD/Pods/leveldb-library/db/write_batch.cc:98-110 | The bytes of an operation: 1 and two strings, or 0 and one, each behind its length. |
| WriteBatches.WriteBatch.Put | GenieD/Pods/leveldb-library/db/write_batch.cc:98-103 | Adds one put to the operations the bytes stand for, and counts it. |
| WriteBatches.WriteBatch.Delete | GenieD/Pods/leveldb-library/db/write_batch.cc:105-109 | Adds one deletion. |
| WriteBatches.WriteBatch.Append | GenieD/Pods/leveldb-library/db/write_batch.cc:144-148 | Adds the operations of another batch, in order, and their count. |
| WriteBatches.WriteBatch.SetSequence | GenieD/Pods/leveldb-library/db/write_batch.cc:94-96 | Changes the sequence number and nothing else. |
| WriteBatches.Iterate | GenieD/Pods/leveldb-library/db/write_batch.cc:42-80 | Hands over every operation up to the first malformed one, numbered one by one. |
| WriteBatches.WriteBatch.InsertInto | GenieD/Pods/leveldb-library/db/write_batch.cc:132-137 | Succeeds exactly if all bytes are operations and as many as the header counts; the memtable gains the numbered entries and stays sorted. |
| Recovery.MakeBatch | GenieD/Pods/leveldb-library/db/write_batch.cc:94-116 | A batch filled by Put and Delete and then numbered is, byte for byte, what is logged of its operations. |
| Recovery.ReplayRecord | GenieD/Pods/leveldb-library/db/db_impl.cc:424-447 | Replaying one logged batch adds its entries and raises the highest sequence number to its last. |
| Recovery.RecoverLogFile | GenieD/Pods/leveldb-library/db/db_impl.cc:413-490 | Of a log cut anywhere exactly the batches that lie wholly before the cut are replayed, and the highest number is that of the last.  A table is made as soon as the memtable is full and not before; what is left at the end becomes one too, or stays in memory exactly if logs are reused and nothing was full. |
| Recovery.CrashAndRecover | GenieD/Pods/leveldb-library/db/db_impl.cc:413-490 | From any batches, numbered and logged, and any cut: recovery rebuilds exactly the entries of the batches whose record ends before the cut, in tables of ascending numbers. |
| Recovery.RecoverCut | GenieD/Pods/leveldb-library/db/db_impl.cc:381-490 | Of a log cut anywhere, exactly the entries of the batches wholly before the cut come back, and all of them if nothing is cut. |
| Reopen.OpenStore | GenieD/Pods/leveldb-library/db/db_impl.cc:298-367 | The tables of the replayed logs in level 0, the rest in memory and the higher of the last sequence numbers make a store that satisfies the invariant of the whole store. |
| Reopen.ReplayLogs | GenieD/Pods/leveldb-library/db/db_impl.cc:306-367 | The log of a frozen memtable and then the current one, cut anywhere, give back exactly what was written after the tables up to the last batch before the cut, in ascending tables. |
| Reopen.CrashAndReopen | GenieD/Pods/leveldb-library/db/db_impl.cc:273-490 | After any run, with its switches, flushes, moves and compactions, and a crash at any cut of the current log: opened from manifest and logs, the store satisfies the invariant, and its history is that of a state the run has been in, the one after the last batch wholly before the cut. |
| GroupCommit.BuildBatchGroup | GenieD/Pods/leveldb-library/db/db_impl.cc:1260-1306 | The group is as long as its rules let it be: no sync write behind a leader that does not sync, at most 1 MiB, or 128 KiB more than a leader of at most 128 KiB has, and the next writer is kept out by one of these. |
| GroupCommit.RecordsKeepTheRules | GenieD/Pods/leveldb-library/db/db_impl.cc:1260-1306 | In every run, each record of the log keeps these rules: where one of its writers wants sync, its leader does. |
| GroupCommit.StepKeepsInv | GenieD/Pods/leveldb-library/db/db_impl.cc:1185-1256 | Every step of every writer keeps the invariant of the queue, the log and the memtable. |
| GroupCommit.RunsKeepInv | GenieD/Pods/leveldb-library/db/db_impl.cc:1185-1256 | So does every interleaving. |
| GroupCommit.InExactlyOneGroup | GenieD/Pods/leveldb-library/db/db_impl.cc:1237-1247 | Each batch of a writer that has left the queue is in exactly one group. |
| GroupCommit.GroupsAreInQueueOrder | GenieD/Pods/leveldb-library/db/db_impl.cc:1260-1306 | The groups one after the other are the batches in the order they queued up. |
| GroupCommit.NumberedWithoutGap | GenieD/Pods/leveldb-library/db/db_impl.cc:1208-1234 | Their operations carry consecutive sequence numbers. |
| GroupCommit.ReturnedIsCommitted | GenieD/Pods/leveldb-library/db/db_impl.cc:1237-1256 | A writer that has been told or has returned is committed: logged, inserted and visible. |
| GroupCommit.SyncedWhenReturned | GenieD/Pods/leveldb-library/db/db_impl.cc:1208-1256 | In every run, a sync writer that has been told or has returned is in a record that was synced. |
| GroupCommit.ReaderSeesWholeGroups | GenieD/Pods/leveldb-library/db/db_impl.cc:1100-1136 | A reader that takes LastSequence at one moment and reads at any later one sees exactly the groups finished by then, never a part of one. |
| GroupCommit.SomeThreadCanMove | GenieD/Pods/leveldb-library/db/db_impl.cc:1192-1200 | No wake-up is lost: while a writer has not returned, some thread can go on. |
| SkipLists.AdvanceIsRight | GenieD/Pods/leveldb-library/db/skiplist.h:262-281 | Each turn of a search stays before the target on its level, and the last ends at the first node from the target on. |
| SkipLists.SkipList.FindGreaterOrEqual | GenieD/Pods/leveldb-library/db/skiplist.h:262-281 | The first node not before the key; and on every level the node after which the key belongs. |
| SkipLists.SkipList.FindLessThan | GenieD/Pods/leveldb-library/db/skiplist.h:285-302 | The last node before the key, or the head. |
| SkipLists.SkipList.FindLast | GenieD/Pods/leveldb-library/db/skiplist.h:305-322 | The last node, or the head of an empty list. |
| SkipLists.SkipList.Contains | GenieD/Pods/leveldb-library/db/skiplist.h:371-378 | True exactly if the key is in the list. |
| SkipLists.SkipList.Insert | GenieD/Pods/leveldb-library/db/skiplist.h:337-368 | Adds exactly one key, on exactly the levels below the given height, and raises the list to it; the moments of its trace are one store apart, and at each the list is well-formed and holds the old keys or the new ones. |
| SkipLists.SkipList.InsertAll | GenieD/Pods/leveldb-library/db/skiplist.h:337-368 | Insertions one after the other make one history of single stores, for readers that see several of them. |
| SkipLists.HistoriesJoin | GenieD/Pods/leveldb-library/db/skiplist.h:337-368 | The history of an insertion goes on in that of the next. |
| SkipLists.PublishKeepsValid | GenieD/Pods/leveldb-library/db/skiplist.h:361-367 | The store that publishes a node in a level keeps every level sorted and a part of the one below. |
| SkipLists.SearchGoesOn | GenieD/Pods/leveldb-library/db/skiplist.h:337-368 | A search under way stays right across every store of the writer. |
| SkipLists.SearchIsRightAtItsLastTurn | GenieD/Pods/leveldb-library/db/skiplist.h:262-281 | However its turns are interleaved with stores, a search finds the first node from the target on as of its last turn. |
| ThreadPool.InitHolds | GenieD/Pods/Libuv-gRPC/src/threadpool.c:188-232 | The new pool satisfies the invariant. |
| ThreadPool.StepKeepsWorkers | GenieD/Pods/Libuv-gRPC/src/threadpool.c:57-160 | Every step keeps the counters true to the threads and wakes a thread for every entry that can be taken. |
| ThreadPool.StepKeepsRequests | GenieD/Pods/Libuv-gRPC/src/threadpool.c:57-315 | Every step keeps each request in the one place its state says. |
| ThreadPool.RunsKeepInv | GenieD/Pods/Libuv-gRPC/src/threadpool.c:57-315 | So does every interleaving. |
| ThreadPool.ExactlyOnce | GenieD/Pods/Libuv-gRPC/src/threadpool.c:57-315 | Each request is in exactly one place; its work runs at most once and never after a cancellation; its callback is called at most once, with UV_ECANCELED exactly if uv_cancel succeeded. |
| PoolOrder.RunsKeepOrder | GenieD/Pods/Libuv-gRPC/src/threadpool.c:78-117 | In every reachable state, requests stand in their queue in the order they were submitted, and all those taken up came before those that wait. |
| PoolOrder.FirstComeFirstServed | GenieD/Pods/Libuv-gRPC/src/threadpool.c:142-160 | In every reachable state, if a request is in a worker's hands or has run, no earlier one of its sort still waits. |
| PoolOrder.CallbacksInOrder | GenieD/Pods/Libuv-gRPC/src/threadpool.c:292-313 | In every run, the callbacks of a loop come in the order in which their requests joined its queue; one that is cancelled there joins it again. |
| PoolOrder.CancelledUnlessTakenUp | GenieD/Pods/Libuv-gRPC/src/threadpool.c:269-289 | A request that still waits can be cancelled and leaves its queue; one that was taken up or has run cannot. |
| PoolOrder.WaitsOnlyForWork | GenieD/Pods/Libuv-gRPC/src/threadpool.c:66-76 | A worker goes to sleep only if there is nothing to take, or only slow work while (nthreads + 1) / 2 threads do such. |
| PoolOrder.SlowWorkStarts | GenieD/Pods/Libuv-gRPC/src/threadpool.c:84-107 | Below that bound the slow request that came first starts when its turn comes. |
| ThreadPool.SlowWorkIsBounded | GenieD/Pods/Libuv-gRPC/src/threadpool.c:45-117 | Waiting slow work is announced in the queue, at most (nthreads + 1) / 2 threads do slow work, and both counters are exact. |
| ThreadPool.RunnableWakesSomeone | GenieD/Pods/Libuv-gRPC/src/threadpool.c:66-76 | If there is something to take and a thread sleeps, another is on its way to take it. |
| ThreadPool.SomethingMoves | GenieD/Pods/Libuv-gRPC/src/threadpool.c:57-315 | Until shutdown, while some callback has not been called, some thread has a step to take of itself. |
| Heaps.PathTo | GenieD/Pods/Libuv-gRPC/src/heap-inl.h:119-124 | The bits collected lead from the root to exactly the given slot. |
| Heaps.Heap.Walk | GenieD/Pods/Libuv-gRPC/src/heap-inl.h:126-136 | Following them reaches that slot and the node above it. |
| Heaps.Heap.NodeSwap | GenieD/Pods/Libuv-gRPC/src/heap-inl.h:72-104 | All links around a parent and child that change places, pointer by pointer. |
| Heaps.SwapKeepsShape | GenieD/Pods/Libuv-gRPC/src/heap-inl.h:72-104 | The tree stays complete with consistent parent links, two slots exchanged. |
| Heaps.Heap.Insert | GenieD/Pods/Libuv-gRPC/src/heap-inl.h:106-148 | One node more, the tree complete and in heap order. |
| Heaps.Heap.Remove | GenieD/Pods/Libuv-gRPC/src/heap-inl.h:150-237 | Any node removed, and no other; the tree complete and in heap order. |
| Heaps.Heap.Dequeue | GenieD/Pods/Libuv-gRPC/src/heap-inl.h:239-241 | Exactly the root leaves; the tree complete and in heap order. |
| Heaps.RootIsLeast | GenieD/Pods/Libuv-gRPC/src/heap-inl.h:67-69 | No node comes before the root. |
| Timers.LessIsEarlier | GenieD/Pods/Libuv-gRPC/src/timer.c:38-55 | The heap's order is by due time and then by start number. |
| Timers.Loop.TimerStart | GenieD/Pods/Libuv-gRPC/src/timer.c:66-94 | Due at the time now plus the timeout, or at 2^64 - 1 where the sum wraps; only this timer changes, under a start number of its own. |
| Timers.Loop.TimerStop | GenieD/Pods/Libuv-gRPC/src/timer.c:97-107 | The timer leaves the heap, others stay. |
| Timers.Loop.TimerAgain | GenieD/Pods/Libuv-gRPC/src/timer.c:110-120 | A repeating timer is started anew from now. |
| Timers.Loop.NextTimeout | GenieD/Pods/Libuv-gRPC/src/timer.c:133-151 | -1 without timers, 0 if one is due, else the distance to the next, at most INT_MAX. |
| Timers.Loop.RunOne | GenieD/Pods/Libuv-gRPC/src/timer.c:166-169 | A timer that is due is stopped and, if it repeats, started anew, before its callback makes its calls. |
| Timers.CallbackHasTheLastWord | GenieD/Pods/Libuv-gRPC/src/timer.c:166-169 | A timer that its own callback stops stays stopped, and what its callback starts comes after it. |
| Timers.Loop.RunTimers | GenieD/Pods/Libuv-gRPC/src/timer.c:154-171 | With callbacks that start, stop and change timers: each timer run was the first of those due at that moment, by time and then by start number; none is due at the end; and of the timers that no callback touches exactly the due ones have run, once each and in that order; repeating ones are due again strictly later. |
| Punycode.VarIntIsRead | GenieD/Pods/Libuv-gRPC/src/idna.c:192-218 | Each delta is read back from its digits at any bias (section 6.2 of RFC 3492). |
| Punycode.AdaptBias | GenieD/Pods/Libuv-gRPC/src/idna.c:220-233 | The bias of section 6.1 of RFC 3492, with no sum wrapping around. |
| Punycode.AdaptIs | GenieD/Pods/Libuv-gRPC/src/idna.c:220-233 | The bias in numbers: delta halved, or divided by 700 the first time, grown by its share for each code point, divided by 35 until at most 455, and 36 for each division plus 36 delta / (delta + 38). |
| Punycode.ThresholdIs | GenieD/Pods/Libuv-gRPC/src/idna.c:192-206 | The threshold at position k (36, 72 and so on) is k less the bias, but no less than 1 and no more than 26. |
| Punycode.AlphabetIs | GenieD/Pods/Libuv-gRPC/src/idna.c:104 | Digits are the letters from a and then the numerals from 0. |
| Punycode.DeltaOfOne | GenieD/Pods/Libuv-gRPC/src/idna.c:133-180 | A label with one foreign code point has one delta: its distance from 128 times the length of the label, plus its place. |
| Punycode.KnownLabel | GenieD/Pods/Libuv-gRPC/src/idna.c:102-246 | The encoding of a known label, digit by digit, |
| Punycode.KnownPair | GenieD/Pods/Libuv-gRPC/src/idna.c:166-233 | and of one with two deltas, where the second depends on the bias that the first leaves. |
| Punycode.CheckIsExact | GenieD/Pods/Libuv-gRPC/src/idna.c:174-180 | The overflow check lets pass exactly what fits in 32 bits. |
| Punycode.RoundsAreDecoded | GenieD/Pods/Libuv-gRPC/src/idna.c:166-243 | From any point of the encoding, the decoder rebuilds the rest of the label. |
| Punycode.DecodeOfEncode | GenieD/Pods/Libuv-gRPC/src/idna.c:102-246 | The decoder of section 6.2 of RFC 3492 inverts the encoder on every label. |
| Punycode.ToAsciiLabel | GenieD/Pods/Libuv-gRPC/src/idna.c:102-246 | An ASCII label is copied; any other becomes xn-- and its encoding, which decodes to it; UV_E2BIG exactly if a delta does not fit in 32 bits. |
| PbEncode.OStream.EncodeVarint | GenieD/Pods/nanopb/pb_encode.c:608-628 | Groups of seven bits, low ones first, the last without its top bit; all or nothing where the buffer ends. |
| PbEncode.OStream.EncodeSubmessage | GenieD/Pods/nanopb/pb_encode.c:717-765 | Length and message; what the first pass counts is what the second writes, so that "submsg size changed" cannot come. |
| PbEncode.OStream.EncodeArray | GenieD/Pods/nanopb/pb_encode.c:147-236 | One packed part, or an element behind each tag; an error if there are more than the array has room for. |
| PbEncode.OStream.PackedSize | GenieD/Pods/nanopb/pb_encode.c:168-191 | The size of the packed elements, by multiplying or by counting, is that of what is then written. |
| PbEncode.OStream.EncodeField | GenieD/Pods/nanopb/pb_encode.c:341-426 | Exactly the bytes of the field: required fields, those whose has_ flag or union says so, and proto3 fields that are not at their default (PbWire.SingularIsWrittenIff). |
| PbEncode.OStream.EncodeMessage | GenieD/Pods/nanopb/pb_encode.c:528-550 | Counting and writing agree on every message that fits its descriptor; writing fails exactly if the buffer is too small. |
| PbEncode.PackedFixed | GenieD/Pods/nanopb/pb_encode.c:168-175 | Packed fixed-size numbers take four or eight bytes each. |
| PbWire.VarintDigit | GenieD/Pods/nanopb/pb_encode.c:608-628 | The i-th byte of a varint is the i-th seven bits of the number, with a top bit unless it is the last; there are no more bytes than needed. |
| PbWire.FixedDigit | GenieD/Pods/nanopb/pb_encode.c:641-667 | The i-th byte of a fixed-size number is its i-th eight bits. |
| PbWire.ZigzagIsShifted | GenieD/Pods/nanopb/pb_encode.c:630-639 | A signed number is shifted left by one in 64 bits, and complemented if it is negative. |
| PbWire.SingularIsWrittenIff | GenieD/Pods/nanopb/pb_encode.c:240-336 | A proto3 number takes bytes exactly if it is not 0, a byte string exactly if it is not empty. |
| PbWire.SingularMessageIsWrittenIff | GenieD/Pods/nanopb/pb_encode.c:285-307 | A proto3 message in a message takes bytes exactly if it would by itself. |
| PbWire.NothingWrittenIff | GenieD/Pods/nanopb/pb_encode.c:341-426 | Where nothing is required, and no proto3 byte string has a fixed length, a message is written as no bytes exactly if it is the message of zeros. |
| PbWire.RequiredIsWritten | GenieD/Pods/nanopb/pb_encode.c:341-426 | A required field always takes bytes. |
| PbWire.ArraysOnTheWire | GenieD/Pods/nanopb/pb_encode.c:147-236 | Numbers go in one packed part behind their length, anything else in a part for each element. |
| PbWire.StorableNumbers | GenieD/Pods/nanopb/pb_decode.c:1334-1445 | Which numbers a field of each size can hold. |
| PbWire.NumberAndString | GenieD/Pods/nanopb/pb_encode.c:528-550 | Known messages byte by byte: a number, and with it a string, |
| PbWire.MessageInMessage | GenieD/Pods/nanopb/pb_encode.c:717-765 | a message in a message, |
| PbWire.PackedArray | GenieD/Pods/nanopb/pb_encode.c:147-191 | a packed array, |
| PbWire.KindsOnTheWire | GenieD/Pods/nanopb/pb_encode.c:769-912 | a value of each other kind, |
| PbWire.Fixed32OnTheWire | GenieD/Pods/nanopb/pb_encode.c:641-651 | numbers of four bytes |
| PbWire.Fixed64OnTheWire | GenieD/Pods/nanopb/pb_encode.c:653-667 | and of eight, low byte first, |
| PbWire.MinusOneOnTheWire | GenieD/Pods/nanopb/pb_encode.c:776-797 | and a negative number, in ten bytes. |
| PbDecode.LowAndHigh | GenieD/Pods/nanopb/pb_decode.c:255-276 | At every group of a varint, what has been gathered and what is to come make up the number. |
| PbDecode.NextGroup | GenieD/Pods/nanopb/pb_decode.c:187-276 | Each byte adds its seven bits on top; the one without a top bit ends the number, and no earlier one. |
| PbDecode.IStream.DecodeVarint | GenieD/Pods/nanopb/pb_decode.c:255-276 | Reads back any 64-bit number, and consumes exactly its bytes. |
| PbDecode.IStream.DecodeVarint32 | GenieD/Pods/nanopb/pb_decode.c:187-252 | Reads back any 32-bit number; end of file is told apart from failure. |
| PbDecode.IStream.DecodeTag | GenieD/Pods/nanopb/pb_decode.c:298-319 | The tag and wire type that were written. |
| PbDecode.IStream.SkipField | GenieD/Pods/nanopb/pb_decode.c:278-334 | Skips exactly the field, of each of the four wire types; any other type is an error. |
| PbDecode.IStream.MakeSubstream | GenieD/Pods/nanopb/pb_decode.c:372-385 | A stream of the delimited part alone, which the outer one no longer counts as its own. |
| PbDecode.FixedIsRead | GenieD/Pods/nanopb/pb_decode.c:1299-1331 | Little-endian bytes give back the number. |
| PbDecode.IStream.DecodeNumber | GenieD/Pods/nanopb/pb_decode.c:1334-1445 | Reads back every number its field can hold, and never stores one that it cannot hold. |
| PbMessage.FieldIter.Find | GenieD/Pods/nanopb/pb_common.c:80-98 | Going round from wherever it stands, the iterator finds the field of a tag exactly if there is one. |
| PbMessage.FieldIter.RequiredFields | GenieD/Pods/nanopb/pb_decode.c:1031-1047 | Walking to the end counts the required fields, the last one included. |
| PbMessage.FieldIter.AllSeen | GenieD/Pods/nanopb/pb_decode.c:1029-1079 | True exactly if each of the first 64 required fields has been seen. |
| PbMessage.DecodeBlob | GenieD/Pods/nanopb/pb_decode.c:1447-1570 | Byte strings within their storage come back; a string needs room for its zero besides, and is an error exactly without it. |
| PbMessage.DecodePacked | GenieD/Pods/nanopb/pb_decode.c:425-452 | The elements of a packed array, never more than there is room for. |
| PbMessage.DecodeSlot | GenieD/Pods/nanopb/pb_decode.c:406-483 | A field read into its slot: what was written, whichever kind of field it is. |
| PbParts.DefaultIsZero | GenieD/Pods/nanopb/pb_encode.c:240-336 | What is left out as a proto3 default is what reading starts from, nested messages included. |
| PbParts.PutFits | GenieD/Pods/nanopb/pb_decode.c:467-478 | Storing a field keeps all within their storage, and of a union only one. |
| PbParts.PutGets | GenieD/Pods/nanopb/pb_decode.c:467-478 | Storing the next piece of any field, in any order, keeps all that was read before; what is stored over, and the other fields of a union, leave no trace. |
| PbParts.PlainWeave | GenieD/Pods/nanopb/pb_encode.c:528-550 | The bytes written are one such order: the parts of the message one after the other, each behind its tag. |
| PbMessage.ReadingEnds | GenieD/Pods/nanopb/pb_decode.c:953-1079 | At the end of the bytes the message is read, absent and defaulted fields included, and no required one is missed. |
| PbMessage.DecodeMessage | GenieD/Pods/nanopb/pb_decode.c:934-1082 | The parts of a message with its fields in any order, unknown fields in between, and single values that later ones replace, in a union too, give back the message.  Where parts are missing, the rest is accepted exactly if each of the first 64 required fields has one.  On any bytes at all, what is accepted is within its storage. |
| PbRoundTrip.SameMessageBytes | GenieD/Pods/nanopb/pb_encode.c:528-550 | Messages that differ only in what absent fields hold are written alike. |
| PbRoundTrip.EncodeAndDecode | GenieD/Pods/nanopb/pb_decode.c:1084-1096 | Every message that fits its descriptor is written in the size counted before, read back, and written alike again. |

## Left out

- The application's own Swift code, and the rest of libuv, LevelDB and nanopb.
- Files, directories, tables on disk, block format, caches, filters and compression: a table is its sorted entries.
- User keys are places in the comparator's order (real numbers), except in batches and the log, where they are bytes.
- The checksum is any function of type and payload.  Of bytes that were altered rather than cut off it is only said that what is read carries its checksum (LogReader.Reader.ReadRecord).
- The log reader starts at offset 0; resynchronising after a seek is not modelled.
- The sizes of files, tables and memtables, and the limits on them, are parameters; results hold for all of them.
- Compaction scores, seek statistics and the choice of the file to start from: any file may be chosen.
- A compaction is one step of the store; the memtable flush inside a running one is not modelled.
- The merging iterator is a two-way merge of its inputs; its own cursor protocol is not modelled.
- Background errors, failed writes and repair.cc, which puts every table at level 0.
- Builder.Build: assumes that no number is added on a level where it has been before; Manifest.RunReplays proves that of every run.
- Database.Step: a batch is written entry by entry, so that more states have readers than in the code; GroupCommit says that readers see whole groups.  Compactions that uncover a value (Boundary.Uncovers) are no steps, since they change what is read; Database.CompactKeepsInvIff says that they are the only ones.
- Compaction.DecideDrop: takes the smallest snapshot to be below kMaxSequenceNumber, the value that last_sequence_for_key starts from.
- WriteBatches.WriteBatch.Put: counts stay below 2^31, where the code's int would overflow, and strings below 2^32, where a length prefix would be cut.
- Recovery.RecoverLogFile: a log whose bytes were altered is replayed as the code does it, but what comes of it is not specified.
- GroupCommit.StepKeepsInv: no write fails; a sync puts all of the log written so far on disk.
- SkipLists.SkipList.Insert: heights are given, not drawn; stores take effect in order (sequential consistency).
- ThreadPool.StepKeepsRequests: a request is cancelled by one thread at a time and not after its callback has begun, as uv_cancel asks of its callers.
- Heaps.Heap.Insert: nodes are numbers whose links are kept in one sequence, so that nothing is said about pointers into freed memory.
- Timers.Loop.RunTimers: callbacks make finitely many calls in all, since otherwise the loop need not end; the 64-bit start counter does not wrap around, and the time is below the greatest 64-bit number, where repeating timers would always be due.
- Punycode.ToAsciiLabel: starts from code points and writes without a limit; UTF-8 decoding and a full output buffer are not modelled.
- nanopb's callbacks, extensions, pointer fields, arrays of fixed count and field defaults other than zero; float and double are their bits.
- nanopb's structs are slots by index, not offsets: fields of a union do not share their storage, but at most one of them is there. A message being read is passed on by value.
- PbFormat.MessageOk: a string has room for its zero; nested messages and packed arrays take less than 2^32 bytes, as the reader's lengths are 32 bits wide.
- PbDecode.IStream.DecodeVarint32: adds groups of bits where the code ORs them, which differs only in varints padded to more than 36 bytes; what becomes of over-long varints is not specified.
- PbMessage.DecodeMessage: in a message without fields, a tag of zero with some wire type is skipped, where the code takes the descriptor's terminator for a field.
- PbMessage.DecodeMessage: a nested message that comes more than once, and a packed array in several pieces, are merged as the code merges them, and parts of nested messages may come in any order; what comes of these is specified only as far as storage goes.
- Reopen.CrashAndReopen: compactions before the crash uncover nothing in the tables alone (Durable.DurableStep), since a value that only memory covers comes back when memory is lost; the log of a frozen memtable, closed before the current one was begun, is whole; the encoding of manifest records is not modelled.
