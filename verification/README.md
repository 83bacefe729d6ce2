# LevelDB, modelled and proved

The app in this repository keeps its data in the vendored LevelDB
(`ios/Pods/leveldb-library`), a log-structured merge tree with snapshots, background
compaction, a write-ahead log and a manifest. This project models that store in Dafny, layer by
layer, and proves that every layer agrees with one definition: a store is a set of entries
(user key, sequence number, type, value), and a read of a key at a snapshot returns the newest
entry with a sequence number at most that snapshot, a deletion counting as absent
(`Format.Read`). The codec that the app's vendored nanopb (`ios/Pods/nanopb`) uses for its messages
is modelled beside it.

`dafny verify dfyconfig.toml` checks everything. The modules build on one another as follows.

- **Entries and reads.** `Format` has the internal-key order, the meaning of a read, and why a
  search may stop at its first hit.
- **Versions and compaction.** `Versions` has the file searches, point lookup, the level picked
  for a flushed memtable and the overlap closure. `VersionBuilder` applies edits.
  `CompactionInputs` chooses what is compacted. `Merger` is the merging iterator.
  `CompactionWork` is the compaction loop with its rules for dropping entries, `OutputCuts` says
  where its outputs end, and `CompactionReads` what that does to reads.
- **The store as a state machine.** `Database` has the state, the invariant and the steps: write,
  memtable switch, flush, trivial move, compaction, taking and releasing a snapshot. File numbers
  may leave gaps, and a compaction may have begun many steps before it is installed.
  `DatabaseInvariant`, `DatabaseRuns` and `DatabaseReads` prove the invariant over all runs and
  what every step does to reads. `DbImpl` is the store as an object; each of its methods takes one
  such step. `Resurrection` is the counterexample described below.
- **Writers in a queue.** `GroupCommit` is the queue in front of a write: who leads, which batches
  join a group, who is told what. `WriteBatches` has the bytes of a batch. `DurabilityWriters` runs
  the queue over the durable store.
- **Iterators.** `DbIter` is the iterator users see, over the merging iterator; `StoreIterators`
  makes one over both memtables and all tables.
- **Memtables.** `SkipLists` is the skip list in its arena, published link by link;
  `SkipListReaders` runs searches beside an insertion, in any interleaving, and
  `SkipListTermination` bounds their reads; `MemTables` is the table of entries on top.
- **Table files.** `Comparators` has the orders on bytes and the separators, `KeyEncoding` ties the
  bytes of keys to their ranks. `Blocks` and `BlockIter` write and read blocks, `Bloom` and
  `FilterBlocks` filters, `TableFormat` handles, footer and checksums. `TableLayout` says what a
  table is, `TableBuilders` writes one, `Tables` looks keys up in it, `TwoLevel` is the
  two-level iterator over any index and blocks, `TableIterators` that of a table, over the cursors of
  its blocks in the file, and `TableFiles` makes a table of a run of entries and reads it back.
- **The cache.** `HandleTables` is the hash table and `LRUCaches` the cache, on a heap of handles
  with their links.
- **Persistence.** `Crc32c` has the checksum and its four-stride form. `LogFormat`, `LogWriter`,
  `LogReader` and `LogRoundTrip` are the write-ahead log. `Coding` and `VersionEditCodec` encode
  edits, `Manifests` logs and replays them, `ManifestRuns` follows the edits of a run, and
  `ManifestFile` goes from the bytes of a torn manifest to the recovered version. `Durability`,
  `DurabilitySteps`, `DurabilityRestart`, `DurabilityRuns` and `DurabilityManifest` are a second
  state machine, over the one in `Database`, with the disk, background work in small steps, removal
  of obsolete files and crashes, also during recovery. `DurabilityFiles` and `DurabilityLogs` have
  its manifest and logs as bytes, torn anywhere.
- **Messages.** `NanopbFormat` has schemas and encodings, `NanopbEncode` the encoder on its stream,
  `NanopbDecode` what decoding means, `NanopbFields` the field iterator and the decoder that goes
  round with it. `NanopbRoundTrip` has the round trips of single values, `NanopbMerge` those of
  messages, also into one that is there, `NanopbCompatibility` senders and receivers with different
  versions of a type, `NanopbBounds` what any bytes can lead to, and what is refused.

## Main results

- **Every read is right, in every run, exactly when no compaction brings a deleted key back**
  (`DatabaseReads.RunReadsHistory`): whatever the order of writes, switches, flushes, moves,
  compactions and snapshot calls. `DatabaseReads.CompactionReadsExactly` says, for one compaction
  and one key, exactly when that happens.
- **A background compaction is determined by the store and the request**: which files go in
  (`CompactionInputs.AreChosen`, exact by `CompactionInputs.InputsDetermined`), which entries come out
  (`DbImpl.KeepsWhatIsNeeded`), and where its tables end (`CompactionWork.OutputsDetermined`), all in
  the contract of `DbImpl.DBImpl.BackgroundCompaction`.
- **No acknowledged write is lost** (`DurabilityRuns.NoAcknowledgedWriteIsLost`): the same
  equivalence for runs with any number of crashes, also crashes of a recovery, logs replayed on
  restart and obsolete files removed on the way.
- **The manifest never lies**: along every run no file number is added twice at a level and the
  edits lead to the version in use (`ManifestRuns.NumbersStayFresh`,
  `DurabilityManifest.ManifestIsPromised`); cut off at any byte, the file recovers to the version
  after the edits that are whole in it (`ManifestFile.ManifestRecovers`,
  `ManifestFile.RunRecovers`). In every state of every run with crashes the file on disk recovers to
  the version and the numbers a restart starts from, and a crash inside an edit leaves those before
  it (`DurabilityFiles.ManifestOnDisk`, `DurabilityFiles.TornEdit`).
- **A restart from torn bytes** of the current log finds the store without the batches that are not
  whole in it, which are the newest (`DurabilityLogs.RestartFromPrefix`, `DurabilityLogs.TornWrite`).
- **The user's iterator is a cursor over the sorted map of live keys**, through any mix of moves
  and changes of direction (`DbIter.MovesOfTheMapCursor` with the contracts of `DbIter.DBIter`),
  over the whole store (`StoreIterators.IteratorShowsReads`).
- **A search of the skip list is right beside any insertion, and ends**
  (`SkipListReaders.SearchFindsWhatWasThere`, `SkipListReaders.ReadStaysOnPath`,
  `SkipListTermination.SearchEnds`).
- **A table file answers as the run it was built from** (`TableFiles.BuildTable`,
  `TableFiles.TableGet`), through index separators, restart points, Bloom filters and checksums, and
  its iterator is a cursor over all its entries (the contracts of `TableIterators.TableIterator`).
- **A group of writers is applied exactly once, in queue order** (`GroupCommit.AppliedExactlyOnce`,
  `GroupCommit.NumbersInQueueOrder`). It is one batch of the log, and what a writer was told
  succeeded is among the writes that no restart loses (`DurabilityWriters.StepKeepsCoupled`,
  `DurabilityWriters.SuccessIsAcknowledged`).
- **The cache never frees what is in use and stays within its capacity**
  (`LRUCaches.LRUCache.Insert` and the other contracts of that class).
- **A log cut off anywhere reads back as the records that are whole in it**
  (`LogRoundTrip.TornTail`), with the real checksum (`Crc32c.Extend`, `Crc32c.MaskRoundTrip`).
- **Every message decodes from its encoding to itself** (`NanopbMerge.MessageRoundTrip`), also
  through the encoder's buffer and the decoder's loop (`NanopbFields.SendAndReceive`), and sizing
  agrees with writing (`NanopbEncode.EncodeToBuffer`). Decoding into a message that is there merges
  the two (`NanopbMerge.DecodingMerges`). Older and newer versions of a message type read each other,
  unless a required field is missing (`NanopbCompatibility.OlderReceiver`,
  `NanopbCompatibility.OlderSender`). Whatever bytes come in, the message stays within its structure
  (`NanopbBounds.DecodedInBounds`).

## Where the code does not keep its promise

`SetupOtherInputs` looks for boundary files at the compacted level only, not at the next one
(`ios/Pods/leveldb-library/db/version_set.cc:1407-1411`). A file left out there may hold an older
value of a user key whose tombstone is an input; the compaction then drops the tombstone, because
no deeper level has the key, and the old value shows again. `Resurrection.DeletedKeyReturns` gives
such a store, reached from the empty one by steps the code takes
(`Resurrection.CompactionsAsMade`), and `DatabaseReads.CompactionReadsExactly` proves that this is the
only way in which a compaction changes a read. `VersionEdit::Clear` leaves the compaction pointers in place
(`ios/Pods/leveldb-library/db/version_edit.cc:26-39`), so an edit decodes to itself exactly when it
is decoded into one without any (`VersionEditCodec.EditRoundTrip`). One builder over many edits is
wrong when a file number comes back at a level (`Manifests.NumberAddedTwice`); it is right
otherwise (`Manifests.OneBuilderSuffices`), and in runs of the store no number does come back. The
log reader gives its own end-of-file and bad-record codes the numbers after the last record type,
so a fragment that is stored with such a type is taken for the end of the file or for a bad record
(`ios/Pods/leveldb-library/db/log_reader.h:62-72`); the model does the same. nanopb encodes a string
that fills its buffer to the last byte, and does not decode it
(`NanopbRoundTrip.StringNeedsTerminator`). Its 32-bit varints keep their bit position in eight bits
(`ios/Pods/nanopb/pb_decode.c:213-235`), which wrap after 36 bytes: 37 bytes 0x80 and then 0x01
should be refused and decode to 8 (`NanopbRoundTrip.PaddedVarint`).

## How things are modelled

- In the store a user key is its rank in the comparator's order, a rational number: the comparator
  only ever compares keys. Whatever byte strings are in use, they have such ranks
  (`KeyEncoding.RanksExist`), and the order of internal keys is that of their bytes
  (`KeyEncoding.KeysAlike`). Sequence numbers have 56 bits, as in the packed tag.
- In the store a table is its number, its size and its sorted, non-empty entries; its smallest and
  largest keys are those of its first and last entry. `TableFiles` relates that to the file. The size
  of a table being built is an unknown function of its entries. The state machine lets a compaction
  cut its output anywhere; `DbImpl.DBImpl.Merge` cuts it where the loop does.
- A version is seven lists of files. `std::set` and `std::sort` are the functions they compute.
- Arena pointers are indices into a growing sequence of nodes. One step of a concurrent reader reads
  one link; one step of the inserting thread writes one. The height a reader or an insertion sees is
  arbitrary, as the code only reads it without synchronisation.
- What the code does while it holds its mutex is one step. What it does without it (building a
  table, logging a batch, recording an edit) ends one step and begins another.
- Recoveries that crash leave tables and empty logs behind, under file numbers that no version has;
  a restart is the recovery that succeeds, with whatever the others left.
- Hash functions are unknown functions. The cache's handles are objects with links; what was freed
  is a list of handles.
- nanopb is modelled with its bit positions in eight bits (`uint_fast8_t`). Its sizes are unbounded:
  the app builds it with 32-bit fields, and a size that is itself a `pb_size_t` is never above the
  largest one.
- nanopb's table of fields has an entry for each member of a oneof; the bits for required fields that
  were seen are a set of numbers below 64.
- A byte is a number below 256. Words of the checksum are bit vectors.

## Model

| member | source | states |
|---|---|---|
| Format.Compare | ios/Pods/leveldb-library/db/dbformat.cc:51-67 | sign of the comparison agrees with the order by user key ascending and packed tag descending; zero only for equal keys |
| Format.SeekSkipsExactlyTheUnseen | ios/Pods/leveldb-library/db/dbformat.cc:121-139 | seeking to (key, snapshot) skips smaller user keys and entries of the key newer than the snapshot, and nothing else |
| Format.SearchMayStop | ios/Pods/leveldb-library/db/db_impl.cc:1117-1133 | a search that goes from newer to older parts may stop at its first hit |
| Format.PointGetIsNewest | ios/Pods/leveldb-library/db/memtable.cc:100-134 | a lookup by seek finds the newest visible entry of the key, and nothing exactly when there is none |
| Format.NewestExists | ios/Pods/leveldb-library/db/db_impl.cc:1100-1145 | if any entry is seen there is a newest one, so a read is defined by it |
| Versions.FindFile | ios/Pods/leveldb-library/db/version_set.cc:88-106 | binary search: the first file whose largest key is at or after the target |
| Versions.SomeFileOverlapsRange | ios/Pods/leveldb-library/db/version_set.cc:122-157 | true if and only if some file overlaps the user-key range, for sorted and unsorted levels, open ends included |
| Versions.GetOverlappingInputs | ios/Pods/leveldb-library/db/version_set.cc:519-559 | all and only the files overlapping a range; at level 0 that of the least range closed under overlap, in which no file sticks out; the restarts terminate |
| Versions.PickLevelForMemTableOutput | ios/Pods/leveldb-library/db/version_set.cc:491-516 | the level a flushed table goes to: nothing overlaps at it or above, and the descent went on exactly as long as it may |
| Versions.Get | ios/Pods/leveldb-library/db/version_set.cc:326-421 | newest-first search of level 0 and binary search below return the newest visible entry of all tables |
| Versions.GetFromLevel0 | ios/Pods/leveldb-library/db/version_set.cc:343-362 | overlapping level-0 files, newest number first: the first hit is the newest entry of the level |
| Versions.GetFromSortedLevel | ios/Pods/leveldb-library/db/version_set.cc:363-383 | the one file found by binary search decides for the whole level |
| VersionBuilder.InOrderIsCanonical | ios/Pods/leveldb-library/db/version_set.cc:592-605 | a level listed by smallest key is determined by its set of files |
| VersionBuilder.Builder.Apply | ios/Pods/leveldb-library/db/version_set.cc:650-692 | an edit updates the deleted numbers and added files of each level as the specification says |
| VersionBuilder.Builder.SaveTo | ios/Pods/leveldb-library/db/version_set.cc:695-739 | each level of the saved version is the merge of base and added files without the deleted |
| VersionBuilder.SaveLevel | ios/Pods/leveldb-library/db/version_set.cc:698-723 | the interleaved copying of base and added files produces the merge, deleted files left out |
| VersionBuilder.SaveHolds | ios/Pods/leveldb-library/db/version_set.cc:695-751 | a saved level holds exactly base and added files that are not deleted, and is in order |
| VersionBuilder.EditedLevel | ios/Pods/leveldb-library/db/version_set.cc:650-739 | one edit: the files of a level afterwards are the undeleted old ones and the added ones, in order |
| VersionBuilder.ApplyEdit | ios/Pods/leveldb-library/db/version_set.cc:817-823 | building a version from the current one and an edit |
| CompactionInputs.GetRange | ios/Pods/leveldb-library/db/version_set.cc:1205-1224 | the smallest and the largest key of a set of files |
| CompactionInputs.FindSmallestBoundaryFile | ios/Pods/leveldb-library/db/version_set.cc:1344-1362 | the first file that begins after the largest key with the same user key |
| CompactionInputs.AddBoundaryInputs | ios/Pods/leveldb-library/db/version_set.cc:1378-1401 | the chain of boundary files; it terminates |
| CompactionInputs.CompletedSeed | ios/Pods/leveldb-library/db/version_set.cc:1378-1411 | after adding boundary files, whatever stays behind at the level is newer than the inputs, user key by user key |
| CompactionInputs.OverlappingIsRun | ios/Pods/leveldb-library/db/version_set.cc:519-559 | at a sorted level the overlapping files are consecutive |
| CompactionInputs.SetupOtherInputs | ios/Pods/leveldb-library/db/version_set.cc:1403-1462 | the seed completed with boundary files and what it overlaps below, or the expansion of both exactly when there are more files above, no more below and fewer bytes than the limit; these are a closed selection above and all overlapping files below; grandparents |
| CompactionInputs.InputsDetermined | ios/Pods/leveldb-library/db/version_set.cc:1403-1462 | version and seed determine the inputs |
| CompactionInputs.LowerInputsStay | ios/Pods/leveldb-library/db/version_set.cc:1433-1443 | an expansion changes the upper inputs only |
| CompactionInputs.ChosenHold | ios/Pods/leveldb-library/db/version_set.cc:1464-1495 | the inputs hold the file an automatic compaction is built around; of a manual range all overlapping files at level 0, and below it the first ones up to the size limit |
| Versions.SelectionIsUnique | ios/Pods/leveldb-library/db/version_set.cc:519-559 | a range selects one list of files |
| CompactionInputs.PickCompaction | ios/Pods/leveldb-library/db/version_set.cc:1270-1322 | an automatic compaction starts from exactly one file, the one charged or the first past the pointer, at level 0 with its overlap closure |
| CompactionInputs.CompactRange | ios/Pods/leveldb-library/db/version_set.cc:1464-1495 | a manual compaction starts from exactly the overlapping files, cut off by size below level 0 |
| Merger.MergingIterator.SeekToFirst | ios/Pods/leveldb-library/table/merger.cc:31-37 | the cursor is on the first entry of the merge |
| Merger.MergingIterator.SeekToLast | ios/Pods/leveldb-library/table/merger.cc:39-45 | the cursor is on the last entry of the merge |
| Merger.MergingIterator.Seek | ios/Pods/leveldb-library/table/merger.cc:47-53 | the cursor is on the first entry at or after the target |
| Merger.MergingIterator.Next | ios/Pods/leveldb-library/table/merger.cc:55-79 | the cursor moves one entry on, from either direction |
| Merger.MergingIterator.Prev | ios/Pods/leveldb-library/table/merger.cc:81-108 | the cursor moves one entry back, from either direction |
| Merger.MergingIterator.FindSmallest | ios/Pods/leveldb-library/table/merger.cc:148-161 | the child with the smallest current key |
| Merger.MergingIterator.FindLargest | ios/Pods/leveldb-library/table/merger.cc:163-176 | the child with the largest current key |
| Merger.MergeExists | ios/Pods/leveldb-library/db/version_set.cc:1237-1268 | sorted runs that share no key have a merge, with exactly their entries |
| CompactionWork.Compaction.IsBaseLevelForKey | ios/Pods/leveldb-library/db/version_set.cc:1533-1552 | with level pointers that only move forward: true if and only if no file below the output level has the key in its range |
| CompactionWork.Compaction.ShouldStopBefore | ios/Pods/leveldb-library/db/version_set.cc:1554-1576 | skips the grandparents before the key, adds up their bytes, and says stop exactly when that exceeds the limit; then counting starts anew |
| CompactionWork.DropEntry | ios/Pods/leveldb-library/db/db_impl.cc:929-975 | an entry is dropped exactly when it is hidden by a newer one that all readers see, or is a tombstone that hides nothing |
| CompactionWork.CompactEntry | ios/Pods/leveldb-library/db/db_impl.cc:917-996 | one entry: the outputs so far are the survivors of the input so far |
| CompactionWork.DoCompactionWork | ios/Pods/leveldb-library/db/db_impl.cc:878-1012 | the output files, concatenated, are exactly the surviving entries, with consecutive numbers; a file ends exactly where it is big enough, where the grandparents passed since the last stop exceed the limit, or at the end |
| CompactionWork.CutOutputBefore | ios/Pods/leveldb-library/db/db_impl.cc:920-927 | the open output is closed before an entry exactly at a stop |
| OutputCuts.StopsExactly | ios/Pods/leveldb-library/db/version_set.cc:1554-1576 | a stop is where the sizes of the grandparents passed since the last stop, or since the first key, first exceed ten times the maximum file size |
| OutputCuts.EntryHandled | ios/Pods/leveldb-library/db/db_impl.cc:970-990 | after every entry the outputs end where they have to, and the open one nowhere yet |
| Format.OneWayToCut | ios/Pods/leveldb-library/db/db_impl.cc:917-996 | a sequence is cut in one way only into parts that end exactly where they have to |
| CompactionReads.HiddenLooksOneBack | ios/Pods/leveldb-library/db/db_impl.cc:946-961 | remembering the sequence number of the entry before is enough to decide what is hidden |
| CompactionReads.SurvivorsHold | ios/Pods/leveldb-library/db/db_impl.cc:929-996 | which entries survive, as a property of the set of inputs |
| CompactionReads.CompactionPreservesReads | ios/Pods/leveldb-library/db/db_impl.cc:929-996 | reads of a key at all snapshots from the smallest on are preserved if and only if nothing left at the output level shows through a dropped tombstone |
| CompactionReads.ResurrectionIsVisible | ios/Pods/leveldb-library/db/version_set.cc:1407-1411 | if something shows through, some read does change |
| DatabaseInvariant.ReplacedVersionOk | ios/Pods/leveldb-library/db/version_set.cc:1403-1462 | exchanging inputs for outputs keeps levels sorted, disjoint and ordered by age |
| DatabaseInvariant.LeftOutIsClear | ios/Pods/leveldb-library/db/version_set.cc:1411-1450 | files left out at the output level are disjoint from everything the inputs span |
| DatabaseInvariant.CompactedVersion | ios/Pods/leveldb-library/db/db_impl.cc:860-876 | installing a compaction keeps the version well formed; outputs are disjoint from all untouched files of their level |
| DatabaseInvariant.MovedVersion | ios/Pods/leveldb-library/db/db_impl.cc:718-734 | a trivial move keeps the version well formed and its entries |
| DatabaseInvariant.FlushedVersion | ios/Pods/leveldb-library/db/db_impl.cc:491-533 | a flushed memtable, at any level that may be picked, keeps the version well formed and adds its entries |
| DatabaseRuns.StepKeepsInv | ios/Pods/leveldb-library/db/db_impl.cc:688-767 | every step keeps the invariant: levels sorted and disjoint, memtable newer than immutable memtable newer than tables, ages by level and by number |
| DatabaseRuns.WriteKeepsInv | ios/Pods/leveldb-library/db/db_impl.cc:1204-1236 | a write adds exactly its batch |
| DatabaseRuns.FlushKeepsInv | ios/Pods/leveldb-library/db/db_impl.cc:535-566 | a flush keeps the set of entries |
| DatabaseRuns.CompactKeepsInv | ios/Pods/leveldb-library/db/db_impl.cc:878-1036 | a compaction keeps the invariant and adds no entry |
| DatabaseReads.CompactionReadsExactly | ios/Pods/leveldb-library/db/db_impl.cc:878-1036 | in any legal store, for any sequence number at or after the oldest needed one: all reads of a key from there on stay the same if and only if the inputs do not resurrect the key there |
| DatabaseReads.NoSharedKeyIsSafe | ios/Pods/leveldb-library/db/version_set.cc:1407-1411 | a condition that can be checked beforehand: no left-out file of the output level shares a user key with the inputs |
| DatabaseReads.StoreKept | ios/Pods/leveldb-library/db/db_impl.cc:535-566 | switch, flush, move and snapshot calls change no entry |
| DatabaseReads.WriteReads | ios/Pods/leveldb-library/db/db_impl.cc:1185-1256 | a write leaves earlier snapshots alone; now its last operation on a key decides |
| DatabaseReads.RunKeepsInv | ios/Pods/leveldb-library/db/db_impl.cc:688-767 | the invariant holds in every state of every run |
| DatabaseReads.RunReadsHistory | ios/Pods/leveldb-library/db/db_impl.cc:1100-1145 | in every run: all reads that may be asked for, in all its states, agree with the whole history of writes if and only if no compaction of the run resurrects a key that a reader may ask for |
| Resurrection.DeletedKeyReturns | ios/Pods/leveldb-library/db/version_set.cc:1407-1411 | a concrete run from the empty store, ending in a compaction of the inputs the code selects, after which a deleted key reads as its old value |
| DbImpl.InputMerge | ios/Pods/leveldb-library/db/version_set.cc:1237-1268 | the input iterator of a compaction runs over the merge of its files; no key occurs twice |
| DbImpl.FirstHitAnswers | ios/Pods/leveldb-library/db/db_impl.cc:1117-1133 | memtable, immutable memtable and tables in turn give the value of the newest entry |
| DbImpl.DBImpl.Get | ios/Pods/leveldb-library/db/db_impl.cc:1100-1145 | returns the value of the key at the snapshot, or now |
| DbImpl.DBImpl.Write | ios/Pods/leveldb-library/db/db_impl.cc:1185-1256 | one write step: entries with consecutive sequence numbers |
| DbImpl.DBImpl.SwitchMemTable | ios/Pods/leveldb-library/db/db_impl.cc:1343-1366 | one switch step, only while no memtable waits to be flushed |
| DbImpl.DBImpl.CompactMemTable | ios/Pods/leveldb-library/db/db_impl.cc:535-566 | one flush step to the level picked |
| DbImpl.DBImpl.BackgroundCompaction | ios/Pods/leveldb-library/db/db_impl.cc:688-767 | one step: a flush if a memtable waits; else a compaction of exactly the inputs that the request asks for, or a trivial move exactly when the code moves; nothing only for a manual request that nothing overlaps |
| DbImpl.DBImpl.MoveFile | ios/Pods/leveldb-library/db/db_impl.cc:718-734 | one trivial move step |
| DbImpl.DBImpl.Merge | ios/Pods/leveldb-library/db/db_impl.cc:735-745 | one compaction step, with the real loop, merging iterator and level pointers: by the smallest snapshot of that moment it writes all entries but hidden ones and tombstones that hide nothing, in tables cut where the loop cuts |
| DbImpl.KeepsWhatIsNeeded | ios/Pods/leveldb-library/db/db_impl.cc:890-975 | no entry is written that a newer one hides from all snapshots, nor a tombstone that hides nothing; every other one is |
| DbImpl.DBImpl.ChooseInputs | ios/Pods/leveldb-library/db/db_impl.cc:697-716 | the inputs the request asks for, or none |
| DbImpl.DBImpl.GetSnapshot | ios/Pods/leveldb-library/db/db_impl.cc:1166-1169 | pins the current sequence number |
| DbImpl.DBImpl.ReleaseSnapshot | ios/Pods/leveldb-library/db/db_impl.cc:1171-1174 | unpins one snapshot |
| DbIter.LivePositionsAreReads | ios/Pods/leveldb-library/db/db_iter.cc:168-198 | positions the iterator may stop at are exactly the keys whose read finds a value, with that value |
| DbIter.DBIter.FindNextUserEntry | ios/Pods/leveldb-library/db/db_iter.cc:168-198 | the first live position whose key is past the skipped one |
| DbIter.DBIter.FindPrevUserEntry | ios/Pods/leveldb-library/db/db_iter.cc:227-267 | the last live position at or before the internal iterator |
| DbIter.DBIter.Next | ios/Pods/leveldb-library/db/db_iter.cc:141-166 | the next live position, from either direction |
| DbIter.DBIter.Prev | ios/Pods/leveldb-library/db/db_iter.cc:200-225 | the previous live position, from either direction |
| DbIter.DBIter.Seek | ios/Pods/leveldb-library/db/db_iter.cc:269-281 | the first live position at or after the target |
| DbIter.DBIter.SeekToFirst | ios/Pods/leveldb-library/db/db_iter.cc:283-292 | the first live position |
| DbIter.DBIter.SeekToLast | ios/Pods/leveldb-library/db/db_iter.cc:294-299 | the last live position |
| DbIter.MovesOfTheMapCursor | ios/Pods/leveldb-library/db/db_iter.cc:141-299 | these are the moves of a cursor over the sorted map of live keys: successor, predecessor, ceiling, first, last |
| SkipLists.PublishSplices | ios/Pods/leveldb-library/db/skiplist.h:361-367 | publishing a prepared node splices it into its level, in key order |
| SkipLists.PublishKeepsOk | ios/Pods/leveldb-library/db/skiplist.h:361-367 | after every single link each level is a sorted sublist of the one below |
| SkipLists.SkipList.FindGreaterOrEqual | ios/Pods/leveldb-library/db/skiplist.h:262-281 | the first node at or after the target, and the last node before it on every level in use |
| SkipLists.SkipList.FindLessThan | ios/Pods/leveldb-library/db/skiplist.h:285-302 | the last node before the target, or the head |
| SkipLists.SkipList.FindLast | ios/Pods/leveldb-library/db/skiplist.h:305-322 | the last node, or the head |
| SkipLists.SkipList.Insert | ios/Pods/leveldb-library/db/skiplist.h:337-368 | the old entries and the new one, in order; the list is in order between any two links |
| SkipLists.SkipList.Contains | ios/Pods/leveldb-library/db/skiplist.h:371-378 | whether the key is in the list |
| SkipLists.Iterator.Next | ios/Pods/leveldb-library/db/skiplist.h:207-210 | the next entry |
| SkipLists.Iterator.Prev | ios/Pods/leveldb-library/db/skiplist.h:213-221 | the previous entry, found by searching again |
| SkipLists.Iterator.Seek | ios/Pods/leveldb-library/db/skiplist.h:224-226 | the first entry at or after the target |
| SkipLists.Iterator.SeekToFirst | ios/Pods/leveldb-library/db/skiplist.h:229-231 | the first entry |
| SkipLists.Iterator.SeekToLast | ios/Pods/leveldb-library/db/skiplist.h:234-239 | the last entry |
| SkipListReaders.LinksFixLists | ios/Pods/leveldb-library/db/skiplist.h:262-281 | what following the links from the head visits is determined by the memory |
| SkipListReaders.ReadStaysOnPath | ios/Pods/leveldb-library/db/skiplist.h:262-322 | one read keeps a search on its path; the one that ends it reports the right nodes for the list as it then is |
| SkipListReaders.StepKeepsInv | ios/Pods/leveldb-library/db/skiplist.h:337-368 | every step of the inserting thread and of a search, in any interleaving, keeps all levels in order and the search on its path |
| SkipListReaders.SearchFindsWhatWasThere | ios/Pods/leveldb-library/db/skiplist.h:262-281 | a search for a key that was in the list when it began finds it, from whatever height and whatever is inserted meanwhile |
| SkipListReaders.InsertionAddsExactly | ios/Pods/leveldb-library/db/skiplist.h:337-368 | beside any searches, the list holds the old entries until the first link and exactly the new one more from then on |
| MemTables.MemTable.Add | ios/Pods/leveldb-library/db/memtable.cc:75-98 | the memtable gains exactly the entry |
| MemTables.MemTable.Get | ios/Pods/leveldb-library/db/memtable.cc:100-134 | the newest visible entry of a key, or nothing exactly when there is none |
| Crc32c.ExtendComposes | ios/Pods/leveldb-library/util/crc32c.h:14-17 | extending a checksum is checksumming the longer string |
| Crc32c.ByteStepLinear | ios/Pods/leveldb-library/util/crc32c.cc:290-294 | advancing a remainder is linear over exclusive or |
| Crc32c.TableTakesByte | ios/Pods/leveldb-library/util/crc32c.cc:289-294 | one table lookup takes in one byte |
| Crc32c.TablesAdvanceStride | ios/Pods/leveldb-library/util/crc32c.cc:296-304 | four lookups advance a word by sixteen bytes |
| Crc32c.StridesRotate | ios/Pods/leveldb-library/util/crc32c.cc:349-358 | advancing the oldest partial remainder and putting it last takes in one word |
| Crc32c.Step4 | ios/Pods/leveldb-library/util/crc32c.cc:296-304 | one word of one stride |
| Crc32c.Extend | ios/Pods/leveldb-library/util/crc32c.cc:276-377 | for every length and alignment the prologue, the four strides, the rotating tail, the combination and the last bytes compute the bitwise checksum |
| Crc32c.MaskRoundTrip | ios/Pods/leveldb-library/util/crc32c.h:29-38 | masking a stored checksum is undone by unmasking, and the other way round |
| Crc32c.KnownMasks | ios/Pods/leveldb-library/util/crc32c.h:22-32 | the masks of three checksums |
| Crc32c.KnownRows | ios/Pods/leveldb-library/util/crc32c.cc:19-64 | the rows of single bits in the byte table, from which the others follow |
| Crc32c.KnownStrides | ios/Pods/leveldb-library/util/crc32c.cc:66-243 | the first row of each stride table |
| LogFormat.Fixed32RoundTrip | ios/Pods/leveldb-library/util/coding.h:60-73 | a stored 32-bit word reads back |
| LogWriter.Writer.AddRecord | ios/Pods/leveldb-library/db/log_writer.cc:34-80 | appends exactly the framed record; where it is cut depends only on the length of the file |
| LogWriter.Writer.Reopen | ios/Pods/leveldb-library/db/log_writer.cc:25-28 | a writer that goes on with a file of any length is as good as the one that wrote it |
| LogWriter.Writer.EmitPhysicalRecord | ios/Pods/leveldb-library/db/log_writer.cc:82-108 | appends one fragment with checksum, length and type |
| LogReader.Reader.ReadPhysicalRecord | ios/Pods/leveldb-library/db/log_reader.cc:189-271 | the next fragment with its type byte, the end of the file, or a stretch to drop, for any file whatever |
| LogReader.Reader.ReadRecord | ios/Pods/leveldb-library/db/log_reader.cc:56-174 | the next record or the end of the file, and which corruptions are reported, for any file whatever, type bytes past the last record type included |
| LogRoundTrip.RecordRead | ios/Pods/leveldb-library/db/log_reader.cc:56-271 | the bytes of a record read back as it; cut short, they read as the end of the file; nothing is reported |
| LogRoundTrip.TornTail | ios/Pods/leveldb-library/db/log_reader.cc:56-271 | any byte prefix of a log reads back as exactly the records whose last fragment lies in it, in order, without a report |
| LogRoundTrip.LogRoundTrips | ios/Pods/leveldb-library/db/log_reader.cc:56-174 | a whole log reads back as what was written |
| LogRoundTrip.WholeIsByEnd | ios/Pods/leveldb-library/db/log_writer.cc:34-80 | a record is whole in a prefix exactly when the prefix reaches the end of its last fragment |
| LogRoundTrip.ReopenedLog | ios/Pods/leveldb-library/db/log_writer.cc:25-28 | writing in two sessions gives the bytes of one |
| Coding.VarintRoundTrip | ios/Pods/leveldb-library/util/coding.cc:81-90 | a varint decodes to its value and length, whatever follows |
| Coding.EncodeVarint32 | ios/Pods/leveldb-library/util/coding.cc:47-73 | the five cases write the varint |
| Coding.EncodeVarint64 | ios/Pods/leveldb-library/util/coding.cc:81-90 | the loop writes the varint |
| Coding.GetVarintPtr | ios/Pods/leveldb-library/util/coding.cc:112-157 | the decoding loop: value and length, or nothing when the input or the limit ends first |
| Coding.VarintsAreShort | ios/Pods/leveldb-library/util/coding.cc:112-157 | a 32-bit varint ends with the first byte below 128 among the first five, a 64-bit one among ten; other input is refused |
| Coding.LengthPrefixedRoundTrip | ios/Pods/leveldb-library/util/coding.cc:181-190 | a length-prefixed string reads back |
| VersionEditCodec.EncodeTo | ios/Pods/leveldb-library/db/version_edit.cc:41-85 | writes the tagged fields in their order |
| VersionEditCodec.DecodeFrom | ios/Pods/leveldb-library/db/version_edit.cc:107-205 | decodes any input, with the error for each malformed field |
| VersionEditCodec.FieldsRoundTrip | ios/Pods/leveldb-library/db/version_edit.cc:107-205 | any fields in any order decode one by one |
| VersionEditCodec.DecodedOver | ios/Pods/leveldb-library/db/version_edit.cc:26-205 | decoding restores every field, behind compaction pointers already there |
| VersionEditCodec.EditRoundTrip | ios/Pods/leveldb-library/db/version_edit.cc:26-39 | an edit decodes to itself if and only if it is decoded into one without compaction pointers |
| ManifestFile.RecordMeans | ios/Pods/leveldb-library/db/version_set.cc:1088-1116 | the record of an edit, decoded among tables that have been written, stands for that edit |
| ManifestFile.RecordExists | ios/Pods/leveldb-library/db/version_set.cc:801-884 | every edit within the widths of the format has a record |
| ManifestFile.ManifestRecovers | ios/Pods/leveldb-library/db/version_set.cc:886-1011 | a manifest cut off at any byte recovers to the version, log number, next file number and last sequence number after the edits that are whole in it; with less than one complete edit it is corrupt |
| ManifestFile.RunRecovers | ios/Pods/leveldb-library/db/version_set.cc:886-1011 | for any run and any cut: the version as it was after the last step whose edit is whole in the file; the tables are those the edits add |
| ManifestRuns.RunTold | ios/Pods/leveldb-library/db/version_set.cc:801-884 | along every run each file number stands for one file, which has only moved down, and the logged edits lead to the version in memory |
| ManifestRuns.NumbersStayFresh | ios/Pods/leveldb-library/db/version_set.cc:801-884 | no file number is added twice at a level in any run, which is what one builder needs |
| DurabilityManifest.DurableManifest | ios/Pods/leveldb-library/db/db_impl.cc:280-369 | the same with crashes: a restart begins a new manifest with a snapshot and one edit for all recovered tables |
| DurabilityManifest.ManifestIsPromised | ios/Pods/leveldb-library/db/version_set.cc:886-1011 | at every moment of every run with crashes, one builder over the edits of the manifest gives the version a restart starts from |
| Manifests.OneBuilderSuffices | ios/Pods/leveldb-library/db/version_set.cc:916-955 | one builder over all edits saves the version that applying them one by one gives, when no number is added twice at a level |
| Manifests.NumberAddedTwice | ios/Pods/leveldb-library/db/version_set.cc:682-690 | without that condition one builder brings a deleted file back |
| Manifests.SnapshotRebuilds | ios/Pods/leveldb-library/db/version_set.cc:1088-1116 | replaying a snapshot record gives the version it was taken of |
| Manifests.RecordRebuilds | ios/Pods/leveldb-library/db/version_set.cc:801-884 | with a complete record the manifest replays to the version after it, with its numbers |
| Manifests.VersionSet.LogAndApply | ios/Pods/leveldb-library/db/version_set.cc:801-884 | installs the edited version and its numbers; the manifest then replays to them, unless it adds a file number twice at a level |
| Manifests.Recover | ios/Pods/leveldb-library/db/version_set.cc:886-1011 | replays a manifest in a loop, up to an edit with another comparator; one without log number, next file number or last sequence is corrupt; the next manifest takes the next file number |
| DurabilityFiles.RecordsRecover | ios/Pods/leveldb-library/db/version_set.cc:801-884 | in every state of every run with crashes the records of the manifest recover to version, log number, next file number and last sequence number on disk |
| DurabilityFiles.ManifestOnDisk | ios/Pods/leveldb-library/db/version_set.cc:886-1011 | so do the bytes of the file |
| DurabilityFiles.TornEdit | ios/Pods/leveldb-library/db/version_set.cc:843-864 | a crash while an edit is logged: the manifest recovers to what it was before that step, or after it once all bytes are written |
| DurabilitySteps.ForegroundKeeps | ios/Pods/leveldb-library/db/db_impl.cc:1185-1256 | writes, switches and snapshots leave background work possible and leading to the same version |
| DurabilitySteps.LogWriteKeeps | ios/Pods/leveldb-library/db/db_impl.cc:1216-1224 | logging a batch before applying it keeps the invariant |
| DurabilitySteps.RecordEditKeeps | ios/Pods/leveldb-library/db/db_impl.cc:550-555 | recording an edit: the manifest is then ahead of memory and still agrees with the logs |
| DurabilitySteps.InstallKeeps | ios/Pods/leveldb-library/db/version_set.cc:866-871 | installing the recorded version: logs older than the current one are no longer needed after a flush |
| DurabilitySteps.RemovalIsSafe | ios/Pods/leveldb-library/db/db_impl.cc:223-278 | removal keeps every log a restart would replay, every table of a version in use and every output being written, and nothing else |
| DurabilityRestart.ReplaysUnsaved | ios/Pods/leveldb-library/db/db_impl.cc:322-362 | a restart replays the logs of the memtables, in order |
| DurabilityRestart.Recovers | ios/Pods/leveldb-library/db/db_impl.cc:371-489 | however the replayed records are cut into memtables, the tables made of them give a well-formed version with exactly their entries added |
| DurabilityRestart.RestartRecovers | ios/Pods/leveldb-library/db/db_impl.cc:280-369 | whenever the crash came, and however many recoveries crashed since, a restart finds the store as it was, and a batch that was logged but not acknowledged |
| DurabilityRuns.StepKeepsConsistent | ios/Pods/leveldb-library/db/db_impl.cc:535-566 | every step, crashes included, keeps the invariant: all entries are in an installed table or a needed log |
| DurabilityRuns.LogStaysDuringFlush | ios/Pods/leveldb-library/db/db_impl.cc:1336-1366 | the current log cannot change while a memtable is being flushed |
| DurabilityRuns.RestartReads | ios/Pods/leveldb-library/db/db_impl.cc:280-369 | with no batch in flight a restart keeps the latest read of a key if and only if the compaction in the manifest, if any, does not bring the key back |
| DurabilityRuns.NoAcknowledgedWriteIsLost | ios/Pods/leveldb-library/db/db_impl.cc:1474-1515 | in every run with any number of crashes: all reads that may be asked for, in all its states, agree with everything acknowledged if and only if no step brings a deleted key back |
| CompactionWork.OutputsDetermined | ios/Pods/leveldb-library/db/db_impl.cc:917-996 | input, surviving entries, grandparents and maximum file size determine the output files |
| Resurrection.CompactionsAsMade | ios/Pods/leveldb-library/db/db_impl.cc:735-745 | both compactions of that run are what the store does there: the inputs chosen, the entries kept and the tables made |
| DatabaseReads.OtherAgrees | ios/Pods/leveldb-library/db/db_impl.cc:878-1036 | a step other than a write keeps agreement with a history if and only if it resurrects no key |
| DurabilityRuns.RestartAgrees | ios/Pods/leveldb-library/db/db_impl.cc:280-369 | a restart keeps agreement with everything acknowledged and the batch in the log, if and only if it brings no key back |
| DurabilityRestart.ReplaysUnsavedWith | ios/Pods/leveldb-library/db/db_impl.cc:322-362 | the same however many recoveries crashed before: their empty logs add nothing |
| DurabilityManifest.RecoveryEditLeads | ios/Pods/leveldb-library/db/db_impl.cc:280-369 | one edit with all recovered tables leads to the recovered version |
| StoreIterators.InternalRunsHold | ios/Pods/leveldb-library/db/db_impl.cc:1062-1087 | the runs given to the merging iterator hold the whole store, each entry once |
| StoreIterators.NewIterator | ios/Pods/leveldb-library/db/db_impl.cc:1147-1157 | a user iterator over exactly the entries of the store, at the snapshot or the last sequence number |
| StoreIterators.IteratorShowsReads | ios/Pods/leveldb-library/db/db_impl.cc:1147-1157 | it stops at exactly the keys whose read finds a value, and shows that value |
| SkipListTermination.ReadLowers | ios/Pods/leveldb-library/db/skiplist.h:262-281 | each read ends a search or brings it closer to its end |
| SkipListTermination.LinkRaises | ios/Pods/leveldb-library/db/skiplist.h:361-367 | only a link published on the bottom level puts a search further from its end, by one entry |
| SkipListTermination.SearchEnds | ios/Pods/leveldb-library/db/skiplist.h:262-281 | a search over n entries from height h reads at most n + h links, and one more for each insertion beside it |
| WriteBatches.BatchRoundTrip | ios/Pods/leveldb-library/db/write_batch.cc:42-109 | iterating over the bytes of a batch tells exactly the operations put in; sequence number and count read back |
| WriteBatches.Iterate | ios/Pods/leveldb-library/db/write_batch.cc:42-80 | for any bytes: the operations up to the first malformed one, and the error that ended it |
| WriteBatches.RecordRefused | ios/Pods/leveldb-library/db/write_batch.cc:48-75 | which bytes are refused: unknown tags and malformed lengths |
| WriteBatches.WriteBatch.Put | ios/Pods/leveldb-library/db/write_batch.cc:98-103 | one put more; count and bytes agree |
| WriteBatches.WriteBatch.Delete | ios/Pods/leveldb-library/db/write_batch.cc:105-109 | one deletion more |
| WriteBatches.WriteBatch.SetSequence | ios/Pods/leveldb-library/db/write_batch.cc:94-96 | the sequence number, and nothing else, is new |
| WriteBatches.WriteBatch.Append | ios/Pods/leveldb-library/db/write_batch.cc:144-148 | the operations of the other batch behind those of this one |
| WriteBatches.RecordsTellOps | ios/Pods/leveldb-library/db/write_batch.cc:98-109 | the operations of the store are told apart by the bytes of a batch |
| DurabilityLogs.RecoverLogFile | ios/Pods/leveldb-library/db/db_impl.cc:413-440 | for any file: the batches of its records, too short ones dropped, the readable part of malformed ones, and the last sequence number among them |
| DurabilityLogs.BatchesTellLog | ios/Pods/leveldb-library/db/db_impl.cc:413-430 | what is read back says which operations were logged |
| DurabilityLogs.TornLog | ios/Pods/leveldb-library/db/db_impl.cc:413-440 | a log cut off at any byte reads back as the batches that are whole in it |
| DurabilityLogs.RestartFromPrefix | ios/Pods/leveldb-library/db/db_impl.cc:280-369 | with only some bytes of the current log left, a restart finds the store without the batches that are not whole in them; these are the newest |
| DurabilityLogs.TornWrite | ios/Pods/leveldb-library/db/db_impl.cc:1215-1224 | a crash while a batch is logged: a restart finds the store without it, or, once all its bytes are written, with it |
| DurabilityWriters.LoggedIsLogWrite | ios/Pods/leveldb-library/db/db_impl.cc:1204-1224 | a group is logged as one batch, at the sequence number it was given |
| DurabilityWriters.AppliedIsApplyWrite | ios/Pods/leveldb-library/db/db_impl.cc:1224-1236 | it is applied as that batch |
| DurabilityWriters.StepKeepsCoupled | ios/Pods/leveldb-library/db/db_impl.cc:1185-1256 | every step of a writer or of the store keeps the two in agreement: last sequence number, and the group that is logged and not applied |
| DurabilityWriters.WriterMayGoOn | ios/Pods/leveldb-library/db/db_impl.cc:1204-1236 | the durable store can take every step a writer takes, unless sequence numbers run out |
| DurabilityWriters.EffectsAreRun | ios/Pods/leveldb-library/db/db_impl.cc:1185-1256 | a run with writers is a run of the durable store |
| DurabilityWriters.StepAcknowledges | ios/Pods/leveldb-library/db/db_impl.cc:1224-1252 | only applying a group acknowledges anything, and a restart that finds one in the log |
| DurabilityWriters.SuccessIsAcknowledged | ios/Pods/leveldb-library/db/db_impl.cc:1185-1256 | a writer that was told success: its operations, at sequence numbers of their own, are among the acknowledged writes |
| GroupCommit.BuildBatchGroup | ios/Pods/leveldb-library/db/db_impl.cc:1260-1306 | which queued batches join the first one: as many as fit the size limit, up to a sync batch behind a non-sync leader |
| GroupCommit.StepKeepsInv | ios/Pods/leveldb-library/db/db_impl.cc:1185-1256 | every step of every writer keeps the queue and what was logged and applied consistent |
| GroupCommit.OneInSection | ios/Pods/leveldb-library/db/db_impl.cc:1192-1200 | at most one writer makes room, logs or applies |
| GroupCommit.AppliedExactlyOnce | ios/Pods/leveldb-library/db/db_impl.cc:1204-1252 | a batch that succeeded is in one applied record, whole, logged, and synced if asked; one that failed is in none |
| GroupCommit.NumbersInQueueOrder | ios/Pods/leveldb-library/db/db_impl.cc:1204-1236 | sequence numbers follow the queue order, within and across groups, without overlap |
| Comparators.SeparatorSeparates | ios/Pods/leveldb-library/util/comparator.cc:29-50 | the separator is the start itself, or strictly between start and limit and no longer than the start; only in the second case is it shown that nothing from the start on and before the limit is shorter |
| Comparators.SeparatorShortens | ios/Pods/leveldb-library/util/comparator.cc:29-50 | when the separator is not the start: exactly when a string between, not the beginning of the limit, has one byte more than is shared; then it is the first of those |
| Comparators.FindShortestSeparator | ios/Pods/leveldb-library/util/comparator.cc:29-50 | the loop finds that separator |
| Comparators.SuccessorFollows | ios/Pods/leveldb-library/util/comparator.cc:52-64 | the successor is at or after the key and no longer |
| Comparators.SuccessorShortens | ios/Pods/leveldb-library/util/comparator.cc:52-64 | it is greater exactly when a string no longer than the key is, and then the first of the shortest ones |
| Comparators.KeySeparatorSeparates | ios/Pods/leveldb-library/db/dbformat.cc:69-86 | between internal keys: the start itself, or a key whose user key is strictly between |
| Comparators.KeySeparatorShortens | ios/Pods/leveldb-library/db/dbformat.cc:69-86 | the user key is shortened exactly when a shorter one lies between, and gets the greatest tag |
| Comparators.KeySuccessorFollows | ios/Pods/leveldb-library/db/dbformat.cc:88-101 | the successor of an internal key is not before it |
| Comparators.CompareKeys | ios/Pods/leveldb-library/db/dbformat.cc:51-67 | the comparison of the bytes of internal keys |
| KeyEncoding.KeysAlike | ios/Pods/leveldb-library/db/dbformat.cc:51-67 | internal keys compare as their bytes do |
| KeyEncoding.RanksExist | ios/Pods/leveldb-library/util/comparator.cc:25-27 | any finite set of byte strings can be ranked in its order |
| Blocks.BlockBuilder.Add | ios/Pods/leveldb-library/table/block_builder.cc:72-106 | the entry is appended, sharing a prefix with the one before except at restart points |
| Blocks.BlockBuilder.Finish | ios/Pods/leveldb-library/table/block_builder.cc:62-70 | entries, restart points and their number |
| Blocks.BlockBuilder.CurrentSizeEstimate | ios/Pods/leveldb-library/table/block_builder.cc:56-60 | the estimate is the exact size |
| BlockIter.EntryDecodes | ios/Pods/leveldb-library/table/block.cc:54-74 | both paths read back the lengths written |
| BlockIter.EntryStaysInside | ios/Pods/leveldb-library/table/block.cc:54-74 | of any bytes: the entry decoded lies within them, and they are refused only when a length is malformed or reaches past the end |
| BlockIter.BlockLayout | ios/Pods/leveldb-library/table/block.cc:19-39 | restart points are found where they were written |
| BlockIter.Iter.ParseNextKey | ios/Pods/leveldb-library/table/block.cc:224-251 | the next entry, its key rebuilt from the one before |
| BlockIter.Iter.Seek | ios/Pods/leveldb-library/table/block.cc:163-201 | the first entry at or after the target, by binary search among restart points |
| BlockIter.Iter.Next | ios/Pods/leveldb-library/table/block.cc:137-140 | the next entry |
| BlockIter.Iter.Prev | ios/Pods/leveldb-library/table/block.cc:142-161 | the previous entry, by going back to a restart point |
| BlockIter.Iter.SeekToFirst | ios/Pods/leveldb-library/table/block.cc:203-206 | the first entry |
| BlockIter.Iter.SeekToLast | ios/Pods/leveldb-library/table/block.cc:208-213 | the last entry |
| Bloom.FilterPolicy.CreateFilter | ios/Pods/leveldb-library/util/bloom.cc:28-54 | appends a filter whose bits are exactly the probes of the keys |
| Bloom.FilterPolicy.NoFalseNegatives | ios/Pods/leveldb-library/util/bloom.cc:56-80 | a filter matches each of its keys |
| Bloom.FilterPolicy.MatchesExactly | ios/Pods/leveldb-library/util/bloom.cc:56-80 | it matches exactly the keys all of whose probes its keys share |
| FilterBlocks.FilterBlockBuilder.StartBlock | ios/Pods/leveldb-library/table/filter_block.cc:21-27 | closes the groups before the one of the offset |
| FilterBlocks.FilterBlockBuilder.Finish | ios/Pods/leveldb-library/table/filter_block.cc:35-49 | a filter for every group, their offsets, and where these begin |
| FilterBlocks.ReaderAsksFilter | ios/Pods/leveldb-library/table/filter_block.cc:90-104 | the reader asks the filter of the group of the offset |
| FilterBlocks.BuiltFilterMatches | ios/Pods/leveldb-library/table/filter_block.cc:51-104 | no key of the group is hidden; a group without keys lets nothing through; past the last group everything passes |
| FilterBlocks.OnlyFiltersHide | ios/Pods/leveldb-library/table/filter_block.cc:90-104 | of any bytes: errors are potential matches; only a filter that the key does not match hides it, or an empty one |
| TableFormat.HandleRoundTrip | ios/Pods/leveldb-library/table/format.cc:15-29 | a block handle decodes to itself |
| TableFormat.FooterRoundTrip | ios/Pods/leveldb-library/table/format.cc:31-62 | the footer decodes to its two handles |
| TableFormat.FooterNeedsMagic | ios/Pods/leveldb-library/table/format.cc:42-62 | a footer is taken exactly when it ends in the magic number and begins with two handles |
| TableFormat.BlockReads | ios/Pods/leveldb-library/table/format.cc:64-139 | a block that was written is read back and passes its checksum |
| TableFormat.OnlyBlocksAreRead | ios/Pods/leveldb-library/table/format.cc:64-139 | with checksums verified, what is read at a handle is exactly what was written there as a block |
| TableLayout.IndexKeyBounds | ios/Pods/leveldb-library/table/table_builder.cc:94-139 | an index key is at or after its block and before the next |
| TableLayout.SeeksFindNewest | ios/Pods/leveldb-library/table/table.cc:216-244 | a seek in the index and one in the block find the newest visible version if there is one |
| TableBuilders.TableBuilder.Add | ios/Pods/leveldb-library/table/table_builder.cc:94-123 | the entry is appended; index entry and filter keep the file consistent; a block is written as soon as it is big enough, and not before |
| TableBuilders.TableBuilder.Flush | ios/Pods/leveldb-library/table/table_builder.cc:125-139 | the block being filled is written; no entry changes |
| TableBuilders.TableBuilder.Finish | ios/Pods/leveldb-library/table/table_builder.cc:198-253 | the file is a table of exactly the entries added, in blocks that end where they are big enough, but for those flushed early and the last |
| TableLayout.BlocksDetermined | ios/Pods/leveldb-library/table/table_builder.cc:119-122 | entries, restart interval and block size determine the data blocks |
| Tables.TableReader.Open | ios/Pods/leveldb-library/table/table.cc:38-82 | a finished table opens, with its filter when the policy has its name |
| Tables.TableReader.InternalGet | ios/Pods/leveldb-library/table/table.cc:216-244 | one seek in the index and one in the block it leads to, nothing when the filter rejects the block; so the newest version not newer than the key sought, if the table has one, else an entry of another user key or nothing |
| Tables.TableReader.ComesIsNewest | ios/Pods/leveldb-library/table/table.cc:216-244 | why that finds the newest version |
| Tables.FilterAdmits | ios/Pods/leveldb-library/table/table.cc:224-229 | the filter never hides a block with a version of the user key |
| Tables.OnlyHashMatters | ios/Pods/leveldb-library/util/bloom.cc:63-66 | a reader with other parameters can use a filter, as it carries its number of probes |
| TwoLevel.TwoLevelIterator.Seek | ios/Pods/leveldb-library/table/two_level_iterator.cc:82-87 | the first entry of all blocks at or after the target |
| TwoLevel.TwoLevelIterator.Next | ios/Pods/leveldb-library/table/two_level_iterator.cc:103-107 | the next entry, over block ends and empty blocks |
| TwoLevel.TwoLevelIterator.Prev | ios/Pods/leveldb-library/table/two_level_iterator.cc:109-113 | the previous entry, over block starts and empty blocks |
| TwoLevel.TwoLevelIterator.SeekToFirst | ios/Pods/leveldb-library/table/two_level_iterator.cc:89-94 | the first entry of all blocks |
| TwoLevel.TwoLevelIterator.SeekToLast | ios/Pods/leveldb-library/table/two_level_iterator.cc:96-101 | the last entry of all blocks |
| TwoLevel.TwoLevelIterator.CurrentIs | ios/Pods/leveldb-library/table/two_level_iterator.cc:32-39 | key and value are those of the entry the two cursors stand for |
| TableIterators.TableIterator.Seek | ios/Pods/leveldb-library/table/two_level_iterator.cc:82-87 | over the file: the first entry of the table at or after the target |
| TableIterators.TableIterator.Next | ios/Pods/leveldb-library/table/two_level_iterator.cc:103-107 | the next entry of the table |
| TableIterators.TableIterator.Prev | ios/Pods/leveldb-library/table/two_level_iterator.cc:109-113 | the previous entry of the table |
| TableIterators.TableIterator.SeekToFirst | ios/Pods/leveldb-library/table/two_level_iterator.cc:89-94 | the first entry of the table |
| TableIterators.TableIterator.SeekToLast | ios/Pods/leveldb-library/table/two_level_iterator.cc:96-101 | the last entry of the table |
| TableIterators.TableIterator.CurrentIs | ios/Pods/leveldb-library/table/two_level_iterator.cc:32-39 | key and value, rebuilt from the block, are those of that entry |
| TableIterators.TableIterator.InitDataBlock | ios/Pods/leveldb-library/table/two_level_iterator.cc:146-162 | opens the block under the index cursor, through its handle; a block that is open already is recognised by it |
| TableIterators.HandlesApart | ios/Pods/leveldb-library/table/two_level_iterator.cc:151-154 | no two blocks of a table have the same handle |
| TwoLevel.TableIsDivided | ios/Pods/leveldb-library/table/table.cc:210-214 | the index of a table divides its blocks, as a seek needs |
| TableFiles.BuildTable | ios/Pods/leveldb-library/db/builder.cc:17-77 | a table of exactly the entries of a run, divided into blocks by the block size alone, with its smallest and largest key; no file for no entries |
| TableFiles.TableGet | ios/Pods/leveldb-library/db/version_set.cc:263-276 | a lookup in that table gives what a point lookup of the run gives |
| HandleTables.HandleTable.Lookup | ios/Pods/leveldb-library/util/cache.cc:74-76 | the entry with key and hash, or none |
| HandleTables.HandleTable.Insert | ios/Pods/leveldb-library/util/cache.cc:78-92 | the entry takes the place of the one with its key and hash, which is returned; there are never more entries than buckets |
| HandleTables.HandleTable.Remove | ios/Pods/leveldb-library/util/cache.cc:94-102 | the entry with key and hash goes, and is returned |
| HandleTables.HandleTable.Resize | ios/Pods/leveldb-library/util/cache.cc:122-146 | all entries move to an array that is long enough and no longer than that; none is lost |
| HandleTables.HandleTable.AtMostOne | ios/Pods/leveldb-library/util/cache.cc:78-92 | one entry at most for a key and hash |
| LRUCaches.LRUCache.Ref | ios/Pods/leveldb-library/util/cache.cc:217-223 | a client gets a reference; an idle entry moves to the list in use |
| LRUCaches.LRUCache.Unref | ios/Pods/leveldb-library/util/cache.cc:225-237 | the last reference frees the entry; the last of a client moves it to the end of the idle list |
| LRUCaches.LRUCache.Lookup | ios/Pods/leveldb-library/util/cache.cc:252-259 | the cached entry of a key, with one reference more, or nothing exactly when there is none |
| LRUCaches.LRUCache.Release | ios/Pods/leveldb-library/util/cache.cc:261-264 | one reference less; the entry is freed exactly when it is neither cached nor held |
| LRUCaches.LRUCache.Insert | ios/Pods/leveldb-library/util/cache.cc:266-303 | one handle more for the new entry, which replaces the one of its key; then the oldest idle entries go, only as long as the charges exceed the capacity; exactly what is freed; with capacity 0 nothing is cached |
| LRUCaches.LRUCache.EvictToFit | ios/Pods/leveldb-library/util/cache.cc:295-301 | evicts from the front of the idle list until the rest fits or nothing idle is left, never more |
| LRUCaches.LRUCache.FinishErase | ios/Pods/leveldb-library/util/cache.cc:307-316 | the entry leaves the cache with its charge, and is freed if no client holds it |
| LRUCaches.LRUCache.Erase | ios/Pods/leveldb-library/util/cache.cc:318-321 | no entry of the key stays cached; others do |
| LRUCaches.LRUCache.Prune | ios/Pods/leveldb-library/util/cache.cc:323-333 | exactly the idle entries go, oldest first |
| NanopbRoundTrip.Varint32Reads | ios/Pods/nanopb/pb_decode.c:187-247 | a 32-bit varint decodes to itself, whatever follows |
| NanopbRoundTrip.Varint64Reads | ios/Pods/nanopb/pb_decode.c:255-275 | a 64-bit varint decodes to itself, whatever follows |
| NanopbDecode.DecodeVarint32 | ios/Pods/nanopb/pb_decode.c:187-247 | the loop decodes any input, overlong and negative forms included, with a bit position of eight bits |
| NanopbRoundTrip.PaddedVarint | ios/Pods/nanopb/pb_decode.c:213-235 | what a last group behind n empty ones decodes to, or that it is refused: right as long as 7n is below 256, and another number once the bit position has wrapped |
| NanopbDecode.DecodeVarint | ios/Pods/nanopb/pb_decode.c:255-275 | the loop decodes any input |
| NanopbRoundTrip.IntRoundTrip | ios/Pods/nanopb/pb_decode.c:1345-1445 | integers of every kind and width decode to themselves |
| NanopbRoundTrip.StringNeedsTerminator | ios/Pods/nanopb/pb_decode.c:1487-1523 | a string is taken, and decodes to itself, exactly when its buffer has room for a terminator |
| NanopbMerge.FieldsMerge | ios/Pods/nanopb/pb_decode.c:934-1082 | the fields from any place on are merged with what is there, one by one |
| NanopbMerge.DecodingMerges | ios/Pods/nanopb/pb_decode.h:70-80 | without initialising, decoding merges two messages: what is written is updated, submessages are merged, arrays grow, and it fails exactly when one grows too long |
| NanopbMerge.MemberIsOptional | ios/Pods/nanopb/pb_encode.c:385-425 | a member of a oneof that is set is written as an optional field with its tag and type |
| NanopbMerge.FittingIsShaped | ios/Pods/nanopb/pb_decode.h:70-80 | any message that fits can be merged into |
| NanopbMerge.MessageRoundTrip | ios/Pods/nanopb/pb_decode.c:1084-1096 | every message that fits its schema decodes from its encoding to itself |
| NanopbCompatibility.FieldIsSkipped | ios/Pods/nanopb/pb_decode.c:319-330 | a field of any kind and wire type that the receiver does not know is skipped |
| NanopbCompatibility.OlderReceiver | ios/Pods/nanopb/pb_decode.c:959-994 | from a message of a newer version of the type an older one reads exactly the fields it knows |
| NanopbCompatibility.OlderSender | ios/Pods/nanopb/pb_decode.c:1034-1079 | from a message of an older version a newer one reads its fields, the others being at their defaults, and fails exactly when a required one of the first 64 is missing |
| NanopbBounds.DecodedInBounds | ios/Pods/nanopb/pb_decode.c:934-1082 | whatever bytes come in: numbers are in range, byte strings and arrays have room, strings are terminated |
| NanopbBounds.NarrowField | ios/Pods/nanopb/pb_decode.c:1345-1445 | a number from a wider field is taken exactly when it is in range |
| NanopbBounds.BytesNeedRoom | ios/Pods/nanopb/pb_decode.c:1447-1485 | a byte string is taken exactly when there is room; of a fixed size, when it has that size or is empty |
| NanopbBounds.FitsIfItComesBack | ios/Pods/nanopb/pb_decode.c:1345-1570 | a number or byte string fits its field exactly when it decodes from its encoding to itself |
| NanopbBounds.CutValue | ios/Pods/nanopb/pb_decode.c:104-150 | a value that is cut off anywhere is refused |
| NanopbBounds.CutField | ios/Pods/nanopb/pb_decode.c:934-1082 | a message that ends inside a field is refused |
| NanopbEncode.EncodeSubmessage | ios/Pods/nanopb/pb_encode.c:717-765 | counting first, then writing exactly as much |
| NanopbEncode.EncodeMessage | ios/Pods/nanopb/pb_encode.c:528-550 | writes the encoding, or only counts it |
| NanopbEncode.GetEncodedSize | ios/Pods/nanopb/pb_encode.c:567-576 | the size of the encoding, when the message can be encoded |
| NanopbEncode.EncodeToBuffer | ios/Pods/nanopb/pb_encode.c:86-132 | succeeds exactly when the message can be encoded and the buffer holds it |
| NanopbEncode.FittingIsEncodable | ios/Pods/nanopb/pb_encode.c:528-550 | every message that fits its schema can be encoded |
| NanopbEncode.PackedSize | ios/Pods/nanopb/pb_encode.c:168-189 | the size of a packed array: counted for fixed sizes by multiplying, otherwise item by item |
| NanopbFields.SendAndReceive | ios/Pods/nanopb/pb_decode.c:1084-1096 | a message that fits its schema, encoded into any buffer that is large enough, is decoded from what was written to itself |
| NanopbFields.EntryIsFound | ios/Pods/nanopb/pb_common.c:29-82 | each entry of the field table is what the schema finds for its tag, with as many required fields before it |
| NanopbFields.FieldIter.Next | ios/Pods/nanopb/pb_common.c:29-82 | one step round the circle, counting required fields |
| NanopbFields.FieldIter.Find | ios/Pods/nanopb/pb_common.c:84-104 | finds a tag from any place if and only if the table has it, and otherwise comes back to where it began |
| NanopbFields.FieldIter.FindInSchema | ios/Pods/nanopb/pb_common.c:84-104 | from any place it ends at the field and member that the schema has for the tag, with the right required-field number |
| NanopbFields.FieldIter.CountRequired | ios/Pods/nanopb/pb_decode.c:1041-1057 | going on to the last entry counts all required fields |
| NanopbFields.Decode | ios/Pods/nanopb/pb_decode.c:934-1082 | the decoder, whose iterator goes on from field to field, decodes any input as specified; required fields that are missing are found by their numbers |

## Left out

- Files, directories, threads and condition variables (`Env`): a file is its bytes, a step is what happens under the mutex. I/O errors do not occur, except in `GroupCommit`, where logging and applying a batch may fail.
- The memtable flush inside the compaction loop (`ios/Pods/leveldb-library/db/db_impl.cc:908-918`): flush and compaction exclude each other here, as separate steps of the background thread.
- What starts a compaction: seek statistics, scores and read sampling choose a level and a file; every choice is covered.
- Corrupted internal keys and tables: `Tables` opens finished tables only, and Snappy compression is not part of this model. The log reader, the edit decoder and the nanopb decoder are modelled on every input.
- The block cache in `Table::BlockReader` and the table cache: `LRUCaches` stands alone. Sharding, values, deleters and `NewId` of the cache.
- Blocks and tables of 4 GiB and more. How `NewBloomFilterPolicy` gets its number of probes from the bits per key. The index of a hash bucket is a remainder; the length is a power of two, so this is the mask.
- What an iterator sees of writes made after it was created: it runs over the store as it was, and newer entries would be skipped by their sequence numbers.
- Loss of unsynced data other than a tail of the current log, when the machine goes down and not only the process. Runs go on only from the logs they wrote.
- `paranoid_checks`: recovery reads on past what is corrupt. Batches of 2^31 operations and more.
- A failed write to the log in `DurabilityWriters`: `GroupCommit` has it, the durable store does not.
- Reusing the last log after a restart (`reuse_logs`), and reusing a manifest.
- A nonzero initial offset of the log reader, its resynchronisation, and the offset of the last record.
- The literal tables of the checksum: they are taken by the equations that define them, which give the rows in `Crc32c.KnownRows` and `Crc32c.KnownStrides`. Hardware acceleration.
- Memory orders weaker than one link at a time in the skip list, and more than one search at a time: searches do not write, so each is on its own.
- A writer without a batch, in the queue only to make room, is observed by nobody.
- Merger.MergingIterator.Seek: children share no key, as the files of a compaction and the memtables do.
- WriteBatches.WriteBatch.Put: asks for fewer than 2^32 operations in a batch, as the count has 32 bits; so do the other methods.
- NanopbFields.Decode: asks that tags are used once, as the protobuf compiler ensures; with a repeated tag the answer depends on where the iterator is.
- nanopb: callbacks, extensions, pointer and fixed-count fields, custom default values, error messages, and streams other than buffers.
- The app itself.
