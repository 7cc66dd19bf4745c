# A verified model of the TableFS storage stack

TableFS keeps a file system in a LevelDB store (`lib/leveldb`, the 1.5-era log-structured
merge tree) and moves large files to the disk (`src/fs/tablefs.cpp`).  This project models
the parts whose claims span many functions and whole runs, and proves those claims.
`dafny verify dfyconfig.toml` checks all of it.

The project has six layers, one module per file.

1. **The store.** `Keys`, `Files`, `History` say what keys, table files, versions and the
   meaning of a list of writes are.  `VersionGet`, `Overlap`, `Picking`, `Drop`, `Cuts`,
   `CompactionWork`, `Builder`, `Installing`, `InputMerge` and `VersionSteps` model reading
   a version, choosing, running and installing compactions and flushes.  `Store` puts them
   together as a state machine whose steps are the points at which other threads or a crash
   can come in between; `Runs` states what holds over every run, `Readers` what a reader gets
   that holds on to its tables, and `Scans` what an iterator shows.  `DbImpl` is the imperative
   class over the same state: each method is proved to be such a step.
2. **Durability.** `LogFormat`, `LogReader` and `LogRoundTrip` give the log file byte by
   byte; `Manifest`, `Reopen`, `Splits` and `Recovery` the manifest, the choice of logs, how
   their records become tables, and reopening;
   `EditCodec`, `WriteBatches` and `Coding` the bytes of the records themselves.
3. **Concurrency.** `WriterQueue` is the queue of writers with group commit, as threads that
   wait, are signalled, lead and return, and `GroupCommit` shows that it drives the store;
   `SkipLists` and `SkipReaders` are insertion store by
   store and searches load by load.
4. **Iterators and tables.** `Merger`, `DbIter`, `Blocks`, `BlockReader`, `Separators`,
   `Bloom`, `FilterBlocks`, `TableFormat`, `TableBytes`, `Tables`, `MemTable`, `MemEntries`.
5. **The cache.** `LruCache`: hash chains, the circular list, reference counts.
6. **Files.** `InlineFiles`: regular files of TableFS, inline or on disk.

The main results, in words:

* A read returns the last visible write of its key, at every point of every run of log
  appends, insertions, publications, memtable switches, flushes, compactions, trivial moves,
  log deletions, crashes and reopenings; background work changes no answer (`Runs`).
* After a crash anywhere and a reopening, exactly the write groups with a complete log record
  are there, each once (`Runs.CrashLosesNothing`, with `LogRoundTrip.CutLog` for the torn
  record).
* A flush that lands while a compaction is running keeps clear of its outputs
  (`VersionSteps.FlushKeepsReplaceable`), and installing the outputs never makes two files of
  a level overlap (`Installing`).
* One leader, first come first served, each batch once, whole groups visible, the front of
  the queue never asleep (`WriterQueue`).
* Skip list searches are right however the stores of insertions fall between their loads
  (`SkipReaders`).
* What background work chooses is determined: the file a read is charged to
  (`VersionGet.ReadOnce`), the level of a flushed table (`Overlap.IsOutputLevel`), the inputs
  and the pointer of a compaction (`Picking.PickedOnce`), the cuts of its output
  (`Cuts.CutOnce`), the tables recovery makes (`Splits.FlushedOnce`).
* A table file opened from its bytes, through footer, index and filter, answers lookups as
  the list of items it was built from (`Tables.OpensAsBuilt`, `Tables.InternalGet`).
* Iterators, blocks, tables, filters, logs, batches and edits refine the lists they stand for.
* The LRU cache frees each entry once, when nobody holds it any more (`LruCache`).
* TableFS files are flat zero-filled arrays on both sides of the inline threshold
  (`InlineFiles`).

Five statements one might expect are false of the code; each is proved with its exact
condition or a counterexample.

* `DBIter::Next` after `Prev` moves on exactly when no entry too new to be seen stands
  directly before the current key; otherwise it stays (`DbIter.DBIter.Next`,
  `DbIter.NextCanStay`).
* `VersionEdit::DecodeFrom` clears everything but the compaction pointers, so decoding gives
  back the edit exactly when the object had none (`EditCodec.EditRoundTrip`).
* `TableFS::Write` with no bytes changes the file when the offset is past the end
  (`InlineFiles.TableFS.Write`).
* Replaying a manifest with one builder does not always give what applying its records one
  by one gives (`Manifest.ReaddedNumberResurrects`).  It does all along exactly if no record
  gives a number that is deleted at its level to other files without adding back the file
  that had it (`Manifest.ReplayKeepsUpIff`); no reachable manifest does that
  (`Store.InstallManifest`, `Manifest.NothingRevived`).
* Disk file names depend on the low 32 bits of the inode number only
  (`InlineFiles.SharedPath`).

How things are represented:

* In the store a user key is a real number that orders keys as the comparator does
  (`Keys.RankOrders`); the byte-level modules work on the bytes.  Sequence numbers stay below
  2^56 - 1, which the source asserts.
* In the store a table file carries its entries, and `fileSize` stands for the size of the
  file `Tables.BuildTable` writes for them; that a lookup in its bytes finds what a lookup in
  the list finds is proved in `Tables`, `BlockReader` and `FilterBlocks`.
* In `Tables` a block is what an encoder makes of its pairs, with a decoder that undoes it;
  `Blocks` and `BlockReader` are that encoder and decoder.
* `std::sort`, `std::upper_bound` and `std::set` are insertion, scans and ordered lists.  The
  concatenating iterator over a disjoint level is one child per file, which yields the same
  entries.
* In `DbImpl` a method is one uninterrupted call; that a flush may come in the middle of a
  compaction is modelled in `Store`, where starting and finishing one are separate steps.
* Random tower heights, table sizes, batch sizes, compressors, checksums, hash functions, the number of Bloom probes
  and the level a compaction is picked for are parameters: the statements hold for all of
  them.
* Memory addresses are numbers: nodes of the skip list and of the cache live in a map, and an
  allocation takes the next number.

## Model

| member | source | states |
|---|---|---|
| Runs.RunReads | lib/leveldb/db/db_impl.cc:1060-1116 | Over every run of log appends, single memtable insertions, publications, memtable switches, flushes (also in the middle of a compaction), compactions, trivial moves, log deletions and crashes with reopening, a read at the current sequence returns the last write of the key among the groups made visible so far |
| Runs.StepInv | lib/leveldb/db/db_impl.cc:644-725 | Every kind of step keeps the whole store invariant: numbered writes, memtables holding exactly their stretch of the writes, levels layered newest first and disjoint past level 0, file numbers, manifest history, log choice, running compaction |
| Runs.RunInv | lib/leveldb/db/version_set.cc:755-835 | The invariant holds in every reachable state |
| Runs.StepVisible | lib/leveldb/db/db_impl.cc:1147-1211 | Only publishing a group, or a crash and reopening, changes what readers see; each makes exactly the logged groups visible |
| Runs.GetCorrect | lib/leveldb/db/db_impl.cc:1060-1116 | A reader whose memtable has got newer entries since gets the answer of its sequence number |
| Readers.ReadLater | lib/leveldb/db/db_impl.cc:1060-1116 | References taken in one state of a run, tables read in a later one with no crash between: the answer is that of the first state, whatever was inserted, switched, flushed or compacted meanwhile |
| Readers.HeldTable | lib/leveldb/db/db_impl.cc:1066-1095 | The memtable a reader holds has, at every later state, the entries it had and otherwise only newer ones |
| Scans.Scan | lib/leveldb/db/db_impl.cc:1118-1126 | Iterating from the first key to the end over the merged memtables and files gives exactly the visible map, in ascending key order |
| Scans.IterationIsContents | lib/leveldb/db/db_impl.cc:1021-1048 | In every reachable state the entries an iterator shows are exactly the key-value pairs of the visible map |
| Scans.ChildrenMergeable | lib/leveldb/db/db_impl.cc:1021-1048 | The lists that are merged are sorted and no entry is in two of them |
| Runs.CrashLosesNothing | lib/leveldb/db/db_impl.cc:272-445 | After any run, a crash at any step and a successful reopening leave exactly the groups whose log records were complete, each once and whole, and reads answer from them |
| Runs.InitialInv | lib/leveldb/db/db_impl.cc:181-211 | A newly created database satisfies the invariant |
| History.ContentsAreLastPuts | lib/leveldb/db/db_impl.cc:1060-1116 | The reference map, a fold of the writes, holds exactly the puts that no later write of their key covers: ties the fold to the entry-by-entry reading |
| History.TableHit | lib/leveldb/db/db_impl.cc:1082-1093 | A hit in a table holding all writes past some point is the answer of the fold |
| History.TableMiss | lib/leveldb/db/db_impl.cc:1082-1093 | A miss in a table holding all writes past some point leaves the answer to the writes before that point |
| History.VersionAnswers | lib/leveldb/db/version_set.cc:306-407 | What Version::Get returns is what the fold of the flushed writes says |
| Store.LogGroupInv | lib/leveldb/db/db_impl.cc:1177-1185 | Appending a group record keeps the invariant and shows readers nothing |
| Store.InsertOneInv | lib/leveldb/db/write_batch.cc:42-79 | Inserting one more entry of a logged group keeps the invariant and shows readers nothing |
| Store.PublishInv | lib/leveldb/db/db_impl.cc:1191-1194 | Publishing shows readers exactly the whole logged groups |
| Store.SwitchMemInv | lib/leveldb/db/db_impl.cc:1302-1322 | A memtable switch keeps the invariant: the new log takes over where the old one ends |
| Store.FlushInv | lib/leveldb/db/db_impl.cc:495-527 | A memtable flush keeps the invariant and what readers see, also while a compaction is running |
| Store.StartInv | lib/leveldb/db/version_set.cc:1192-1244 | A picked compaction may start running on any reachable version |
| Store.FinishInv | lib/leveldb/db/db_impl.cc:821-841 | Installing the outputs of a compaction keeps the invariant and what readers see, whatever flushes happened since it was picked |
| Store.MoveInv | lib/leveldb/db/db_impl.cc:672-690 | A trivial move keeps the invariant and what readers see |
| Store.DeleteLogsInv | lib/leveldb/db/db_impl.cc:222-270 | Deleting the logs below the recorded number keeps the invariant, durability included |
| Store.FreshNumbers | lib/leveldb/db/version_set.cc:952-956 | Numbers handed out and pending never clash with a number any manifest record has added |
| Store.InstallManifest | lib/leveldb/db/version_set.cc:755-835 | Appending a record for a new version keeps the manifest a history in which no number is added twice |
| DbImpl.DBImpl.constructor | lib/leveldb/db/db_impl.cc:181-211 | A new database is an initial state |
| DbImpl.DBImpl.Open | lib/leveldb/db/db_impl.cc:1443-1475 | Opening what a crash left gives a valid store that serves every group with a complete log record, with the recovered compaction pointers and one table for each memtable the logs filled |
| DbImpl.DBImpl.Get | lib/leveldb/db/db_impl.cc:1060-1116 | Memtable, then immutable memtable, then version: exactly the answer of the fold of the published groups; a seek is charged only when the version is read, and then to the file Version::Get charges |
| DbImpl.DBImpl.Write | lib/leveldb/db/db_impl.cc:1147-1211 | Log, insert, publish: the visible writes grow by the batch under the next sequence numbers |
| DbImpl.DBImpl.InsertInto | lib/leveldb/db/write_batch.cc:111-134 | The insertion loop brings the memtable to hold every logged write |
| DbImpl.DBImpl.SwitchMemTable | lib/leveldb/db/db_impl.cc:1302-1322 | The full memtable becomes immutable and a new log file starts |
| DbImpl.DBImpl.LogAndApply | lib/leveldb/db/version_set.cc:755-835 | The edit gets its log, file and sequence numbers, the next version is the edit applied to the current one, and the record goes to the manifest |
| DbImpl.DBImpl.CompactMemTable | lib/leveldb/db/db_impl.cc:495-527 | The immutable memtable becomes one table file of the size the table builder gave it, at exactly the level PickLevelForMemTableOutput determines; its log becomes obsolete, and readers see no change |
| DbImpl.DBImpl.WriteLevel0Table | lib/leveldb/db/db_impl.cc:447-493 | The table file with its number and size, and the edit that puts it at the level PickLevelForMemTableOutput determines |
| DbImpl.DBImpl.BackgroundCompaction | lib/leveldb/db/db_impl.cc:644-725 | Picks the one compaction there is to pick and moves the pointer with it; exactly when there is one input, no parent and little grandparent overlap the file is moved, otherwise the compaction is left running |
| DbImpl.DBImpl.FinishCompaction | lib/leveldb/db/db_impl.cc:843-1000 | Merges the inputs, drops what no read needs, writes the rest under consecutive fresh numbers, cut where it must be and nowhere else, and swaps it in; readers see no change |
| DbImpl.DBImpl.InstallCompactionResults | lib/leveldb/db/db_impl.cc:821-841 | Deletes the inputs, adds the outputs one level down in order and records the compaction pointer, as one edit |
| DbImpl.DBImpl.TrivialMove | lib/leveldb/db/db_impl.cc:672-690 | Moves the one input file down a level; readers see no change |
| DbImpl.DBImpl.WriteOutputs | lib/leveldb/db/db_impl.cc:744-818 | Each output gets the next number, pending until installed, and the size of its table |
| DbImpl.DBImpl.DeleteObsoleteLogs | lib/leveldb/db/db_impl.cc:222-270 | Keeps exactly the logs at or past the recorded log number |
| VersionGet.Get | lib/leveldb/db/version_set.cc:306-407 | Finds the newest visible entry of the key in the version: the value if it is a put, not found if it is a deletion or there is none; charges the first file of the search order if a second one had to be read, and no file otherwise |
| VersionGet.FindFile | lib/leveldb/db/version_set.cc:105-124 | Binary search: the first file that ends at or after the target |
| VersionGet.SortNewestFirst | lib/leveldb/db/version_set.cc:302-304 | A rearrangement of the files by descending number |
| VersionGet.TableGetFindsNewest | lib/leveldb/db/version_set.cc:287-300 | A table lookup hits the newest visible entry of the key in the file, or none is there |
| VersionGet.HitIsNewest | lib/leveldb/db/version_set.cc:306-407 | The first hit in search order is the newest visible entry of the whole version |
| VersionGet.ReadOnce | lib/leveldb/db/version_set.cc:319-396 | The files a search reads, and so the one it charges, are given by the version and the key: files covering the key at level 0 by descending number, then the one candidate of each level, up to the first hit |
| Overlap.SomeFileOverlapsRange | lib/leveldb/db/version_set.cc:140-175 | True exactly if some file meets the range, unbounded ends included, by scan and by binary search |
| Overlap.GetOverlappingInputs | lib/leveldb/db/version_set.cc:468-507 | Terminates and returns exactly the files that meet the least range around the given one, which at level 0 is closed under overlap |
| Overlap.PickLevelForMemTableOutput | lib/leveldb/db/version_set.cc:442-465 | The first level from which the file may not be pushed further: it meets level 0 or the next level, or more grandparent bytes than the limit two levels down |
| Overlap.OutputLevelMisses | lib/leveldb/db/version_set.cc:442-465 | Neither the level picked, unless it is level 0, nor any level above it has a file in the range |
| Overlap.TotalsAdd | lib/leveldb/db/version_set.cc:63-69 | The size of a list of files is the sum of the sizes of its parts |
| Overlap.GetRange | lib/leveldb/db/version_set.cc:1125-1145 | The tightest range around some files, from the first smallest key to the last largest one |
| Picking.PickCompaction | lib/leveldb/db/version_set.cc:1192-1244 | The first file past the pointer of the level, or else the file charged with seeks; at level 0 the files of the least closed range around it; the parents they meet; growth if the three conditions allow it; the grandparents. The inputs are isolated at their level, their hull misses every other parent and is covered by them; the pointer moves to the end of the level inputs |
| Picking.PickedOnce | lib/leveldb/db/version_set.cc:1192-1311 | There is one next compaction: level, inputs, grandparents, range and pointers are determined by the version, the pointers, the level or file to start from and the byte limit |
| Picking.GrownNotStuck | lib/leveldb/db/version_set.cc:1262-1289 | The conditions for growing and the reasons not to grow exclude each other |
| Picking.SetupOtherInputs | lib/leveldb/db/version_set.cc:1246-1311 | Parents, then growth: the inputs grow over their whole range exactly if that adds a file, stays under the byte limit and adds no parent; isolation and coverage hold of the result and the pointer is the end of all level inputs |
| Picking.TryToGrow | lib/leveldb/db/version_set.cc:1262-1289 | Growing keeps the inputs isolated and covered and adds no parent; it fails exactly for one of the three reasons |
| Picking.RoundRobin | lib/leveldb/db/version_set.cc:1202-1218 | The first file past the compaction pointer, else the first file |
| Picking.MeetsHullMeetsInput | lib/leveldb/db/version_set.cc:442-465 | A range that meets the hull of the inputs meets an input, so one that misses all inputs misses the outputs |
| Picking.GrownCovered | lib/leveldb/db/version_set.cc:1262-1289 | The grown inputs still cover every key of their hull |
| Picking.GrownIsolated | lib/leveldb/db/version_set.cc:1262-1289 | No other file of the level shares a key range with a grown input |
| Picking.StretchMisses | lib/leveldb/db/version_set.cc:1246-1289 | In a disjoint level, stretching a range by the files it meets makes it meet no further file |
| VersionSteps.FlushKeepsReplaceable | lib/leveldb/db/version_set.cc:442-465 | A flush during a compaction cannot land inside the hull of its inputs at a level below the compacted one, and leaves all it relies on in place |
| VersionSteps.FlushKeepsLevels | lib/leveldb/db/version_set.cc:442-465 | A flushed file keeps the levels disjoint and layered |
| VersionSteps.FlushKeepsReads | lib/leveldb/db/db_impl.cc:447-493 | After a flush the version stands for the writes up to the flushed ones |
| VersionSteps.PickedIsReplaceable | lib/leveldb/db/version_set.cc:1192-1289 | What is picked may be replaced by its outputs |
| VersionSteps.ReplaceKeepsLevels | lib/leveldb/db/version_set.cc:694-707 | Replacing the inputs by any sorted split of survivors keeps every level sorted, disjoint and layered |
| VersionSteps.ReplaceKeepsReads | lib/leveldb/db/db_impl.cc:872-964 | Dropping what a compaction drops leaves the version standing for the same writes |
| VersionSteps.MarkersHideNothing | lib/leveldb/db/version_set.cc:1378-1397 | A deletion marker dropped for lack of deeper files has no older entry anywhere outside the inputs |
| VersionSteps.MoveKeepsReads | lib/leveldb/db/db_impl.cc:672-690 | A trivial move changes no entry |
| Drop.DropPreservesReads | lib/leveldb/db/db_impl.cc:872-964 | For every reader at or above the smallest snapshot the live entries of inputs and everything outside are the same before and after dropping |
| Drop.SurvivorsSorted | lib/leveldb/db/db_impl.cc:872-964 | Survivors stay in order; with every entry at or below the snapshot one entry per key is left |
| CompactionWork.DoCompactionWork | lib/leveldb/db/db_impl.cc:872-964 | The loop writes out exactly the survivors, cut into files after an entry that makes the file large enough or before one at which ShouldStopBefore says stop, and nowhere else |
| Cuts.CutOnce | lib/leveldb/db/db_impl.cc:888-964 | There is one way to cut the survivors by those rules |
| CompactionWork.DecideDrop | lib/leveldb/db/db_impl.cc:894-928 | An entry is dropped exactly if a newer one of its key hides it or it is an obsolete deletion marker |
| CompactionWork.Run.IsBaseLevelForKey | lib/leveldb/db/version_set.cc:1378-1397 | Asked with non-decreasing keys, the forward-only cursors answer as a full scan of the deeper levels |
| CompactionWork.Run.ShouldStopBefore | lib/leveldb/db/version_set.cc:1399-1419 | Says stop exactly when the grandparent files passed since the last stop, those ahead of the first key not counted, weigh more than the limit |
| Builder.VersionBuilder.Apply | lib/leveldb/db/version_set.cc:600-643 | Folds an edit into the pending changes of every level, and the compaction pointers |
| Builder.VersionBuilder.SaveTo | lib/leveldb/db/version_set.cc:646-692 | Every level of the new version is the sorted merge of base and pending files, without the deleted ones |
| Builder.MaybeAddFile | lib/leveldb/db/version_set.cc:694-707 | Appends unless deleted; its overlap assertion is its precondition |
| Builder.SortedLevelsEqual | lib/leveldb/db/version_set.cc:541-555 | A sorted level is determined by its files: order is never left open |
| Installing.BuildVersion | lib/leveldb/db/version_set.cc:755-776 | The next version is the edit applied to the current one; the overlap assertion cannot fail |
| Installing.FlushInstallable | lib/leveldb/db/db_impl.cc:447-493 | A flush edit can be installed |
| Installing.FinishInstallable | lib/leveldb/db/version_set.cc:694-707 | A compaction edit can be installed: outputs and the files that stay lie apart |
| Installing.MoveInstallable | lib/leveldb/db/db_impl.cc:672-690 | A trivial-move edit can be installed |
| Manifest.Recover | lib/leveldb/db/version_set.cc:837-950 | Replaying the manifest with one builder gives the last version of history, file for file in the same order, the last value of every number and the compaction pointers; it fails exactly when a number is missing |
| Manifest.ReplayStep | lib/leveldb/db/version_set.cc:871-941 | One record keeps the replaying builder in step with history |
| Manifest.ReplayKeepsUpIff | lib/leveldb/db/version_set.cc:600-643 | The replaying builder agrees with history after every record exactly if no record gives a number deleted at its level to other files without adding back the file that had it |
| Manifest.KeepsUpStep | lib/leveldb/db/version_set.cc:600-643 | The same for one record: in step before, it is in step after exactly if the record revives nothing |
| Manifest.NothingRevived | lib/leveldb/db/version_set.cc:600-643 | A manifest that adds no (level, number) twice revives nothing |
| Manifest.WriteSnapshot | lib/leveldb/db/version_set.cc:995-1023 | The snapshot record has the comparator, the pointer of every level that has one, and exactly the files of the version |
| Manifest.SnapshotPointers | lib/leveldb/db/version_set.cc:1000-1012 | Replaying a snapshot record gives back the pointers it was made from |
| Manifest.ReaddedNumberResurrects | lib/leveldb/db/version_set.cc:600-643 | Without the rule that no number is added twice at a level, replay brings a deleted file back |
| Reopen.ReplayIsTheTail | lib/leveldb/db/db_impl.cc:302-335 | The logs chosen hold exactly the writes that are in no table file: none lost, none twice |
| Reopen.WhichLogs | lib/leveldb/db/db_impl.cc:302-335 | They are the immutable memtable's log, if there is one, and the current one |
| Reopen.ReopenInv | lib/leveldb/db/db_impl.cc:272-445 | Reopening keeps the invariant and makes exactly the logged groups visible |
| Reopen.RecoveredLayers | lib/leveldb/db/db_impl.cc:352-445 | The tables written at recovery go on top of level 0 and are newer than all files |
| Recovery.ReopenFrom | lib/leveldb/db/db_impl.cc:272-350 | Manifest recovery, log replay, the recovery edit and the new manifest make up one reopening step; the new manifest has the recovered pointers and the tables of the logs |
| Recovery.RecoverLogFile | lib/leveldb/db/db_impl.cc:352-445 | Every record of a log is inserted in order; the records are split where a memtable is full after a record, and each part becomes one table with the next number and its size |
| Recovery.RecoverLogs | lib/leveldb/db/db_impl.cc:329-346 | The chosen logs in order give tables that hold exactly their writes, one for each filled memtable, numbered past every log |
| Splits.FlushedOnce | lib/leveldb/db/db_impl.cc:352-445 | The recovered tables and the next file number are determined by the logs, the fullness test and the first number |
| Splits.SplitOnce | lib/leveldb/db/db_impl.cc:391-430 | There is one way to split the records of a log by memtables |
| Recovery.LogsInOrder | lib/leveldb/db/db_impl.cc:311-331 | Exactly the logs at or past the recorded number or the previous one, ascending |
| Recovery.RecoveryInstallable | lib/leveldb/db/db_impl.cc:425-444 | The recovery edit can be installed |
| MemTable.AddKeepsOrder | lib/leveldb/db/memtable.cc:82-106 | Adding an entry with a new sequence number keeps the table sorted and adds just that entry |
| MemTable.NewerEntriesUnseen | lib/leveldb/db/memtable.cc:108-143 | A lookup is not disturbed by entries newer than its snapshot |
| MemEntries.ReadEntry | lib/leveldb/db/memtable.cc:108-143 | Decoding an arena entry in place answers unmatched, deleted or the value, as it was added |
| MemEntries.EntryBytes | lib/leveldb/db/memtable.cc:82-106 | An entry written by Add can be taken apart again wherever it stands |
| Keys.RankOrders | lib/leveldb/util/comparator.cc:25-27 | Ranks order keys exactly as the bytewise comparator does |
| Merger.MergingIterator.Seek | lib/leveldb/table/merger.cc:51-57 | Lands on the first entry of the sorted union at or after the target |
| Merger.MergingIterator.SeekToFirst | lib/leveldb/table/merger.cc:35-41 | Lands on the first entry of the union |
| Merger.MergingIterator.SeekToLast | lib/leveldb/table/merger.cc:43-49 | Lands on the last entry of the union |
| Merger.MergingIterator.Next | lib/leveldb/table/merger.cc:59-83 | Moves to the next entry of the union, also after a change of direction |
| Merger.MergingIterator.Prev | lib/leveldb/table/merger.cc:85-112 | Moves to the previous entry of the union, also after a change of direction |
| Merger.MergingIterator.FindSmallest | lib/leveldb/table/merger.cc:155-168 | With all children cut at a point, chooses the next entry of the union |
| Merger.MergingIterator.FindLargest | lib/leveldb/table/merger.cc:170-183 | With all children standing before a point, chooses the previous entry of the union |
| Merger.ReadAll | lib/leveldb/table/merger.cc:35-83 | Reading from the front yields the sorted union |
| InputMerge.MergeFiles | lib/leveldb/db/version_set.cc:1159-1190 | The merged input of a compaction: sorted, and exactly the entries of its files |
| InputMerge.SortedUnionExists | lib/leveldb/db/version_set.cc:1159-1190 | Entries with distinct sequence numbers have a sorted union |
| DbIter.YieldsAreReads | lib/leveldb/db/db_iter.cc:155-185 | The entries an iterator shows are exactly those that reads at its snapshot return |
| DbIter.DBIter.SeekToFirst | lib/leveldb/db/db_iter.cc:270-279 | Stands on the first live key |
| DbIter.DBIter.Seek | lib/leveldb/db/db_iter.cc:256-268 | Stands on the first live key at or after the target |
| DbIter.DBIter.Next | lib/leveldb/db/db_iter.cc:129-153 | Moves to the next live key; coming from reverse, exactly if no entry too new to be seen stands directly before the current key, else it stays |
| DbIter.NextCanStay | lib/leveldb/db/db_iter.cc:129-153 | A stream on which Next after Prev stays |
| DbIter.NextAfterPrev | lib/leveldb/db/db_iter.cc:129-153 | On that stream the iterator really stays: SeekToLast, Prev, Next ends where Prev had got to |
| DbIter.DBIter.SeekToLast | lib/leveldb/db/db_iter.cc:281-286 | Stands on the last live key |
| DbIter.DBIter.Prev | lib/leveldb/db/db_iter.cc:187-212 | Moves to the previous live key, from either direction |
| DbIter.DBIter.FindNextUserEntry | lib/leveldb/db/db_iter.cc:155-185 | Skips too-new, overwritten and deleted entries up to the next live one |
| DbIter.DBIter.FindPrevUserEntry | lib/leveldb/db/db_iter.cc:214-254 | Scans back to the newest visible entry of the previous live key |
| LogFormat.Writer.AddRecord | lib/leveldb/db/log_writer.cc:27-73 | Appends exactly the encoding of the record at the current block offset |
| LogFormat.Writer.AddFragment | lib/leveldb/db/log_writer.cc:33-71 | One turn of the loop: trailer, fragment type and length; the rest is encoded after it |
| LogFormat.Writer.EmitPhysicalRecord | lib/leveldb/db/log_writer.cc:75-100 | Appends checksum, length, type and payload |
| LogReader.Reader.ReadRecord | lib/leveldb/db/log_reader.cc:59-162 | Collects fragments as the specification of a logical record says, counting what is dropped |
| LogReader.Reader.ReadPhysicalRecord | lib/leveldb/db/log_reader.cc:179-256 | Refills block by block and parses one fragment, with its bad-record and end-of-file cases |
| LogRoundTrip.CutLog | lib/leveldb/db/log_reader.cc:59-256 | A log cut at any byte yields exactly the records wholly before the cut |
| LogRoundTrip.WholeLog | lib/leveldb/db/log_reader.cc:59-256 | An uncut log yields every record and reports no corruption |
| LogRoundTrip.ReadsRecord | lib/leveldb/db/log_reader.cc:59-162 | From the start of a fragment on: the rest of the record if it is there, else nothing |
| LogRoundTrip.CutFragment | lib/leveldb/db/log_reader.cc:179-256 | A fragment that is cut off is never taken for a record |
| LogRoundTrip.OverTrailer | lib/leveldb/db/log_reader.cc:183-205 | Trailers of zeros are skipped |
| Coding.VarintRoundTrip | lib/leveldb/util/coding.cc:81-158 | Reading a varint gives back the number written, wherever it stands |
| Coding.EncodeVarint32 | lib/leveldb/util/coding.cc:47-73 | The unrolled encoder writes the seven-bit groups |
| Coding.EncodeVarint64 | lib/leveldb/util/coding.cc:81-90 | The loop writes the seven-bit groups |
| Coding.GetVarint | lib/leveldb/util/coding.cc:112-158 | The bit-accumulating decoder reads at most five or ten bytes and truncates to its word |
| Coding.LengthPrefixedRoundTrip | lib/leveldb/util/coding.cc:98-192 | A length-prefixed slice is read back |
| Coding.EncodeFixed32 | lib/leveldb/util/coding.cc:9-18 | Four bytes, little-endian, that decode to the number |
| Coding.EncodeFixed64 | lib/leveldb/util/coding.cc:20-33 | Eight bytes, little-endian, that decode to the number |
| Coding.UnmaskOfMask | lib/leveldb/util/crc32c.h:31-40 | Unmasking a masked checksum gives it back |
| EditCodec.EditRoundTrip | lib/leveldb/db/version_edit.cc:41-210 | Decoding an encoded edit gives the edit, behind the compaction pointers the object already had: the same edit exactly when it had none |
| EditCodec.VersionEdit.EncodeTo | lib/leveldb/db/version_edit.cc:41-86 | Writes the set fields and the lists in order |
| EditCodec.VersionEdit.DecodeFrom | lib/leveldb/db/version_edit.cc:109-210 | Succeeds exactly on a sequence of whole well-formed fields, and applies them in order |
| EditCodec.VersionEdit.DecodeField | lib/leveldb/db/version_edit.cc:122-198 | The switch: reads the body that belongs to the tag |
| EditCodec.FieldsRoundTrip | lib/leveldb/db/version_edit.cc:41-210 | Any list of fields is read back |
| EditCodec.InsertedInOrder | lib/leveldb/db/version_edit.cc:174-181 | Inserting a deletion keeps the set ordered and adds just that one |
| WriteBatches.WriteBatch.Put | lib/leveldb/db/write_batch.cc:98-103 | One more record and a count one higher: the bytes are the batch with the put appended |
| WriteBatches.WriteBatch.Delete | lib/leveldb/db/write_batch.cc:105-109 | The same for a deletion |
| WriteBatches.WriteBatch.Append | lib/leveldb/db/write_batch.cc:141-145 | The bytes are the batch of both lists, under the first one's sequence number |
| WriteBatches.WriteBatch.SetSequence | lib/leveldb/db/write_batch.cc:94-96 | Changes the number and nothing else |
| WriteBatches.InsertInto | lib/leveldb/db/write_batch.cc:42-79 | On any bytes: the additions are the records before the first bad one, numbered consecutively; success exactly when all are good and the count agrees |
| WriteBatches.BatchRoundTrip | lib/leveldb/db/write_batch.cc:42-145 | A batch that went through the log gives back its operations, count and sequence number |
| WriterQueue.StepInv | lib/leveldb/db/db_impl.cc:1147-1262 | Every step of every thread keeps the queue invariant |
| WriterQueue.OneLeader | lib/leveldb/db/db_impl.cc:1147-1211 | At most one thread leads, and the front of a non-empty queue is never left asleep |
| WriterQueue.GroupsInOrder | lib/leveldb/db/db_impl.cc:1147-1211 | Groups carry consecutive disjoint sequence ranges in the order their writers arrived |
| GroupCommit.Simulates | lib/leveldb/db/db_impl.cc:1147-1211 | Every action of the queue in which nothing fails is a step of the store: the append logs the group, each insertion inserts the same entry, the end publishes, the rest changes nothing |
| GroupCommit.BackgroundKeeps | lib/leveldb/db/db_impl.cc:1147-1211 | Background steps between the actions of a leader keep queue and store in agreement |
| WriterQueue.ReadsSeeWholeGroups | lib/leveldb/db/db_impl.cc:1177-1194 | A read at the published sequence sees whole groups and nothing of the one in progress |
| WriterQueue.ExactlyOnce | lib/leveldb/db/db_impl.cc:1147-1211 | A writer that returned success is in exactly one group, logged, synced if it asked for it, inserted in order under consecutive numbers |
| WriterQueue.BuildBatchGroup | lib/leveldb/db/db_impl.cc:1217-1262 | The group is the longest prefix of the queue allowed by sync and size, and its batch the concatenation |
| WriterQueue.RunInv | lib/leveldb/db/db_impl.cc:1147-1262 | The invariant holds after any interleaving |
| SkipLists.SkipList.Insert | lib/leveldb/db/skiplist.h:334-367 | The contents are those of the sorted insertion, and every store on the way only grew the lists |
| SkipLists.StoreKeeps | lib/leveldb/db/skiplist.h:334-367 | After every single store each level is strictly sorted and part of the level below |
| SkipLists.SkipList.FindGreaterOrEqual | lib/leveldb/db/skiplist.h:259-278 | The first node at or after the target, and the node before it on every level |
| SkipLists.SkipList.FindLessThan | lib/leveldb/db/skiplist.h:282-299 | The last node before the target, or the head |
| SkipLists.SkipList.FindLast | lib/leveldb/db/skiplist.h:302-319 | The last node, or the head |
| SkipLists.SkipList.Contains | lib/leveldb/db/skiplist.h:370-377 | True exactly if an equal key is there |
| SkipReaders.SearchReturnsFirst | lib/leveldb/db/skiplist.h:259-278 | Interleaved with any stores of any inserts, a search returns the first key at or after its target in the bottom list at its last load |
| SkipReaders.LoadsAreSafe | lib/leveldb/db/skiplist.h:259-278 | The search always has a link to follow |
| Blocks.BlockBuilder.Add | lib/leveldb/table/block_builder.cc:73-107 | The block holds one more pair, its key shortened by all that it shares with the key before, except at every interval-th entry |
| Blocks.BlockBuilder.Finish | lib/leveldb/table/block_builder.cc:63-71 | Entries, restart offsets and their number make up a block of exactly the pairs added, in the one layout they can have |
| Blocks.LayoutOnce | lib/leveldb/table/block_builder.cc:73-107 | The pairs and the restart interval determine which entries are restart points and what every key shares |
| Blocks.BlockBuilder.SharedLength | lib/leveldb/table/block_builder.cc:79-85 | The longest common prefix |
| BlockReader.BlockIter.Seek | lib/leveldb/table/block.cc:164-202 | Binary search over restart points, then a scan: lands on the first key at or after the target |
| BlockReader.BlockIter.FindRestart | lib/leveldb/table/block.cc:164-190 | The last restart point whose key is before the target, or the first |
| BlockReader.BlockIter.Next | lib/leveldb/table/block.cc:138-141 | Moves to the next pair |
| BlockReader.BlockIter.Prev | lib/leveldb/table/block.cc:143-162 | Moves to the previous pair, or past the end from the first |
| BlockReader.BlockIter.SeekToFirst | lib/leveldb/table/block.cc:204-207 | Stands on the first pair |
| BlockReader.BlockIter.SeekToLast | lib/leveldb/table/block.cc:209-214 | Stands on the last pair |
| BlockReader.BlockIter.ParseNextKey | lib/leveldb/table/block.cc:225-252 | Rebuilds the key from the one before and keeps track of the restart point it is past |
| BlockReader.DecodeEntry | lib/leveldb/table/block.cc:52-73 | One-byte fast path and varints decode to the same header, or fail |
| BlockReader.ReadBlock | lib/leveldb/table/block.cc:138-252 | Reading from the front yields exactly the pairs added |
| Tables.TableBuilder.Add | lib/leveldb/table/table_builder.cc:92-121 | One more item; a pending index entry is made with the separator first, and the block is flushed exactly when it has reached the block size |
| Tables.TableBuilder.Flush | lib/leveldb/table/table_builder.cc:123-137 | The open data block becomes a block of the file, and its handle says where and how long it is |
| Tables.TableBuilder.Finish | lib/leveldb/table/table_builder.cc:199-254 | The file is, byte by byte, the data blocks, the filter block, the metaindex, the index and the footer; every block is in the index by its handle under the separator that closes it, and every key in the filter of its block |
| Tables.TableBuilder.WriteBlock | lib/leveldb/table/table_builder.cc:139-171 | A raw block is stored, compressed only if that saves an eighth, and its handle is its place and its stored size |
| Tables.TableBuilder.WriteRawBlock | lib/leveldb/table/table_builder.cc:173-193 | Contents, type byte and masked checksum go to the end of the file |
| Tables.BuildTable | lib/leveldb/db/builder.cc:17-54 | The items become one finished table whose blocks are all full but the last; smallest key, largest key and file size are reported |
| Tables.OpensAsBuilt | lib/leveldb/table/table.cc:38-84 | A finished file that is opened, with its filter policy, another or none, is a table with exactly its items |
| TableBytes.OpensBack | lib/leveldb/table/table.cc:38-135 | Footer, index, metaindex and filter are read back from the bytes as they were written |
| TableBytes.HandlesTile | lib/leveldb/table/table_builder.cc:173-193 | The handles of the data blocks start at 0 and follow each other without gap or overlap, five bytes of trailer between |
| TableBytes.BlockThere | lib/leveldb/table/table_builder.cc:139-193 | The bytes a handle delimits are the stored block, whatever follows in the file |
| TableFormat.ReadsBlock | lib/leveldb/table/format.cc:66-143 | A stored block is read back as it was, compressed or not, with the checksum verified or not |
| TableFormat.FooterRoundTrip | lib/leveldb/table/format.cc:32-64 | The two handles of a footer are read back, padding and magic number in place |
| TableFormat.HandleAt | lib/leveldb/table/format.cc:15-30 | A handle is read back wherever it stands |
| Tables.InternalGet | lib/leveldb/table/table.cc:216-249 | One index seek, the filter, one block read from the file by its handle: what the caller saves is what a search of the whole table would find for the user key |
| Tables.OneBlockSuffices | lib/leveldb/table/table.cc:216-249 | The block the index picks decides the lookup |
| Tables.MissBeyond | lib/leveldb/table/table.cc:216-249 | When the block is left behind, no item of the user key follows |
| Tables.FilteredMisses | lib/leveldb/table/table.cc:223-233 | A key the filter rules out is not in the table for that target |
| Tables.SeparatorCloses | lib/leveldb/table/table_builder.cc:96-107 | A separator in [last key, next first key) closes its block |
| Separators.FindShortestSeparator | lib/leveldb/util/comparator.cc:29-51 | A string in [start, limit), raised and cut at the first difference exactly if that stays before the limit |
| Separators.FindShortSuccessor | lib/leveldb/util/comparator.cc:53-65 | A string at or after the key: raised and cut at the first byte that is not 0xff, if any |
| Separators.InternalSeparator | lib/leveldb/db/dbformat.cc:68-85 | An internal key in [start, limit): the shortened user key with the first tag if it is shorter and later, else the whole key |
| Separators.InternalSuccessor | lib/leveldb/db/dbformat.cc:87-99 | An internal key at or after the key: the short successor with the first tag if it is shorter and later, else the whole key |
| Separators.OneSeparator | lib/leveldb/db/dbformat.cc:68-85 | There is one separator for two internal keys |
| Separators.InternalCompareOrders | lib/leveldb/db/dbformat.cc:50-66 | User key ascending, then tag descending |
| Separators.ParseStored | lib/leveldb/db/dbformat.cc:12-21 | An internal key stored as user key and tag is parsed back |
| FilterBlocks.FilterBlockBuilder.StartBlock | lib/leveldb/table/filter_block.cc:22-28 | One filter for every 2048 bytes of offset, up to the block's own: the first for the keys waiting, the others empty |
| FilterBlocks.FilterBlockBuilder.AddKey | lib/leveldb/table/filter_block.cc:30-34 | The key is recorded for its block offset |
| FilterBlocks.FilterBlockBuilder.GenerateFilter | lib/leveldb/table/filter_block.cc:52-76 | The pending keys become one filter |
| FilterBlocks.FilterBlockBuilder.Finish | lib/leveldb/table/filter_block.cc:36-50 | Every key added matches at its block offset in the finished bytes, which are the filters of the groups of keys, their offsets and the shift |
| FilterBlocks.AdvancedKeeps | lib/leveldb/table/filter_block.cc:22-28 | Starting a block loses no waiting key and moves none |
| FilterBlocks.FilterBlockReader.KeyMayMatch | lib/leveldb/table/filter_block.cc:95-109 | Answers as the bytes say: true when the block is too short, its offset array out of place, the filter missing or its range badly placed, false for an empty range |
| FilterBlocks.AddedMatches | lib/leveldb/table/filter_block.cc:22-109 | No false negatives through the offset array and the shift |
| Bloom.CreateFilter | lib/leveldb/util/bloom.cc:35-61 | Sets exactly the probed bits, with 32-bit wrap-around, and records the number of probes |
| Bloom.KeyMayMatch | lib/leveldb/util/bloom.cc:63-89 | True exactly if all probed bits are set, or the filter is too short or of another kind |
| Bloom.CreatedMatches | lib/leveldb/util/bloom.cc:35-89 | No false negatives |
| LruCache.LRUCache.Insert | lib/leveldb/util/cache.cc:228-259 | The new entry is newest, one with its key goes, then the oldest one by one: it stops as soon as the usage fits or the list is empty; other entries keep their data and order |
| LruCache.LRUCache.Lookup | lib/leveldb/util/cache.cc:212-221 | The entry with the key becomes newest and is handed out; nothing exactly when no entry has the key |
| LruCache.LRUCache.Release | lib/leveldb/util/cache.cc:223-226 | Gives a handle back; the deleter runs exactly when neither the cache nor a handle is left |
| LruCache.LRUCache.Erase | lib/leveldb/util/cache.cc:261-268 | Exactly the entry with the key leaves the cache |
| LruCache.LRUCache.Destroy | lib/leveldb/util/cache.cc:180-187 | With no handle out, every entry ever made has had its deleter run once |
| LruCache.LRUCache.Unref | lib/leveldb/util/cache.cc:189-197 | The last reference frees the entry, takes its charge off and runs the deleter |
| LruCache.LRUCache.FindPointer | lib/leveldb/util/cache.cc:98-105 | The slot that points to the entry with the key, or the end of its chain |
| LruCache.LRUCache.TableInsert | lib/leveldb/util/cache.cc:62-76 | Takes the place of the entry with the key, if any; the table grows exactly when there are more entries than chains |
| LruCache.LRUCache.TableRemove | lib/leveldb/util/cache.cc:78-86 | Takes out the entry with the key, if any |
| LruCache.LRUCache.Resize | lib/leveldb/util/cache.cc:107-132 | The same entries on new chains, as few as a power of two from four on allows for at most one entry a chain on average |
| LruCache.LRUCache.EvictUntilFits | lib/leveldb/util/cache.cc:251-256 | Drops the oldest while the usage is over the capacity, and not one more |
| LruCache.LRUCache.EvictOldest | lib/leveldb/util/cache.cc:251-256 | The oldest entry leaves list and table |
| LruCache.LRUCache.TableLookup | lib/leveldb/util/cache.cc:58-60 | The entry with the key exactly when there is one |
| LruCache.DeletersRunOnce | lib/leveldb/util/cache.cc:189-197 | The deleter has run, once, for exactly the entries that neither cache nor caller holds |
| LruCache.UnlinkKeeps | lib/leveldb/util/cache.cc:199-202 | LRU_Remove takes one entry out of the circular list |
| LruCache.AppendKeeps | lib/leveldb/util/cache.cc:204-210 | LRU_Append puts one entry in front of the head |
| LruCache.MoveOne | lib/leveldb/util/cache.cc:115-127 | One turn of the Resize loop moves one entry and loses none |
| InlineFiles.TableFS.Write | src/fs/tablefs.cpp:625-686 | The file becomes the flat zero-filled array a write should leave, on either side of the threshold, exactly if bytes are written or the offset is not past the end; no other file changes, and the name stored with the file stays |
| InlineFiles.TableFS.Read | src/fs/tablefs.cpp:599-623 | Returns that stretch of the flat array |
| InlineFiles.TableFS.Truncate | src/fs/tablefs.cpp:748-805 | The file is cut or zero-extended, moving between inline and disk as needed; the name stored with it stays |
| InlineFiles.TableFS.Unlink | src/fs/tablefs.cpp:858-886 | The size test removes a disk file exactly when the file has one; nothing is left behind |
| InlineFiles.TableFS.Open | src/fs/tablefs.cpp:547-597 | Opens what exists, with its disk file if it has one, and changes no file |
| InlineFiles.TableFS.Release | src/fs/tablefs.cpp:712-746 | What the session did goes to the store |
| InlineFiles.TableFS.MakeNode | src/fs/tablefs.cpp:888-916 | A new empty file under a new inode number, with its name and a NUL in its value |
| InlineFiles.TableFS.MigrateToDiskFile | src/fs/tablefs.cpp:519-540 | The disk file holds exactly the inline bytes, which leave the value |
| InlineFiles.FileWrote | src/fs/tablefs.cpp:625-686 | Among all files: the invariant and the write are right exactly under that condition |
| InlineFiles.OneChanged | src/fs/tablefs.cpp:69-120 | A change to one inode and its disk file leaves every other file alone |
| InlineFiles.TruncatedAll | src/fs/tablefs.cpp:748-805 | All four ways of truncating keep size, blob flag and bytes in step |
| InlineFiles.SharedPath | src/fs/tablefs.cpp:479-484 | Two inodes share a disk file exactly when their low 32 bits agree |
| InlineFiles.UpdateWrites | src/fs/tablefs.cpp:83-89 | resize and replace on the string make the write |

## Left out

- Snapshots: with them one user key can straddle two files of a level, and picking does not pull in the neighbour; the store-wide results are for runs without live snapshots, while `Drop` is proved for every reader at or above the smallest snapshot.
- Manual compaction of a range (`CompactRange`), repair, destruction of a database, properties, statistics and the seek allowance.
- The scores of `Finalize`: which level is compacted is left open.
- I/O errors in flushes, compactions, manifest writes and TableFS disk files: these calls succeed; failures of log appends and syncs are modelled in `WriterQueue`.
- Torn manifest records: recovery reports corruption there, and the crash result is about successful reopenings.
- DbImpl.DBImpl.DeleteObsoleteLogs: log files only; the model has no table, manifest or temporary files on disk to delete.
- DbImpl.DBImpl.Write: the part of the leader that succeeds; the queue and the failures are in `WriterQueue`, and `GroupCommit` relates the two.
- DbImpl.DBImpl.BackgroundCompaction: the branch for manual compactions is not modelled, and flushing the immutable memtable is `CompactMemTable`.
- DbImpl.DBImpl.FinishCompaction: the memtable flush inside the loop is a step of its own, which `Store` lets come in between.
- CompactionWork.DoCompactionWork: shutting down and keys that do not parse are not modelled, nor the flush inside the loop.
- Manifest.Recover: works on decoded records, and the comparator's name is not compared.
- DbImpl.DBImpl.Get: at the current sequence, not at one given in the read options.
- Recovery.ReopenFrom: works on decoded records; `LogRoundTrip`, `WriteBatches` and `EditCodec` state what the bytes give.
- EditCodec.EditRoundTrip: internal keys are byte strings there and not related to the ranks of `Builder.Edit`.
- LogReader.Reader.ReadPhysicalRecord: as for `ReadRecord`, and reading the file does not fail.
- LogReader.Reader.ReadRecord: from the start of the file only (no initial offset), with an abstract checksum function; only masking is modelled.
- WriterQueue.ExactlyOnce: every writer asks for the log (`writeahead` true), as TableFS does by default; batch sizes are a parameter.
- SkipLists.SkipList.Insert: loads and stores are sequentially consistent, so the barriers are taken to do their work; the node's random height is a parameter.
- BlockReader.BlockIter.Seek: on blocks the builder made; the error status on malformed blocks is not modelled.
- BlockReader.BlockIter.ParseNextKey: the same; a malformed entry ends the iteration with an error in the source.
- Tables.TableBuilder.Finish: writing the file does not fail, and blocks stay below 4 GB, so that their decoder undoes their encoder.
- Tables.InternalGet: on tables the builder made; error statuses and the block cache are not modelled.
- Bloom.CreateFilter: the number of probes is a parameter; the source derives it from the bits per key by a floating-point factor.
- FilterBlocks.FilterBlockBuilder.AddKey: the flattened key buffer and its start offsets are a list of keys.
- LruCache.LRUCache.Insert: one shard; choosing the shard by the top bits of the hash and `NewId` are left out, and masking with a power of two is the remainder.
- WriteBatches.InsertInto: gives the list of memtable insertions; putting them in place is `MemTable` and `SkipLists`.
- InlineFiles.TableFS.Write: files opened for reading and writing without truncation, one session per file at a time, full writes.
- InlineFiles.TableFS.Truncate: on a file that is not open; the descriptor that the source leaves uninitialised is taken as closed, and the header pointer it keeps across a resize as still valid.
- InlineFiles.TableFS.Unlink: on a file that is not open.
- InlineFiles.TableFS.Open: for reading and writing; read-only, write-only and truncating opens are not modelled.
- InlineFiles.TableFS.MakeNode: the caller has seen that the name is free, and inode numbers stay below 2^32.
- TableFS path lookup, directories, links, renames, times and the coherence of its caches.
- The `.c` translations of the `src` tree, whose bodies are mostly stubs.
