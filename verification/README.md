# goleveldb and snappy: a verified model

This project models the storage engine vendored in the repository, the LSM store
goleveldb (`go_code/go/github.com/syndtr/goleveldb`), and the block codec under it,
golang/snappy (`go_code/go/github.com/golang/snappy`), and proves what they are for.
`dafny verify dfyconfig.toml` checks it all.

## The results

- **Reads match a flat log.** The store is a step system: a writer that puts records
  before it publishes them, memdb rotation and flush, table compactions and moves that
  commit into a later version than they were picked from, snapshots, and readers that
  load sequence number, memdbs and version one at a time; at any moment the process may
  end, losing the end of the log behind what has been flushed, and the store be opened
  again. In every state of every run a finished read returned what walking the flat log of
  writes gives (`StoreProof.ReadsMatchLog`), for the very key and number it was started with
  (`Asked.ReadReturnsWhatWasAsked`), so a snapshot shows its moment
  (`Asked.SnapshotReadsItsMoment`) and a new read all that has been published
  (`Asked.PublishedIsSeen`). What an iterator has pinned stands for the same
  map in every later state, whatever is written into its memdbs (`Scans.PinnedMapStays`),
  and at any of these moments the user-key iterator built over the merged iterator over the
  pinned memdbs and tables walks exactly the log's map at its sequence number
  (`Scans.NewIterator`), although these sources may hold an entry twice
  (`StoreCopies.SharedIff`, `Scans.SourcesTwice`).
- **Compaction is safe and resumes exactly.** The obsolete entries dropped change no
  answer from the watermark on (`CompactionSafety.CompactionKeepsAnswers`); the input
  search closes its inputs (`Compaction.Compaction.Expand`); a build that failed any
  number of times at any place ends with the tables of one that never failed
  (`Builder.CompactionTransact`), cut exactly where the rule says (`TableCuts.CutRule`);
  and whichever way a compaction goes, the edit it records changes no answer from the
  watermark on (`TableCompaction.Compact`).
- **Cursors.** The merged, the concatenating and the version-hiding iterator are each a
  cursor over one sorted sequence, through all changes of direction; the merged one over
  children that may share entries.
- **Indexes agree with what they speed up.** The skip list packed into an integer array
  is a sorted map (`MemDb`); seeking in a table file through separators, restart points
  and shared prefixes finds what a linear scan finds, with filters that never hide a
  user key and answer exactly what their keys' probes say (`TableReader.Find`; from
  appending the entries to searching the opened file, with closing sure to succeed while
  index and filter stay within 32 bits, `TableRoundTrip.WriteThenFind`); the lazily resized hash table is a plain map for every interleaving of its goroutines
  (`CacheMap.AlwaysThePlainMap`).
- **Durability.** A journal cut at any byte recovers exactly the groups of writes before
  the cut that replay accepts, wherever the memdb is flushed meanwhile (`Recovery.Recover`,
  and for all journals still needed `Recovery.RecoverAll`), and a run's journal is accepted
  whole unless a `Sync` in it failed (`Durability.ReplayTakesAll`); replaying a manifest gives
  the version and the compaction positions there were (`Manifest.Recover`); a table file is
  removed exactly when its last live version goes (`FileRefs.Session.SetVersion`). What a
  damaged block costs a reader is bounded (`JournalBytes.DamagedStartLosesOneRecord`), and
  the formats are pinned byte by byte (`JournalBytes.JournalChunks`, `WireFormat`).
- **Merged writes.** One holder of the write lock, every reply and acknowledgement to the
  right writer; each successful write has its own stretch of sequence numbers in one
  journal record, a failed one is in the journal exactly when its leader failed at `Sync`
  (`WriteMerge.EveryCallsRecords`), and the records that count tile the numbers given out
  (`WriteMerge.NumbersTiled`); what is merged fits the room there is
  (`MergeRoom.RefusedIffTooLarge`).
- **Snappy.** `SnappyEncode.Encode` produces, within the stated size bound, a block that
  decodes to the source; `SnappyDecode.Decode` accepts exactly the blocks of the format
  (sections 1 and 2 of the Snappy format description), so decoding undoes encoding
  (`SnappyRoundTrip.RoundTrip`).

## How it is built

Code that changes things step by step is imperative here too: the compaction and its
builder, the iterators, the memdb, the block, filter and table writers, the block
iterator, the journal writer and reader, batches, version staging, reference counts, the
snapshot list and the codec loops are classes and methods, proved against functions over
their inputs or a ghost value (a sequence of entries, a map, a multiset) that each method
updates. Functions and lemmas then say what these values mean. Protocols whose steps
interleave (the whole store, merged writes, the cache) are step systems on values, with
an invariant and theorems over every run. How the two fit together: the conditions a step
of `Store` sets for a compaction's inputs, for its merged entries, for its output and for a
search of the tables are what `Compaction.Compaction.Expand`, `SourceRuns.CompactionInput`,
`Builder.CompactionTransact` and `VersionGet.Get` ensure.

| part | modules |
|---|---|
| vocabulary | Keys, Lookup, Tables, Levels |
| reads of tables, compaction | VersionGet, Compaction, CompactionSpec, TableCuts, CompactionSafety, Builder, LevelEdits, TableCompaction |
| the store | Store, StoreProof, Asked, StoreCopies, SharedRuns, SnapshotList |
| iterators | Cursors, MergedRuns, MergedIterator, IndexedIterator, DbIter, SourceRuns, Scans |
| memdb | SkipList, MemDb, MemIter |
| keys and table files | InternalKeys, Varint, BlockFormat, BlockWriter, BlockReader, RawBlock, Bloom, FilterBlock, TableIndex, TableFooter, TableReader, TableWriter, TableRoundTrip |
| journal and batches | JournalFormat, JournalWriter, JournalReader, JournalBytes, Batches, Recovery, Durability |
| manifest and files | SessionRecord, Manifest, FileRefs |
| merged writes, cache | WriteMerge, MergeRoom, CacheMap |
| formats in numbers | WireFormat |
| snappy | SnappyFormat, SnappyDecode, SnappyEncode, SnappyRoundTrip |

Three modelling decisions run through the store modules.

- User keys are integers, standing for their rank in the comparer's order.
  `InternalKeys.RanksKeepInternalOrder` shows that nothing is lost: internal keys over
  bytes are ordered exactly as their images. The memdb, the table files and the codecs
  work on bytes.
- Table sizes, size limits, the choice of what to compact, node heights and every read or
  write that may fail are arbitrary values or choices.
- Checksums and the hashes of the Bloom filter and the cache are arbitrary functions with
  their range; the snappy hash is the real one, though nothing depends on it.

## What the code does differently from what it says

- The comment on `encodeBlock` asks for room of at least `MaxEncodedLen(len(src))`. The
  first block has that room exactly when the source has 65538 bytes or more, or the buffer
  is that much longer than the length header (`SnappyEncode.FirstBlockRoom`); a buffer that
  `Encode` makes itself falls short below 65538 bytes (`SnappyEncode.NewBufferRoom`), the
  table writer's never does (`SnappyEncode.TableWriterRoom`). Nothing is written out of
  bounds in any case: `SnappyEncode.EncodeBlock` needs less than the comment asks for.
- A journal write whose `Sync` fails returns an error, but its record is in the journal, and
  the next write takes the same sequence numbers (`WriteMerge.NumberReused`, with a run in
  `WriteMerge.SameNumberTwice`). Replay then takes the failed record and passes over the next
  one, which may have been acknowledged (`Durability.NextIsLost`).
- `sessionRecord.encode` never writes the previous journal number that `decode` reads, so a
  record survives if and only if it has none (`SessionRecord.SurvivesIff`).
- The merged iterator asks for children without common keys. An iterator that loads its
  memdbs before and the version after a flush breaks this (`SharedRuns.FlushedWhileLoading`,
  and exactly when: `StoreCopies.SharedIff`). The merged iterator then shows an entry twice
  moving forward, and turning round it may show the same entry again or leave both copies
  behind (`MergedIterator.NextFrom` and `PrevFrom` say where it goes). No user of the store
  sees this: no entry is there more than twice (`Scans.SourcesTwice`), and for that
  `DbIter.DbIter` is an exact cursor over the visible map all the same.
- A Bloom filter for so many keys that the 32-bit number of bits comes out above 2^32 - 8
  has no bytes at all, and making it divides by zero (`Bloom.Generator.Generate`); where the
  number merely wraps round, the filter is small but still hides no key.
- Closing a table without entries does not write an empty table, as the code means it to: the
  internal key comparer panics on the empty key (`TableWriter.Writer.CloseEmpty`).
- The drop rules use the largest sequence number as the mark for "first version of this
  key", so they are right if and only if the watermark is below it
  (`CompactionSpec.KeptIffBelowMaxSeq`); the writer step of `Store` stops in front of it.

## Model

| member | source | states |
|---|---|---|
| `Lookup.AnswerExistsAndIsUnique` | go_code/go/github.com/syndtr/goleveldb/leveldb/db.go:736-786 | Over entries with unique sequence numbers a read of a key at a sequence number has one right answer, and exactly one. |
| `Lookup.FirstGEIsNewest` | go_code/go/github.com/syndtr/goleveldb/leveldb/db.go:736-755 | The first entry at or after the seek key (key, seq) is the newest version visible at seq, and if it belongs to another key then no version is visible. |
| `VersionGet.Find` | go_code/go/github.com/syndtr/goleveldb/leveldb/table.go:377-384 | Searching one table returns the newest visible version of the key, or shows that it holds none, whatever a filter that never hides a visible key answers. |
| `VersionGet.ScanLevel0` | go_code/go/github.com/syndtr/goleveldb/leveldb/version.go:111-120 | Scanning the overlapping level-0 tables and keeping the largest seq gives the newest visible version among all level-0 entries. |
| `VersionGet.SearchLevel` | go_code/go/github.com/syndtr/goleveldb/leveldb/version.go:121-130 | On a disjoint level the one table found by binary search holds the newest visible version of the whole level. |
| `VersionGet.FirstLevelWins` | go_code/go/github.com/syndtr/goleveldb/leveldb/version.go:87-136 | Under the level order the newest version of the first level that shows one is the newest of the whole version. |
| `VersionGet.Get` | go_code/go/github.com/syndtr/goleveldb/leveldb/version.go:138-237 | The search with early exit answers exactly as a scan of every entry of every table would. |
| `Tables.GetOverlaps` | go_code/go/github.com/syndtr/goleveldb/leveldb/table.go:183-209 | The restarting search ends and returns, in order, the tables meeting the least range around the one asked for that no table straddles; on a disjoint level simply the tables meeting that range. |
| `Tables.GetRange` | go_code/go/github.com/syndtr/goleveldb/leveldb/table.go:212-227 | The bounds returned are the smallest and largest keys of the tables, and are attained. |
| `Tables.SearchMax` | go_code/go/github.com/syndtr/goleveldb/leveldb/table.go:147-151 | Binary search splits a disjoint level at the first table whose largest key is not before the key. |
| `Compaction.HullSelect` | go_code/go/github.com/syndtr/goleveldb/leveldb/session_compaction.go:174-190 | Searching again with the hull of a closed selection selects the same tables. |
| `Compaction.Compaction.constructor` | go_code/go/github.com/syndtr/goleveldb/leveldb/session_compaction.go:115-127 | A new compaction starts with closed inputs that contain the tables it was started from and are exactly the ones `Expand` describes, and with fresh counters and level cursors. |
| `Compaction.Compaction.Save` | go_code/go/github.com/syndtr/goleveldb/leveldb/session_compaction.go:152-157 | The saved counters and level cursors are the current ones. |
| `Compaction.Compaction.Restore` | go_code/go/github.com/syndtr/goleveldb/leveldb/session_compaction.go:159-164 | The current counters and level cursors are again the saved ones. |
| `Compaction.Compaction.SourceOverlaps` | go_code/go/github.com/syndtr/goleveldb/leveldb/session_compaction.go:182-188 | Widening the source tables by a search with their own range gives all tables that meet the hull of what is found, the starting ones among them. |
| `Compaction.Compaction.Expand` | go_code/go/github.com/syndtr/goleveldb/leveldb/session_compaction.go:174-219 | Whatever tables it starts from and whatever the size limit, the inputs come out closed (every source-level table meeting their range, every next-level table meeting it), the starting tables stay in, and the grandparents are the tables two levels down that meet the range. The inputs are the least closed ones around the starting tables, or, exactly when more source tables meet the whole range, all stay below the limit and no more next-level tables are met, the least closed ones around both. |
| `Compaction.Compaction.Grow` | go_code/go/github.com/syndtr/goleveldb/leveldb/session_compaction.go:193-209 | Taking more source tables, when that is decided, again gives closed inputs with nothing lost. |
| `Compaction.LeastIsLeast` | go_code/go/github.com/syndtr/goleveldb/leveldb/table.go:183-209 | Every closed set of source tables that contains the starting ones contains all that are taken before growing. |
| `Compaction.Compaction.Trivial` | go_code/go/github.com/syndtr/goleveldb/leveldb/session_compaction.go:222-224 | A move is chosen exactly when the closed inputs are one table whose key range meets no table of the next level, and the grandparents are within the limit. |
| `Compaction.Compaction.BaseLevelForKey` | go_code/go/github.com/syndtr/goleveldb/leveldb/session_compaction.go:226-243 | For keys asked in order the advancing level cursors answer exactly whether no table of any deeper level covers the key, and stay usable for every later key. |
| `Compaction.Compaction.ShouldStopBefore` | go_code/go/github.com/syndtr/goleveldb/leveldb/session_compaction.go:245-263 | It stops exactly when the sizes of the grandparents counted since the last stop and those now passed, all wholly before the key, exceed the limit; none are counted before the first key, and a stop sets the count back. |
| `CompactionSpec.KeptMembers` | go_code/go/github.com/syndtr/goleveldb/leveldb/db_compaction.go:484-501 | The kept entries are sorted and are exactly the entries that are not obsolete (shadowed at the watermark, or a tombstone there with nothing deeper). |
| `CompactionSpec.KeptExactly` | go_code/go/github.com/syndtr/goleveldb/leveldb/db_compaction.go:484-501 | Kept is every entry above the watermark, and of the others of a key the newest alone, unless it is a tombstone with nothing deeper. |
| `CompactionSpec.OneAtWatermark` | go_code/go/github.com/syndtr/goleveldb/leveldb/db_compaction.go:484-501 | At most one entry of a key at or below the watermark is kept. |
| `CompactionSpec.OutputsAreKept` | go_code/go/github.com/syndtr/goleveldb/leveldb/db_compaction.go:446-510 | A run with no failure outputs exactly the entries that are not obsolete, in tables that are never empty and never share a user key. |
| `TableCuts.SizesAdd` | go_code/go/github.com/syndtr/goleveldb/leveldb/table.go:130-135 | The size of a list of tables is the sum of theirs. |
| `TableCuts.StopsFollowRule` | go_code/go/github.com/syndtr/goleveldb/leveldb/session_compaction.go:245-263 | Over a whole run the builder is told to stop exactly where the grandparents passed since the last stop, not counting those before the first key, are together larger than the limit. |
| `TableCuts.StopsUnique` | go_code/go/github.com/syndtr/goleveldb/leveldb/session_compaction.go:245-263 | There is only one way to follow that rule. |
| `TableCuts.CutRule` | go_code/go/github.com/syndtr/goleveldb/leveldb/db_compaction.go:454-510 | The open table is finished in front of an entry exactly when its user key is new, the table is not empty, and it is full or this is a place to stop; the entry then joins the open table unless it is obsolete. |
| `TableCuts.OneTable` | go_code/go/github.com/syndtr/goleveldb/leveldb/db_compaction.go:454-520 | When all grandparents together are within the limit and nothing kept fills a table, at most one table comes out. |
| `CompactionSpec.KeptIffBelowMaxSeq` | go_code/go/github.com/syndtr/goleveldb/leveldb/db_compaction.go:484-501 | The drop rules keep exactly the entries that are not obsolete, for all sorted inputs, if and only if the watermark is below the largest sequence number. |
| `CompactionSafety.CompactionKeepsAnswers` | go_code/go/github.com/syndtr/goleveldb/leveldb/db_compaction.go:454-501 | Replacing compacted entries by the kept ones changes no answer at any sequence number from the watermark on, beside whatever newer or deeper entries the rest of the store holds. |
| `Builder.RotationIsResumePoint` | go_code/go/github.com/syndtr/goleveldb/leveldb/db_compaction.go:460-482 | The state saved when a table is finished before an entry is one from which re-running that entry, without its grandparent check, continues the failure-free run. |
| `Builder.StepLeadsToAt` | go_code/go/github.com/syndtr/goleveldb/leveldb/db_compaction.go:446-510 | Resumed or not, processing the next entry reaches the state of a run with no failure. |
| `Builder.TableCompactionBuilder.constructor` | go_code/go/github.com/syndtr/goleveldb/leveldb/db_compaction.go:355-371 | A new builder can run, with nothing built. |
| `Builder.TableCompactionBuilder.AppendKV` | go_code/go/github.com/syndtr/goleveldb/leveldb/db_compaction.go:373-397 | The entry joins the open table, opened if need be under a new number; a failure leaves the numbering consistent. |
| `Builder.TableCompactionBuilder.Cleanup` | go_code/go/github.com/syndtr/goleveldb/leveldb/db_compaction.go:415-420 | A half-written table goes and the finished ones stay numbered below the next number. |
| `Builder.TableCompactionBuilder.Rotate` | go_code/go/github.com/syndtr/goleveldb/leveldb/db_compaction.go:460-477 | Finishing the open table at a new user key saves a resume point there; failing leaves the old one. |
| `Builder.TableCompactionBuilder.Flush` | go_code/go/github.com/syndtr/goleveldb/leveldb/db_compaction.go:403-413 | A finished table joins the output with its contents and its key range; a failure adds nothing. |
| `Builder.TableCompactionBuilder.Drops` | go_code/go/github.com/syndtr/goleveldb/leveldb/db_compaction.go:484-501 | An entry is dropped exactly when an earlier version of its key is at or below the watermark, or it is a tombstone there that nothing deeper covers. |
| `Builder.TableCompactionBuilder.Process` | go_code/go/github.com/syndtr/goleveldb/leveldb/db_compaction.go:446-510 | One loop turn that succeeds moves the builder from the failure-free state before the entry to the one after it; one that fails leaves the saved state a resume point. |
| `Builder.TableCompactionBuilder.Run` | go_code/go/github.com/syndtr/goleveldb/leveldb/db_compaction.go:422-528 | A run may fail at any read, in front of any entry, or at any write, and then can run again; a run that succeeds has the tables, contents and boundaries of a run with no failure. |
| `Builder.CompactionTransact` | go_code/go/github.com/syndtr/goleveldb/leveldb/db_compaction.go:150-233 | However often and wherever runs fail, a build that succeeds holds exactly the entries that are not obsolete, cut only between user keys. Each table carries the size of its file, and the entries not kept are counted. |
| `TableCompaction.Compact` | go_code/go/github.com/syndtr/goleveldb/leveldb/db_compaction.go:540-591 | Whether inputs are moved or rebuilt, and however often the build fails, committing the recorded edit to the version it was made from leaves a legal version that answers every read from the watermark on as before; the one table is moved exactly when it may be. |
| `TableCompaction.MoveIsHarmless` | go_code/go/github.com/syndtr/goleveldb/leveldb/db_compaction.go:546-553 | Moving a table that meets no table of the next level changes no answer. |
| `SourceRuns.CompactionInput` | go_code/go/github.com/syndtr/goleveldb/leveldb/session_compaction.go:266-302 | In every run, the merged union of a compaction's inputs is strictly sorted and holds exactly the entries of its tables: no record is twice among them. |
| `LevelEdits.EditWf` | go_code/go/github.com/syndtr/goleveldb/leveldb/session_compaction.go:174-219 | Replacing closed inputs by tables built from their entries keeps every table well formed and every level from 1 on sorted and disjoint. |
| `LevelEdits.EditOrder` | go_code/go/github.com/syndtr/goleveldb/leveldb/session_compaction.go:174-219 | It also keeps the level order: for each user key a shallower level holds only newer entries. |
| `LevelEdits.EditEntries` | go_code/go/github.com/syndtr/goleveldb/leveldb/version.go:421-513 | The entries of the store change exactly by the inputs going and the outputs coming. |
| `LevelEdits.RestIsBeside` | go_code/go/github.com/syndtr/goleveldb/leveldb/session_compaction.go:226-243 | Whatever is left alone is newer than the inputs of its key or sits in a deeper table that covers the key. |
| `LevelEdits.EditAnswers` | go_code/go/github.com/syndtr/goleveldb/leveldb/version.go:449-513 | Replacing closed inputs by what is kept of them leaves a legal version that answers every read from the watermark on as before. |
| `Store.MemWins` | go_code/go/github.com/syndtr/goleveldb/leveldb/db.go:757-773 | A version found in the effective memdb is the newest of the whole log at that sequence number. |
| `Store.FrozenWins` | go_code/go/github.com/syndtr/goleveldb/leveldb/db.go:757-773 | After a miss there, a version found in the frozen memdb is the newest of the whole log. |
| `Store.BothMissed` | go_code/go/github.com/syndtr/goleveldb/leveldb/db.go:757-786 | After a miss in both, the flushed part of the log answers like the whole log. |
| `Store.PinnedAnswers` | go_code/go/github.com/syndtr/goleveldb/leveldb/db_iter.go:36-66 | The memdbs and the version an iterator pins answer every key like the log. |
| `StoreProof.FlushOrder` | go_code/go/github.com/syndtr/goleveldb/leveldb/db_compaction.go:301-322 | A level-0 table newer than the whole version keeps the level order. |
| `StoreProof.JobFits` | go_code/go/github.com/syndtr/goleveldb/leveldb/db_compaction.go:540-591 | The inputs of a compaction still fit the version current when it commits, though flushes may have committed since it was picked. |
| `StoreProof.BuiltIsLegal` | go_code/go/github.com/syndtr/goleveldb/leveldb/db_compaction.go:422-528 | The tables the builder delivers are legal outputs for the inputs and hold exactly the kept entries. |
| `StoreProof.CompactLevels` | go_code/go/github.com/syndtr/goleveldb/leveldb/db_compaction.go:540-591 | Committing a compaction keeps the table invariant, now at the new watermark. |
| `StoreProof.MoveTables` | go_code/go/github.com/syndtr/goleveldb/leveldb/db_compaction.go:546-553 | A trivial move keeps the table invariant. |
| `StoreProof.FlushMemKeeps` | go_code/go/github.com/syndtr/goleveldb/leveldb/db_compaction.go:267-347 | The commit of a memdb flush keeps the store invariant, for readers between any of their loads. |
| `StoreProof.CrashKeeps` | go_code/go/github.com/syndtr/goleveldb/leveldb/db.go:474-635 | When the process ends and the store is opened again on its tables and any first part of the journals behind them, the invariant holds of what is left: reads go on matching the log that survived. |
| `StoreProof.NextKeeps` | go_code/go/github.com/syndtr/goleveldb/leveldb/db_state.go:122-213 | Every step of the store (write, publish, rotate, flush, drop, pick, watermark, commit, move, snapshot, each load of each reader, a crash and reopening) keeps the invariant. |
| `StoreProof.RunKeeps` | go_code/go/github.com/syndtr/goleveldb/leveldb/db.go:87-158 | So it holds in every state of every run from an empty store. |
| `StoreProof.LogGetAnswers` | go_code/go/github.com/syndtr/goleveldb/leveldb/db.go:757-786 | Walking the flat log back to the newest write of the key at or below the sequence number is the right answer over the set of its records. |
| `StoreProof.ReadsMatchLog` | go_code/go/github.com/syndtr/goleveldb/leveldb/db.go:757-786 | In every state of every run, whatever steps fell between the reader's loads, a finished read returned what the flat log of writes says for its key and sequence number. |
| `Asked.ReadReturnsWhatWasAsked` | go_code/go/github.com/syndtr/goleveldb/leveldb/db_snapshot.go:102-115 | In every run, a read of a key at a number that some step starts is there in every later state until a crash, and once finished has returned what the flat log says of that key as of that number, the log of the moment it started and of any since. |
| `Asked.PublishedIsSeen` | go_code/go/github.com/syndtr/goleveldb/leveldb/db_write.go:239-246 | Whatever was written before a publishing step is seen by every read that starts at the current sequence number after it. |
| `Asked.SnapshotStaysReadable` | go_code/go/github.com/syndtr/goleveldb/leveldb/db_snapshot.go:28-46 | Until it is released, or a crash, a read can start on a snapshot at any time. |
| `Asked.SnapshotReadsItsMoment` | go_code/go/github.com/syndtr/goleveldb/leveldb/db_snapshot.go:102-115 | A read on a snapshot returns what the log said when the snapshot was acquired, whatever has been written, flushed or compacted since and meanwhile. |
| `StoreProof.IteratorsMatchLog` | go_code/go/github.com/syndtr/goleveldb/leveldb/db_iter.go:36-92 | The sources an iterator pinned answer every key as the log did at its sequence number, in every later state and after its snapshot is gone. |
| `Asked.IteratorShowsWhatWasAsked` | go_code/go/github.com/syndtr/goleveldb/leveldb/db_snapshot.go:150-168 | An iterator that some step starts at a number pins sources that answer every key as the log did as of that number. |
| `StoreCopies.NextOnce` | go_code/go/github.com/syndtr/goleveldb/leveldb/db_iter.go:36-65 | Each step of the store keeps that memdbs share no record, that tables of a version share none, and that flushed records above the watermark stay in the tables. |
| `StoreCopies.CrashOnce` | go_code/go/github.com/syndtr/goleveldb/leveldb/db.go:474-635 | After a crash and reopening memdb and tables share no record, and flushed records are still in the tables. |
| `StoreCopies.RunOnce` | go_code/go/github.com/syndtr/goleveldb/leveldb/db_iter.go:36-65 | So it is in every state of every run. |
| `StoreCopies.SharedIff` | go_code/go/github.com/syndtr/goleveldb/leveldb/db_iter.go:36-39 | A reader's memdbs and the version it then loads share exactly the records behind the memdbs' start that the tables still hold: none unless something behind the start has been flushed; and, as long as no compaction has used a watermark above the start, some exactly when something has. |
| `SharedRuns.FlushedWhileLoading` | go_code/go/github.com/syndtr/goleveldb/leveldb/db_compaction.go:297-352 | A run in which the memdb is flushed between the two loads of an iterator, which then has a record twice among its sources. |
| `SharedRuns.CompactedWhileLoading` | go_code/go/github.com/syndtr/goleveldb/leveldb/db_compaction.go:297-352 | A run in which the flushed record is also compacted away before the version is loaded, so that nothing is shared. |
| `SourceRuns.VersionRuns` | go_code/go/github.com/syndtr/goleveldb/leveldb/version.go:256-269 | The runs of a version's tables, one per level-0 table and one per deeper level, are sorted, hold its entries, and no two share one. |
| `Scans.SourcesTwice` | go_code/go/github.com/syndtr/goleveldb/leveldb/db_iter.go:36-65 | In every run, the sources an iterator merges are log records only, and their union has each exactly as often as it is in the memdbs and in the tables, once in each at most. |
| `Scans.IteratorWalksLog` | go_code/go/github.com/syndtr/goleveldb/leveldb/db_iter.go:36-92 | In every run, the visible map over the merged union of an iterator's pinned sources, entries that memdbs and tables share included twice, has ascending keys and is exactly the map of live keys and values the flat log describes at the iterator's sequence number. |
| `Scans.PinnedMapStays` | go_code/go/github.com/syndtr/goleveldb/leveldb/db_iter.go:36-92 | The map an iterator walks over its pinned sources is the same in every later state of the run, though its memdbs may grow and its sources may be merged anew. |
| `Scans.NewIterator` | go_code/go/github.com/syndtr/goleveldb/leveldb/db_iter.go:68-92 | An iterator built over a pinned reader's sources stands before the first key of exactly the map the flat log describes at its sequence number. |
| `SnapshotList.DB.AcquireSnapshot` | go_code/go/github.com/syndtr/goleveldb/leveldb/db_snapshot.go:28-46 | One more snapshot at the current sequence number is held, sharing the last list element when it has that number. |
| `SnapshotList.DB.ReleaseSnapshot` | go_code/go/github.com/syndtr/goleveldb/leveldb/db_snapshot.go:49-60 | Exactly one holding of that number is given back; the element leaves the list with its last holder. |
| `SnapshotList.DB.MinSeq` | go_code/go/github.com/syndtr/goleveldb/leveldb/db_snapshot.go:63-72 | The watermark is the smallest held snapshot, or the current sequence number when none is held. |
| `MergedIterator.MergedIterator.First` | go_code/go/github.com/syndtr/goleveldb/leveldb/iterator/merged_iter.go:62-82 | Stands on the first entry of the sorted union of the children, in which shared entries are as often as children have them. |
| `MergedIterator.MergedIterator.Last` | go_code/go/github.com/syndtr/goleveldb/leveldb/iterator/merged_iter.go:84-104 | Stands on the last entry of the union. |
| `MergedIterator.MergedIterator.Seek` | go_code/go/github.com/syndtr/goleveldb/leveldb/iterator/merged_iter.go:106-126 | Stands on the first entry of the union at or after the key, or past the end. |
| `MergedIterator.MergedIterator.next` | go_code/go/github.com/syndtr/goleveldb/leveldb/iterator/merged_iter.go:128-145 | Picking the smallest child key gives the entry of the union at the cursor. |
| `MergedIterator.MergedIterator.Next` | go_code/go/github.com/syndtr/goleveldb/leveldb/iterator/merged_iter.go:147-177 | One position on in the union at either end and moving forward; turning round it seeks the current key first and so lands behind the first copy of it, which is one position on unless the entry is shared. |
| `MergedIterator.MergedIterator.prev` | go_code/go/github.com/syndtr/goleveldb/leveldb/iterator/merged_iter.go:179-196 | Picking the largest child key gives the entry of the union at the cursor. |
| `MergedIterator.MergedIterator.TurnRound` | go_code/go/github.com/syndtr/goleveldb/leveldb/iterator/merged_iter.go:209-225 | Turning from forward to backward cuts the union in front of every copy of the current key. |
| `MergedIterator.MergedIterator.Prev` | go_code/go/github.com/syndtr/goleveldb/leveldb/iterator/merged_iter.go:198-238 | One position back in the union at either end and moving backward; turning round it goes in front of every copy of the current key. |
| `MergedIterator.MergedIterator.Key` | go_code/go/github.com/syndtr/goleveldb/leveldb/iterator/merged_iter.go:240-245 | The key shown is the entry of the union at the cursor, or none off either end. |
| `MergedIterator.MergedIterator.Reposition` | go_code/go/github.com/syndtr/goleveldb/leveldb/iterator/merged_iter.go:211-224 | A child sought to the current key and stepped back stands on its last entry before that key. |
| `MergedRuns.HeadAtCut` | go_code/go/github.com/syndtr/goleveldb/leveldb/iterator/merged_iter.go:128-145 | The smallest entry behind a cut through sorted runs is the entry of their union at the cut, the union having shared entries as often as the runs do. |
| `MergedRuns.TailAtCut` | go_code/go/github.com/syndtr/goleveldb/leveldb/iterator/merged_iter.go:179-196 | The largest entry before a cut is the entry of the union just before it. |
| `MergedRuns.SeekCut` | go_code/go/github.com/syndtr/goleveldb/leveldb/iterator/merged_iter.go:106-126 | Seeking a key in every run cuts the union where seeking in it would. |
| `MergedIterator.PlainSteps` | go_code/go/github.com/syndtr/goleveldb/leveldb/iterator/merged_iter.go:147-238 | Where no entry is shared, `Next` and `Prev` go one position from any state. |
| `IndexedIterator.SeekThroughIndex` | go_code/go/github.com/syndtr/goleveldb/leveldb/iterator/indexed_iter.go:116-138 | Seeking in the run the separators lead to, or the start of the next, is seeking in the concatenation. |
| `IndexedIterator.IndexedIterator.First` | go_code/go/github.com/syndtr/goleveldb/leveldb/iterator/indexed_iter.go:75-90 | Stands on the first entry of the concatenation, past any empty runs. |
| `IndexedIterator.IndexedIterator.Last` | go_code/go/github.com/syndtr/goleveldb/leveldb/iterator/indexed_iter.go:92-114 | Stands on the last entry of the concatenation. |
| `IndexedIterator.IndexedIterator.Seek` | go_code/go/github.com/syndtr/goleveldb/leveldb/iterator/indexed_iter.go:116-138 | Stands on the first entry of the concatenation at or after the key. |
| `IndexedIterator.IndexedIterator.Next` | go_code/go/github.com/syndtr/goleveldb/leveldb/iterator/indexed_iter.go:140-164 | One position on in the concatenation, across run boundaries and empty runs. |
| `IndexedIterator.IndexedIterator.Prev` | go_code/go/github.com/syndtr/goleveldb/leveldb/iterator/indexed_iter.go:166-196 | One position back. |
| `IndexedIterator.IndexedIterator.KeyIsCurrent` | go_code/go/github.com/syndtr/goleveldb/leveldb/iterator/indexed_iter.go:198-203 | The key shown is the entry of the concatenation at the cursor, or none. |
| `DbIter.VisibleMapIsLookup` | go_code/go/github.com/syndtr/goleveldb/leveldb/db_iter.go:200-230 | Over a sorted run, an entry possibly twice, the visible map has ascending user keys and holds, for each key, exactly what a lookup at the sequence number answers. |
| `DbIter.DbIter.constructor` | go_code/go/github.com/syndtr/goleveldb/leveldb/db_iter.go:68-92 | A new iterator stands before the first live key. |
| `DbIter.DbIter.First` | go_code/go/github.com/syndtr/goleveldb/leveldb/db_iter.go:149-164 | Stands on the first live key of the visible map. |
| `DbIter.DbIter.Last` | go_code/go/github.com/syndtr/goleveldb/leveldb/db_iter.go:166-180 | Stands on the last live key. |
| `DbIter.DbIter.Seek` | go_code/go/github.com/syndtr/goleveldb/leveldb/db_iter.go:182-198 | Stands on the first live key at or after the one sought. |
| `DbIter.DbIter.next` | go_code/go/github.com/syndtr/goleveldb/leveldb/db_iter.go:200-230 | Scanning forward past hidden versions and tombstones stops at the next shown entry, wherever the scan was started. |
| `DbIter.DbIter.Next` | go_code/go/github.com/syndtr/goleveldb/leveldb/db_iter.go:232-246 | One live key on, also past the end and when turning round, where the raw iterator under it may show the same entry again. |
| `DbIter.DbIter.prev` | go_code/go/github.com/syndtr/goleveldb/leveldb/db_iter.go:248-280 | Scanning backward collects the newest visible version of the last live key before the raw position. |
| `DbIter.DbIter.BackOff` | go_code/go/github.com/syndtr/goleveldb/leveldb/db_iter.go:291-307 | Turning round passes back over all other versions of the current key. |
| `DbIter.DbIter.Prev` | go_code/go/github.com/syndtr/goleveldb/leveldb/db_iter.go:282-312 | One live key back, also when turning round, where the raw iterator goes back past both copies of an entry. |
| `DbIter.DbIter.Key` | go_code/go/github.com/syndtr/goleveldb/leveldb/db_iter.go:314-319 | The key shown is that of the map's entry at the cursor, and there is none exactly off either end. |
| `DbIter.DbIter.Value` | go_code/go/github.com/syndtr/goleveldb/leveldb/db_iter.go:321-326 | So is the value, though the raw iterator may stand elsewhere. |
| `DbIter.TwoSteps` | go_code/go/github.com/syndtr/goleveldb/leveldb/db_iter.go:232-246 | With no entry more than twice, the two raw steps of a turn lead past the entry the raw iterator stood on, by no more than two. |
| `MemDb.DB.findGE` | go_code/go/github.com/syndtr/goleveldb/leveldb/memdb/memdb.go:211-236 | The packed links lead to the node of the first key not before the one sought, say whether it is equal, and record the last node before it on every level in use. |
| `MemDb.DB.findLT` | go_code/go/github.com/syndtr/goleveldb/leveldb/memdb/memdb.go:238-254 | Leads to the last node before the key, or to the head. |
| `MemDb.DB.findLast` | go_code/go/github.com/syndtr/goleveldb/leveldb/memdb/memdb.go:256-271 | Leads to the last node of all, or to the head. |
| `MemDb.DB.constructor` | go_code/go/github.com/syndtr/goleveldb/leveldb/memdb/memdb.go:465-475 | A new memdb is empty and its head reaches every level. |
| `MemDb.DB.Reset` | go_code/go/github.com/syndtr/goleveldb/leveldb/memdb/memdb.go:438-455 | After a reset the memdb is empty and can be used again. |
| `MemDb.DB.RaiseHeight` | go_code/go/github.com/syndtr/goleveldb/leveldb/memdb/memdb.go:293-298 | Raising the height makes the head the predecessor on every new level. |
| `MemDb.DB.Splice` | go_code/go/github.com/syndtr/goleveldb/leveldb/memdb/memdb.go:304-310 | The loop appends the new node and redirects exactly the links of its predecessors. |
| `MemDb.DB.Insert` | go_code/go/github.com/syndtr/goleveldb/leveldb/memdb/memdb.go:292-314 | Splicing in a node of any height behind the recorded predecessors inserts the entry at its rank and keeps every level a sorted sublist of the one below. |
| `MemDb.DB.Overwrite` | go_code/go/github.com/syndtr/goleveldb/leveldb/memdb/memdb.go:281-290 | Putting a key that is there changes only its value; counts stay right. |
| `MemDb.DB.Unlink` | go_code/go/github.com/syndtr/goleveldb/leveldb/memdb/memdb.go:330-337 | Redirecting the links of its predecessors takes out exactly that entry. |
| `MemDb.DB.Put` | go_code/go/github.com/syndtr/goleveldb/leveldb/memdb/memdb.go:277-315 | The structure refines a sorted map: a put updates the map at that key, and the entry count is the size of the map. |
| `MemDb.DB.Delete` | go_code/go/github.com/syndtr/goleveldb/leveldb/memdb/memdb.go:321-339 | A delete removes exactly that key and reports whether it was there. |
| `MemDb.DB.Get` | go_code/go/github.com/syndtr/goleveldb/leveldb/memdb/memdb.go:356-366 | A get returns the map's value or reports the key missing. |
| `MemDb.DB.Contains` | go_code/go/github.com/syndtr/goleveldb/leveldb/memdb/memdb.go:344-349 | Says whether the map has the key. |
| `MemDb.DB.Find` | go_code/go/github.com/syndtr/goleveldb/leveldb/memdb/memdb.go:374-386 | Returns the least key of the map not before the one sought, with its value, or none when all are before it. |
| `MemDb.PutIsUpdate` | go_code/go/github.com/syndtr/goleveldb/leveldb/memdb/memdb.go:277-315 | Replacing or inserting at the rank keeps the entries sorted and is a map update. |
| `MemDb.DeleteIsRemoval` | go_code/go/github.com/syndtr/goleveldb/leveldb/memdb/memdb.go:321-339 | Dropping the entry at the rank is removal from the map. |
| `MemDb.MapSize` | go_code/go/github.com/syndtr/goleveldb/leveldb/memdb/memdb.go:431-435 | The number of entries is the number of keys. |
| `MemIter.Iter.constructor` | go_code/go/github.com/syndtr/goleveldb/leveldb/memdb/memdb.go:403-405 | A new iterator stands in front of the stretch of entries its slice leaves. |
| `MemIter.Iter.fill` | go_code/go/github.com/syndtr/goleveldb/leveldb/memdb/memdb.go:38-59 | The node found is taken when it is in the slice, and otherwise the iterator is off the end it moved to. |
| `MemIter.Iter.First` | go_code/go/github.com/syndtr/goleveldb/leveldb/memdb/memdb.go:65-80 | The first entry of the slice. |
| `MemIter.Iter.Last` | go_code/go/github.com/syndtr/goleveldb/leveldb/memdb/memdb.go:82-97 | The last entry of the slice. |
| `MemIter.Iter.Seek` | go_code/go/github.com/syndtr/goleveldb/leveldb/memdb/memdb.go:99-113 | The entry of the slice that all smaller keys are in front of: the first at or after the one sought. |
| `MemIter.Iter.Next` | go_code/go/github.com/syndtr/goleveldb/leveldb/memdb/memdb.go:115-132 | One entry on, from in front of the slice to its first; the step a `Cursor` over the slice makes. |
| `MemIter.Iter.Prev` | go_code/go/github.com/syndtr/goleveldb/leveldb/memdb/memdb.go:134-151 | One entry back, by a search for the last smaller key, from behind the slice to its last; the step a `Cursor` makes. |
| `MemIter.Iter.Shows` | go_code/go/github.com/syndtr/goleveldb/leveldb/memdb/memdb.go:153-159 | Key and value shown are those of the entry at the cursor. |
| `InternalKeys.LexIsTotalOrder` | go_code/go/github.com/syndtr/goleveldb/leveldb/comparer/bytes_comparer.go:13-15 | Comparing bytes is a total order. |
| `InternalKeys.Separator` | go_code/go/github.com/syndtr/goleveldb/leveldb/comparer/bytes_comparer.go:21-36 | A separator, when given, lies strictly between the two keys and is no longer than the first; it is given exactly when the first difference leaves room for the bump. It is `a` up to and with the first difference, the byte there raised by one. |
| `InternalKeys.Successor` | go_code/go/github.com/syndtr/goleveldb/leveldb/comparer/bytes_comparer.go:38-47 | A successor, when given, is after the key and no longer; it is given exactly when some byte is not 0xff. It is the key up to and with the first byte that is not 0xff, that byte raised by one. |
| `InternalKeys.ParseMakeInverse` | go_code/go/github.com/syndtr/goleveldb/leveldb/key.go:75-99 | Parsing and making internal keys are inverse: a key parses to (ukey, seq, kind) exactly when making it from these succeeds and gives it. |
| `InternalKeys.FixedDigit` | go_code/go/github.com/syndtr/goleveldb/leveldb/key.go:83-93 | Fixed-size numbers are written least byte first. |
| `InternalKeys.InternalKeyBytes` | go_code/go/github.com/syndtr/goleveldb/leveldb/key.go:74-93 | Behind the user key come a byte for the kind, 1 for a value and 0 for a deletion, and seven for the sequence number; making a key panics exactly from 2^56 on. |
| `InternalKeys.ICompareOrders` | go_code/go/github.com/syndtr/goleveldb/leveldb/comparer.go:37-47 | Comparing internal keys is a total order whenever comparing user keys is. |
| `InternalKeys.RanksKeepInternalOrder` | go_code/go/github.com/syndtr/goleveldb/leveldb/comparer.go:37-47 | Replacing user keys by their rank keeps the order of internal keys, which justifies the integer user keys of the store modules. |
| `InternalKeys.ISeparator` | go_code/go/github.com/syndtr/goleveldb/leveldb/comparer.go:49-57 | A shortened separator of internal keys is shorter than the first, lies strictly between the two, and so does its user key. It is given exactly when the user key can be made shorter that way, with the largest number behind it, byte for byte. |
| `InternalKeys.ISuccessor` | go_code/go/github.com/syndtr/goleveldb/leveldb/comparer.go:59-67 | A shortened successor of an internal key is after it. It is given exactly when the user key can be made shorter that way, with the largest number behind it. |
| `BlockFormat.SharedPrefixLen` | go_code/go/github.com/syndtr/goleveldb/leveldb/table/writer.go:23-32 | The length returned is the longest common prefix. |
| `BlockFormat.ReadEntryOf` | go_code/go/github.com/syndtr/goleveldb/leveldb/table/reader.go:91-111 | An entry written with any number of shared bytes is read back, from between whatever else there is. |
| `BlockFormat.EntryPlace` | go_code/go/github.com/syndtr/goleveldb/leveldb/table/writer.go:43-58 | Each entry lies in the block at its offset, right behind the one before. |
| `WireFormat.BlockExample` | go_code/go/github.com/syndtr/goleveldb/leveldb/table/writer.go:43-71 | A block of three entries with two restart points, byte for byte. |
| `BlockWriter.BlockWriter.Append` | go_code/go/github.com/syndtr/goleveldb/leveldb/table/writer.go:43-58 | The buffer stays the encoding of all entries appended, with a restart point every interval. |
| `BlockWriter.BlockWriter.Finish` | go_code/go/github.com/syndtr/goleveldb/leveldb/table/writer.go:60-71 | The finished buffer is the whole block: entries, restart offsets and their number. |
| `BlockWriter.BlockWriter.Reset` | go_code/go/github.com/syndtr/goleveldb/leveldb/table/writer.go:73-77 | A reset writer has no entries, and keeps the last key for the separator. |
| `BlockWriter.BlockWriter.BytesLen` | go_code/go/github.com/syndtr/goleveldb/leveldb/table/writer.go:79-85 | The size announced is the size the finished block would have. |
| `BlockReader.Trailer` | go_code/go/github.com/syndtr/goleveldb/leveldb/table/reader.go:602-616 | The restart offsets and their number are read back from the end of a block. |
| `BlockReader.BlockIter.RestartOffset` | go_code/go/github.com/syndtr/goleveldb/leveldb/table/reader.go:87-89 | A restart offset read is where the entry of that restart point starts. |
| `BlockReader.BlockIter.RestartKey` | go_code/go/github.com/syndtr/goleveldb/leveldb/table/reader.go:64-75 | The key read at a restart point is the whole key of its entry. |
| `BlockReader.BlockIter.SeekRestart` | go_code/go/github.com/syndtr/goleveldb/leveldb/table/reader.go:64-79 | Every entry in front of the restart point found is before the key. |
| `BlockReader.BlockIter.Next` | go_code/go/github.com/syndtr/goleveldb/leveldb/table/reader.go:250-301 | Steps to the next entry, its key rebuilt from the shared prefix, or to the end. |
| `BlockReader.BlockIter.Seek` | go_code/go/github.com/syndtr/goleveldb/leveldb/table/reader.go:224-248 | Through restart points and delta-coded keys it lands on the same entry as a linear scan for the first one at or after the key. |
| `RawBlock.HandleRoundTrip` | go_code/go/github.com/syndtr/goleveldb/leveldb/table/table.go:160-177 | A block handle is read back as written, with its length, whatever follows. |
| `RawBlock.WriteBlock` | go_code/go/github.com/syndtr/goleveldb/leveldb/table/writer.go:162-193 | A block written, compressed or not, is read back whole from its handle, with or without checksum verification, and grows the file by the handle's length and the trailer. Behind the block's bytes come its type, 0 or 1 for snappy, and the checksum of both. |
| `RawBlock.ReadRawBlock` | go_code/go/github.com/syndtr/goleveldb/leveldb/table/reader.go:562-600 | Reading a raw block is the checked decoding the round trip of writing is stated with, error cases included. |
| `RawBlock.BadBlockRefused` | go_code/go/github.com/syndtr/goleveldb/leveldb/table/reader.go:568-599 | With verification a block whose checksum is wrong is refused, and a block of an unknown type always. |
| `RawBlock.ReadRawGrows` | go_code/go/github.com/syndtr/goleveldb/leveldb/table/reader.go:562-600 | Whatever is appended to the file later, a block once readable stays the same. |
| `Bloom.SetKeepsBits` | go_code/go/github.com/syndtr/goleveldb/leveldb/filter/bloom.go:92-101 | Setting a bit sets that bit and changes no other. |
| `Bloom.Contains` | go_code/go/github.com/syndtr/goleveldb/leveldb/filter/bloom.go:26-52 | The answer is whether all probe positions of the key's hash are set (or the probe count is reserved), for any filter bytes. |
| `Bloom.Generator.Add` | go_code/go/github.com/syndtr/goleveldb/leveldb/filter/bloom.go:75-79 | The hash of the key is noted for the next filter. |
| `Bloom.Generator.AddProbes` | go_code/go/github.com/syndtr/goleveldb/leveldb/filter/bloom.go:94-101 | The inner loop sets the probe positions of a hash and changes no other bit. |
| `Bloom.Generator.Generate` | go_code/go/github.com/syndtr/goleveldb/leveldb/filter/bloom.go:81-104 | The filter has 64 bits or the 32-bit product of keys and bits, rounded up to bytes, and the probe count behind; of the bits exactly those are set that are probed for one of the hashes added since the last one, so these are all found. It panics exactly when that product is above 2^32 - 8. |
| `Bloom.FilterAnswers` | go_code/go/github.com/syndtr/goleveldb/leveldb/filter/bloom.go:26-52 | A filter answers for a hash whether every position probed for it is probed for one of those added. |
| `Bloom.OwnProbeRulesOut` | go_code/go/github.com/syndtr/goleveldb/leveldb/filter/bloom.go:26-52 | A hash with one probe that none of those added has is ruled out. |
| `Bloom.BitIs` | go_code/go/github.com/syndtr/goleveldb/leveldb/filter/bloom.go:43-45 | The bit tested is the binary digit of the byte. |
| `Bloom.DeltaRotates` | go_code/go/github.com/syndtr/goleveldb/leveldb/filter/bloom.go:41 | The second hash is the first rotated right by 17 of its 32 bits. |
| `Bloom.ProbeIs` | go_code/go/github.com/syndtr/goleveldb/leveldb/filter/bloom.go:42-49 | The j-th probe is the hash and j times the second hash, modulo 2^32. |
| `Bloom.ProbesAre` | go_code/go/github.com/syndtr/goleveldb/leveldb/filter/bloom.go:54-66 | The number of probes is 0.69 times the bits a key, rounded down, and from 1 to 30. |
| `FilterBlock.FilterWriter.Add` | go_code/go/github.com/syndtr/goleveldb/leveldb/table/writer.go:94-100 | The key is noted for the stretch at hand. |
| `FilterBlock.FilterWriter.Generate` | go_code/go/github.com/syndtr/goleveldb/leveldb/table/writer.go:128-136 | One more filter, of exactly the keys noted; it panics exactly where the generator does. |
| `FilterBlock.FilterWriter.Flush` | go_code/go/github.com/syndtr/goleveldb/leveldb/table/writer.go:102-109 | Once the offset has passed a stretch of the file its keys are in the filter of that stretch, and stretches in which no block starts get an empty one; it panics exactly where a filter is due and the generator does. |
| `FilterBlock.FilterWriter.Finish` | go_code/go/github.com/syndtr/goleveldb/leveldb/table/writer.go:111-126 | The finished filter block holds one filter for each stretch, in order, in no more than the keys' bits and 14 bytes a stretch; it panics exactly where the generator does. |
| `FilterBlock.FilterTrailer` | go_code/go/github.com/syndtr/goleveldb/leveldb/table/reader.go:652-674 | The offsets, their start and the base are read back from the end of the filter block. |
| `WireFormat.FilterBlockExample` | go_code/go/github.com/syndtr/goleveldb/leveldb/table/writer.go:111-126 | The words and the last byte of a filter block with two filters. |
| `FilterBlock.FilterRange` | go_code/go/github.com/syndtr/goleveldb/leveldb/table/reader.go:464-477 | The range found for an offset is that of its stretch, and missing exactly past the last filter. |
| `FilterBlock.Contains` | go_code/go/github.com/syndtr/goleveldb/leveldb/table/reader.go:464-477 | The answer is yes behind the last filter, no for a stretch without keys, and otherwise exactly what the stretch's filter says of the hash; a key noted for the stretch is never denied. |
| `TableIndex.FirstBlock` | go_code/go/github.com/syndtr/goleveldb/leveldb/table/reader.go:825-841 | The first separator at or after the key leads to the block with the first entry at or after the key, or to the one just in front of it. |
| `TableIndex.ExactInBlock` | go_code/go/github.com/syndtr/goleveldb/leveldb/table/reader.go:816-905 | If the first entry at or after the key has the key's user key, it is in the block the separators lead to, never in the one behind, so the filter of that block decides. |
| `TableReader.Find` | go_code/go/github.com/syndtr/goleveldb/leveldb/table/reader.go:816-905 | The first entry at or after the key in the whole table, as a linear scan finds it, and nothing exactly where there is none or the filter in use denies the block the index leads to; it does so only when that entry belongs to another user key. |
| `TableReader.MayContain` | go_code/go/github.com/syndtr/goleveldb/leveldb/table/reader.go:847-859 | The filter block read from the file gives the answer of the block's stretch, and never denies a user key noted for it. |
| `TableReader.StretchHas` | go_code/go/github.com/syndtr/goleveldb/leveldb/table/writer.go:237-261 | The filter of a block's stretch has the hash of the user key of each of its entries. |
| `TableReader.FilterMiss` | go_code/go/github.com/syndtr/goleveldb/leveldb/table/reader.go:847-859 | When the filter rules out the block found, the first entry at or after the key has another user key. |
| `TableWriter.Writer.constructor` | go_code/go/github.com/syndtr/goleveldb/leveldb/table/writer.go:353-375 | A new writer has no entries and satisfies the invariant. |
| `TableWriter.Writer.FlushPendingBH` | go_code/go/github.com/syndtr/goleveldb/leveldb/table/writer.go:195-217 | The pending block gets an index entry whose key separates its last key from the next one. |
| `TableWriter.Writer.FlushLast` | go_code/go/github.com/syndtr/goleveldb/leveldb/table/writer.go:299-300 | The last pending block gets an index entry whose key is not before its last key; the index is then complete. |
| `TableWriter.Writer.CloseFilter` | go_code/go/github.com/syndtr/goleveldb/leveldb/table/writer.go:302-310 | The filter block is in the file, with one filter for each stretch up to the last that a block starts in, each made of exactly the user keys of the entries of its blocks. |
| `TableWriter.Writer.CloseIndex` | go_code/go/github.com/syndtr/goleveldb/leveldb/table/writer.go:325-331 | The index block is in the file, and with the data blocks makes a table. |
| `TableWriter.IndexBlockMax` | go_code/go/github.com/syndtr/goleveldb/leveldb/table/writer.go:325-331 | The index block takes at most 8 bytes and, for each entry of the table, its key's length and 54 bytes: separators are never longer than the keys they come from. |
| `TableWriter.Writer.CloseMeta` | go_code/go/github.com/syndtr/goleveldb/leveldb/table/writer.go:312-323 | The metaindex block is in the file and holds the filter block's handle under the filter's name. |
| `TableWriter.Writer.CloseEmpty` | go_code/go/github.com/syndtr/goleveldb/leveldb/table/writer.go:293-300 | For a table without entries an empty block is written and a separator asked of the empty key, where the internal key comparer panics. |
| `TableWriter.Writer.FinishBlock` | go_code/go/github.com/syndtr/goleveldb/leveldb/table/writer.go:219-231 | The data block goes to the file, stays readable there, and its keys stay noted for the filter of its offset. |
| `TableWriter.Writer.Append` | go_code/go/github.com/syndtr/goleveldb/leveldb/table/writer.go:237-261 | Keys out of order are refused and change nothing; other entries are added behind all earlier ones. A block is written exactly when the entry makes it reach the block size. |
| `TableWriter.Writer.Close` | go_code/go/github.com/syndtr/goleveldb/leveldb/table/writer.go:286-348 | What is left in the file is a table that `TableFooter.NewReader` opens and `TableReader.Find` reads, holding exactly the entries appended, and with the filter on, a filter block that knows all their user keys; closing panics exactly when nothing was appended, and otherwise succeeds whenever the sizes of the entries keep index and filter within 32-bit offsets. |
| `TableFooter.FooterRoundTrip` | go_code/go/github.com/syndtr/goleveldb/leveldb/table/writer.go:333-344 | The handles written into a footer are read back from the end of the file. |
| `WireFormat.FooterExample` | go_code/go/github.com/syndtr/goleveldb/leveldb/table/writer.go:333-340 | A footer, byte for byte. |
| `WireFormat.MetaExample` | go_code/go/github.com/syndtr/goleveldb/leveldb/table/writer.go:312-316 | The entry of the metaindex block: the filter's name behind "filter." and the handle. |
| `TableFooter.NewReader` | go_code/go/github.com/syndtr/goleveldb/leveldb/table/reader.go:1036-1109 | Opening a written table finds its index block, and its filter block exactly when there is one of a known filter. |
| `TableRoundTrip.WriteThenFind` | go_code/go/github.com/syndtr/goleveldb/leveldb/table/reader.go:817-900 | Entries appended in order, the table closed, opened and searched: closing panics exactly for no entries and otherwise succeeds for every table whose index and filter stay within 32 bits by the sizes of its entries; the file is then a table of exactly these entries, in blocks each cut where it reaches the block size, with filters made of exactly the keys of their stretches; and the answer is a linear scan's, or, with a known filter, none exactly where it denies the block. |
| `Varint.UvarintRoundTrip` | go_code/go/github.com/syndtr/goleveldb/leveldb/table/table.go:164-177 | Reading a varint returns the value written and its length, whatever follows. |
| `Varint.UvarintBytes` | go_code/go/github.com/syndtr/goleveldb/leveldb/table/table.go:173-177 | A varint has seven bits a byte, the least first, a mark on each byte but the last, and no byte more than needed. |
| `JournalFormat.RecordPlace` | go_code/go/github.com/syndtr/goleveldb/leveldb/journal/journal.go:377-396 | Each record lies in the written stream right behind its predecessors and the padding. |
| `JournalBytes.JournalChunks` | go_code/go/github.com/syndtr/goleveldb/leveldb/journal/journal.go:376-398 | Chunk by chunk, the checksum, length and type bytes and the payload of every record of a journal: a record that fits its block is one chunk of type 1; any other starts with type 2, fills its blocks with type 3 and ends with type 4. |
| `JournalBytes.Padding` | go_code/go/github.com/syndtr/goleveldb/leveldb/journal/journal.go:468-490 | Between two records there are fewer than seven zero bytes, and only at the end of a block that has no room for a header. |
| `JournalWriter.Writer.FillHeader` | go_code/go/github.com/syndtr/goleveldb/leveldb/journal/journal.go:377-396 | Checksum, length and type of the chunk at hand, and nothing else, are written in front of its payload. |
| `JournalWriter.Writer.Next` | go_code/go/github.com/syndtr/goleveldb/leveldb/journal/journal.go:468-492 | The pending record is finished and a new empty one starts, past a block end too short for a header. |
| `JournalWriter.Writer.Write` | go_code/go/github.com/syndtr/goleveldb/leveldb/journal/journal.go:499-524 | The data joins the pending record, in chunks that fill their blocks. |
| `JournalWriter.Writer.Flush` | go_code/go/github.com/syndtr/goleveldb/leveldb/journal/journal.go:409-445 | The bytes handed on are exactly the stream of the finished records. |
| `JournalReader.Reader.NextChunk` | go_code/go/github.com/syndtr/goleveldb/leveldb/journal/journal.go:177-242 | On any bytes at all: the next chunk of the stream at the position, or what is dropped and where reading goes on, block buffering aside. |
| `JournalReader.Reader.ReadBlock` | go_code/go/github.com/syndtr/goleveldb/leveldb/journal/journal.go:225-240 | The next block is read into the buffer whole, or what is left of it. |
| `JournalReader.Reader.ParseChunk` | go_code/go/github.com/syndtr/goleveldb/leveldb/journal/journal.go:178-222 | A buffered header is taken or dropped, block or chunk, by the rules of the format. |
| `JournalBytes.TakenIffSound` | go_code/go/github.com/syndtr/goleveldb/leveldb/journal/journal.go:177-217 | On any bytes, a chunk is returned exactly when its type is known, its payload lies in the block and its checksum, if asked for, is right, and as a start only with type 1 or 2; an orphan is passed over alone, anything else takes the rest of the block with it. |
| `JournalReader.Reader.Next` | go_code/go/github.com/syndtr/goleveldb/leveldb/journal/journal.go:248-262 | Passes over what is dropped to the start of the next record, or reports the end. |
| `JournalReader.Reader.ReadRecord` | go_code/go/github.com/syndtr/goleveldb/leveldb/journal/journal.go:287-313 | Read in pieces of any size, the record comes out whole, or fails where a chunk is missing. |
| `JournalReader.Reader.NextRecord` | go_code/go/github.com/syndtr/goleveldb/leveldb/db.go:553-575 | One turn of a recovery loop yields the next record, or passes over one that breaks off, or ends. |
| `JournalReader.ReadAll` | go_code/go/github.com/syndtr/goleveldb/leveldb/journal/journal.go:248-313 | Reading to the end returns the records a run over the bytes, without any buffering, defines. |
| `JournalReader.CutJournalReads` | go_code/go/github.com/syndtr/goleveldb/leveldb/journal/journal.go:177-342 | A journal cut at any byte reads back as exactly the records that lie wholly before the cut. |
| `JournalReader.WholeJournalReads` | go_code/go/github.com/syndtr/goleveldb/leveldb/journal/journal.go:177-342 | An uncut journal reads back whole. |
| `JournalBytes.LaterChunkStartsNothing` | go_code/go/github.com/syndtr/goleveldb/leveldb/journal/journal.go:209-214 | A reader placed at any chunk of a record but the first returns no part of it and goes on with the next record. |
| `JournalBytes.DamagedStartLosesOneRecord` | go_code/go/github.com/syndtr/goleveldb/leveldb/journal/journal.go:187-214 | When the block that a longer record starts in is damaged, the rest of that record is dropped as orphans and reading goes on with the next. |
| `Batches.Batch.AppendRec` | go_code/go/github.com/syndtr/goleveldb/leveldb/batch.go:88-112 | The record joins the batch; the value of a deletion is ignored. |
| `Batches.Batch.Append` | go_code/go/github.com/syndtr/goleveldb/leveldb/batch.go:178-195 | The records of another batch join behind this one's, index entries shifted. |
| `Batches.Batch.KeyOf` | go_code/go/github.com/syndtr/goleveldb/leveldb/batch.go:215-224 | Parsing the internal key put for a record gives back its key, its number and its kind. |
| `Batches.Batch.PutMem` | go_code/go/github.com/syndtr/goleveldb/leveldb/batch.go:215-224 | The memdb gets the internal keys of the records, numbered from the given sequence number on. |
| `Batches.DecodeEncoded` | go_code/go/github.com/syndtr/goleveldb/leveldb/batch.go:241-281 | Decoding what was encoded returns the same records. |
| `WireFormat.BatchExample` | go_code/go/github.com/syndtr/goleveldb/leveldb/batch.go:311-329 | A journal record of a put and a deletion, byte for byte. |
| `Recovery.WriteBatches` | go_code/go/github.com/syndtr/goleveldb/leveldb/batch.go:339-349 | The journal record of merged batches is one header and all their records in order. |
| `Recovery.BatchesLen` | go_code/go/github.com/syndtr/goleveldb/leveldb/batch.go:331-337 | The count in the header is the number of all records. |
| `Recovery.PutBatches` | go_code/go/github.com/syndtr/goleveldb/leveldb/db_write.go:229-239 | Putting merged batches one after the other, each numbered behind the one before, is putting their joined records once. |
| `Recovery.PutsConcat` | go_code/go/github.com/syndtr/goleveldb/leveldb/db_write.go:229-239 | Puts of two record lists in turn are the puts of their concatenation. |
| `Recovery.DecodeBatchToMem` | go_code/go/github.com/syndtr/goleveldb/leveldb/batch.go:283-309 | Replaying a written journal record puts exactly what `putMem` put for it, unless its number is below the expected one, which is reported and changes nothing. |
| `Recovery.AllAccepted` | go_code/go/github.com/syndtr/goleveldb/leveldb/batch.go:283-309 | Replay accepts every group of a journal exactly when their numbers are in sequence. |
| `Recovery.SameNumberSkipped` | go_code/go/github.com/syndtr/goleveldb/leveldb/batch.go:283-309 | Of two groups at the same number replay takes the first and passes over the second. |
| `Recovery.Recover` | go_code/go/github.com/syndtr/goleveldb/leveldb/db.go:551-598 | From a journal cut at any byte the memdb and the tables it is flushed to on the way hold together exactly the puts of those groups wholly before the cut that replay accepts in turn, on top of what the tables held, and the sequence number is the one after them; the memdb is flushed exactly when it has reached the write buffer's size. |
| `Recovery.RecoverAll` | go_code/go/github.com/syndtr/goleveldb/leveldb/db.go:474-610 | From all journals still needed, in order, each cut anywhere, the tables hold exactly the puts of the groups that survive and are accepted, whatever the write buffer's size. |
| `Recovery.FlushMemDb` | go_code/go/github.com/syndtr/goleveldb/leveldb/db.go:589-597 | A flush moves the memdb's contents into a new table, so that both together hold what they held. |
| `Recovery.AcceptedConcat` | go_code/go/github.com/syndtr/goleveldb/leveldb/db.go:517-598 | Replaying one journal after another accepts what replaying them as one would. |
| `Durability.ReplayTakesAll` | go_code/go/github.com/syndtr/goleveldb/leveldb/db.go:553-598 | The journal of a run of merged writes is replayed whole exactly when no record but the last failed at `Sync`. |
| `Durability.NextIsLost` | go_code/go/github.com/syndtr/goleveldb/leveldb/db_write.go:225-246 | The record behind one that failed at `Sync` is not replayed when that one is, even if its writer was told it succeeded. |
| `SessionRecord.Decode` | go_code/go/github.com/syndtr/goleveldb/leveldb/session_record.go:258-323 | The decode loop folds the fields of any bytes into the record, as the recursive reading the round trip is stated with. |
| `SessionRecord.DecodeEncode` | go_code/go/github.com/syndtr/goleveldb/leveldb/session_record.go:159-323 | Decoding an encoded record over an earlier one overrides what it has and appends its lists. |
| `SessionRecord.OtherFields` | go_code/go/github.com/syndtr/goleveldb/leveldb/session_record.go:258-323 | On decoding, a tag of no field is skipped alone, the previous journal number is read where it is given, and a number past 63 bits is an error. |
| `WireFormat.ManifestExample` | go_code/go/github.com/syndtr/goleveldb/leveldb/session_record.go:159-196 | A manifest record with every field, byte for byte. |
| `SessionRecord.SurvivesIff` | go_code/go/github.com/syndtr/goleveldb/leveldb/session_record.go:159-196 | A record survives encoding and decoding if and only if it carries no previous journal number, which `encode` never writes. |
| `Manifest.VersionStaging.Commit` | go_code/go/github.com/syndtr/goleveldb/leveldb/version.go:421-447 | Committing a record changes the staged tables of every level exactly by its deletions and then its additions. |
| `Manifest.VersionStaging.Delete` | go_code/go/github.com/syndtr/goleveldb/leveldb/version.go:422-432 | Staging a deletion takes that table from its level and changes no other level. |
| `Manifest.VersionStaging.Add` | go_code/go/github.com/syndtr/goleveldb/leveldb/version.go:434-446 | Staging an addition puts the table on its level, also after a deletion of the same number. |
| `Manifest.VersionStaging.FinishLevel` | go_code/go/github.com/syndtr/goleveldb/leveldb/version.go:459-503 | The finished level lists the staged tables in the level's order, whichever of the paths is taken. |
| `Manifest.VersionStaging.Finish` | go_code/go/github.com/syndtr/goleveldb/leveldb/version.go:449-513 | The finished version lists on every level the base tables with all edits applied, on level 0 by descending file number, on others by ascending smallest key and, where these are equal, file number. |
| `Manifest.VersionUnique` | go_code/go/github.com/syndtr/goleveldb/leveldb/version.go:449-513 | The order of a level leaves no choice: a table map has one version. |
| `Manifest.SearchableLevel` | go_code/go/github.com/syndtr/goleveldb/leveldb/table.go:104-151 | On a level in that order whose tables' ranges do not meet, each largest key is before the next smallest and largest ones, as the binary searches need. |
| `Manifest.EditIs` | go_code/go/github.com/syndtr/goleveldb/leveldb/version.go:421-447 | Under a number a record leaves on a level the table it adds there last, or else what was there unless it deletes it. |
| `Manifest.Spawn` | go_code/go/github.com/syndtr/goleveldb/leveldb/version.go:276-280 | Spawning applies one record's edits to the base. The version is in level order. |
| `Manifest.SpawnTracksReplay` | go_code/go/github.com/syndtr/goleveldb/leveldb/version.go:276-280 | Spawning once more on a version that is the replay of some records gives the replay of those and the new one. |
| `Manifest.SpawnedIsReplayed` | go_code/go/github.com/syndtr/goleveldb/leveldb/session.go:190-210 | After any number of commits the current version is the replay of all their records. |
| `Manifest.Recover` | go_code/go/github.com/syndtr/goleveldb/leveldb/session.go:108-187 | Folding all records of a manifest into one staging on an empty base yields the same level lists, in the same order, as the version per record had at the end, and for each level the last compaction position recorded; it succeeds exactly when the numbers and the comparer's name are there. |
| `Manifest.PointersAre` | go_code/go/github.com/syndtr/goleveldb/leveldb/session_util.go:128-135 | After some records a level has the compaction position that the last record with one for it set last. |
| `Manifest.NoPointers` | go_code/go/github.com/syndtr/goleveldb/leveldb/session_util.go:128-135 | It has none exactly when no record has one for it. |
| `FileRefs.Session.AddFileRef` | go_code/go/github.com/syndtr/goleveldb/leveldb/session_util.go:42-52 | The count of one file changes by the reference; at zero its entry goes. |
| `FileRefs.Session.Incref` | go_code/go/github.com/syndtr/goleveldb/leveldb/version.go:46-60 | The first reference to a version counts each of its tables once more, later ones change no count. |
| `FileRefs.Session.ReleaseNB` | go_code/go/github.com/syndtr/goleveldb/leveldb/version.go:62-79 | With the last reference each table loses one count, and exactly those that reach zero are removed. |
| `FileRefs.Session.Uncount` | go_code/go/github.com/syndtr/goleveldb/leveldb/version.go:69-76 | The loops over levels and tables take one count from each occurrence and remove exactly what reaches zero, once. |
| `FileRefs.Session.SetVersion` | go_code/go/github.com/syndtr/goleveldb/leveldb/session_util.go:72-83 | The new version is counted before the old is let go: exactly the tables whose last live version went are removed, each once, none of the new version's. |
| `FileRefs.Session.Pin` | go_code/go/github.com/syndtr/goleveldb/leveldb/session_util.go:58-63 | Pinning the current version changes no file count. |
| `FileRefs.Session.Release` | go_code/go/github.com/syndtr/goleveldb/leveldb/version.go:81-85 | Releasing a pin removes exactly the tables whose last live version goes. |
| `FileRefs.Session.InUse` | go_code/go/github.com/syndtr/goleveldb/leveldb/version.go:46-85 | Each table of a live version has a positive count, so it is not removed. |
| `WriteMerge.OneHolder` | go_code/go/github.com/syndtr/goleveldb/leveldb/db_write.go:140-254 | In every state of every run at most one call holds the write lock, also while it is handed over on overflow. |
| `WriteMerge.RendezvousMeet` | go_code/go/github.com/syndtr/goleveldb/leveldb/db_write.go:140-227 | Every reply, refusal and acknowledgement of a leader meets a writer whose request that leader took: one reply, and as many acknowledgements left as writers waiting. |
| `WriteMerge.OwnLeadersError` | go_code/go/github.com/syndtr/goleveldb/leveldb/db_write.go:140-151 | A call written by a leader, itself or another, returns that leader's error. |
| `WriteMerge.ChainRange` | go_code/go/github.com/syndtr/goleveldb/leveldb/db_write.go:229-246 | Each journal record takes the sequence numbers right behind those of the record before, unless that one failed at `Sync`: then it takes the same ones. |
| `WriteMerge.RangesDisjoint` | go_code/go/github.com/syndtr/goleveldb/leveldb/db_write.go:229-246 | Two writers whose records count never share a sequence number, and numbers ascend in journal order. |
| `WriteMerge.EveryCallsRecords` | go_code/go/github.com/syndtr/goleveldb/leveldb/db_write.go:18-33 | A call whose leader succeeded has its records in order in exactly one journal record, at its own stretch of numbers; one whose leader failed at `Sync` has them in exactly one record that does not count; any other call has none in the journal. |
| `MergeRoom.MergedFits` | go_code/go/github.com/syndtr/goleveldb/leveldb/db_write.go:169-213 | In every state of every run, what a leader has merged fits, with its own records, the free room of the memdb, and 128 KiB beside a batch of up to 128 KiB or one mebibyte with a larger one. |
| `MergeRoom.RefusedIffTooLarge` | go_code/go/github.com/syndtr/goleveldb/leveldb/db_write.go:184-213 | A request that meets a merging leader is refused, and handed the lock, exactly when it does not fit beside what has been merged. |
| `MergeRoom.SyncedIffAsked` | go_code/go/github.com/syndtr/goleveldb/leveldb/db_write.go:212-234 | A journal record is synced exactly when one of those whose records are in it asked for that. |
| `WriteMerge.NumbersTiled` | go_code/go/github.com/syndtr/goleveldb/leveldb/db_write.go:225-246 | The records that count tile the numbers given out: every number up to the published one is in such a record, and ranges ascend in journal order. |
| `WriteMerge.NumberReused` | go_code/go/github.com/syndtr/goleveldb/leveldb/db_write.go:225-246 | A journal record starts at the number of the record before it if and only if that one failed at `Sync`. |
| `WriteMerge.SameNumberTwice` | go_code/go/github.com/syndtr/goleveldb/leveldb/db_write.go:18-33 | A run of two puts that leaves two journal records at number 1, the first of a call that returned an error. |
| `WriteMerge.NextKeeps` | go_code/go/github.com/syndtr/goleveldb/leveldb/db_write.go:140-254 | Each step of the protocol keeps the whole invariant. |
| `CacheMap.OpenIsOwner` | go_code/go/github.com/syndtr/goleveldb/leveldb/cache/cache.go:87-147 | A bucket that is not frozen is the one its keys are found in through the head, however old the table it was reached through. |
| `CacheMap.LookupIsPlain` | go_code/go/github.com/syndtr/goleveldb/leveldb/cache/cache.go:87-147 | A lookup in such a bucket finds exactly what a plain map holds. |
| `CacheMap.CreateKeeps` | go_code/go/github.com/syndtr/goleveldb/leveldb/cache/cache.go:104-147 | Adding a node keeps all lookups in step with the plain map. |
| `CacheMap.RemoveKeeps` | go_code/go/github.com/syndtr/goleveldb/leveldb/cache/cache.go:149-217 | So does removing one. |
| `CacheMap.HeldNodeStays` | go_code/go/github.com/syndtr/goleveldb/leveldb/cache/cache.go:149-183 | No step takes out a node that somebody holds. |
| `CacheMap.PublishKeeps` | go_code/go/github.com/syndtr/goleveldb/leveldb/cache/cache.go:230-278 | Publishing a lazily made bucket moves the keys of its hashes and loses or doubles none, on growing and on shrinking. |
| `CacheMap.ResizeKeeps` | go_code/go/github.com/syndtr/goleveldb/leveldb/cache/cache.go:129-144 | Starting a resize, also before the previous one is fully initialised, keeps the invariant. |
| `CacheMap.AlwaysThePlainMap` | go_code/go/github.com/syndtr/goleveldb/leveldb/cache/cache.go:72-334 | In every run, whatever bucket a goroutine holds, if it is not frozen a lookup there finds exactly what the plain map holds. |
| `CacheMap.FrozenForever` | go_code/go/github.com/syndtr/goleveldb/leveldb/cache/cache.go:78-85 | A frozen bucket never changes again. |
| `CacheMap.HeadLetsThrough` | go_code/go/github.com/syndtr/goleveldb/leveldb/cache/cache.go:316-324 | Through the head a lookup is never turned away once its bucket is there. |
| `SnappyFormat.ApplyConcat` | go_code/go/github.com/golang/snappy/decode_other.go:14-101 | Decoding a concatenation of element streams is decoding one after the other. |
| `SnappyFormat.CopySplit` | go_code/go/github.com/golang/snappy/encode_other.go:50-88 | A copy split in two produces the same bytes as the whole. |
| `SnappyFormat.CopyRepeats` | go_code/go/github.com/golang/snappy/decode_other.go:85-95 | A copy from a match, even one that overlaps its own output, continues the source. |
| `WireFormat.SnappyExample` | go_code/go/github.com/golang/snappy/decode_other.go:14-101 | Elements of all four kinds, byte for byte. |
| `SnappyDecode.ForwardCopy` | go_code/go/github.com/golang/snappy/decode_other.go:88-95 | The byte-by-byte loop is the element's copy and touches nothing behind it. |
| `SnappyDecode.LiteralLength` | go_code/go/github.com/golang/snappy/decode_other.go:18-46 | The length bytes of a literal tag give the length and position the format's parsing gives, or the end is missed in the same cases. |
| `SnappyDecode.CopyHead` | go_code/go/github.com/golang/snappy/decode_other.go:57-83 | The same for the three copy tags: position, offset and length. |
| `SnappyDecode.DecodeElements` | go_code/go/github.com/golang/snappy/decode_other.go:14-101 | For all bytes: success exactly when the elements are well formed and produce the announced length, with those bytes in the destination, and nothing written behind it. |
| `SnappyDecode.Decode` | go_code/go/github.com/golang/snappy/decode.go:55-72 | The decoder accepts exactly the blocks of the format and returns their contents; everything else is reported corrupt. |
| `SnappyEncode.EmitLiteral` | go_code/go/github.com/golang/snappy/encode_other.go:25-42 | The bytes written are one literal element. |
| `SnappyEncode.EmitCopy` | go_code/go/github.com/golang/snappy/encode_other.go:50-88 | The bytes written, however the length is split, decode to one copy of the whole length, in exactly the size used for the room bound. |
| `SnappyEncode.SameWordSameBytes` | go_code/go/github.com/golang/snappy/encode_other.go:9-18 | Equal 32-bit loads mean equal bytes. |
| `SnappyEncode.FindMatch` | go_code/go/github.com/golang/snappy/encode_other.go:145-183 | The looks are where the skip rule says, each entered in the table; the search stops at the first whose four bytes repeat at the last position entered for their hash slot, and gives that up only when too little input is left for another look. |
| `SnappyEncode.ExtendMatch` | go_code/go/github.com/golang/snappy/encode_other.go:95-99 | The match is extended to the first difference. |
| `SnappyEncode.EmitMatch` | go_code/go/github.com/golang/snappy/encode_other.go:194-208 | The copy is of the longest repetition, in the size used for the bound, and carries the output on to its end, within the room. |
| `SnappyEncode.Rehash` | go_code/go/github.com/golang/snappy/encode_other.go:213-229 | Updating the table from one 64-bit load enters both positions, and says exactly whether the next four bytes repeat at the last position entered for their slot. |
| `SnappyEncode.EmitCopies` | go_code/go/github.com/golang/snappy/encode_other.go:194-231 | A chain of copies makes progress, stays in the room and decodes to the source so far; it ends only where the four bytes at hand do not repeat or too little input is left. |
| `SnappyEncode.TableShift` | go_code/go/github.com/golang/snappy/encode_other.go:122-125 | The shift stands for the smallest table size from 256 to 16384 that is not below the source length. |
| `SnappyEncode.EncodeBlock` | go_code/go/github.com/golang/snappy/encode_other.go:112-238 | The block written decodes, behind any earlier output, to that output and the source, and takes at most 62/61 of its length and one byte, so no write passes the room. A block of one repeated byte becomes one literal byte and one copy. |
| `SnappyEncode.LooksAtEveryByte` | go_code/go/github.com/golang/snappy/encode_other.go:145-165 | The first 32 looks are at consecutive bytes. |
| `SnappyEncode.CopySizeBound` | go_code/go/github.com/golang/snappy/encode_other.go:50-88 | A copy takes three bytes at most for each 64 it copies. |
| `SnappyEncode.EncodeChunk` | go_code/go/github.com/golang/snappy/encode.go:26-40 | One more block of at most 65536 bytes keeps the encoding decodable and in bounds. |
| `SnappyEncode.Encode` | go_code/go/github.com/golang/snappy/encode.go:18-41 | For every source up to the limit the result decodes to the source and is no longer than MaxEncodedLen. |
| `SnappyRoundTrip.RoundTrip` | go_code/go/github.com/golang/snappy/snappy_test.go:78-87 | Decoding what was encoded returns the source, for every source up to the limit and any buffers. |
| `SnappyEncode.LaterBlockRoom` | go_code/go/github.com/golang/snappy/encode_other.go:105-111 | Each block but the first has the room the encoder's comment assumes. |
| `SnappyEncode.FirstBlockRoom` | go_code/go/github.com/golang/snappy/encode_other.go:105-111 | With any buffer, the first block has that room if and only if the source has at least 65538 bytes or the buffer has that much behind the length header (what is written stays in bounds all the same). |
| `SnappyEncode.NewBufferRoom` | go_code/go/github.com/golang/snappy/encode.go:22-41 | In a buffer that `Encode` makes itself the first block has the room exactly for sources of at least 65538 bytes. |
| `SnappyEncode.TableWriterRoom` | go_code/go/github.com/syndtr/goleveldb/leveldb/table/writer.go:162-171 | The buffer the table writer passes always has the room. |

## Left out

- Transactions (`db_transaction.go`) and the switch of large batches to them: their tables reach level 0 without passing the memdbs.
- `Close`, read-only mode, `recoverTable`, storage back ends, file locks, fsync, timers, throttling, logging and statistics: input and output, or no effect on contents. Released states, error callbacks and finalizers of iterators likewise.
- Corrupted internal keys and blocks and the strict modes; reads take the uncorrupted case, and the journal the truncated one.
- `memdbMaxLevel`, which the source keeps for testing: a flush always goes to level 0.
- Liveness of the write and compaction goroutines: only safety is stated.
- Store, StoreProof: the state is a value and its steps are predicates, because readers, writer and compaction interleave; update in place and the locks around single fields are not captured. Batches are runs of single `PutRec` steps before one `Publish`.
- WriteMerge: a step system on values for the same reason; flushing and rotation inside the leader are one step that may fail. A journal write fails either before anything of its record is in the journal or at `Sync`; a record written in part, and the error that `journal.Writer` keeps after a failed write, are not modelled. Callers that take the lock to do something else (compaction of a range, opening a transaction) are the phase `Outside`.
- CacheMap: a step system on values for the same reason; cached values, sizes, counters, the thresholds that trigger a resize and the LRU list are not modelled, a resize to half or double may start at any time.
- MemIter.Iter: released iterators are not modelled; the entries are those of the memdb when a method is called.
- Cursors.Cursor: leaf iterators are cursors over a fixed sorted run, so writes into a pinned memdb between two moves of one iterator are not modelled. `MemIter.Iter` moves as `Cursor` does, `BlockReader` proves the forward half of the other kind; they share no declared interface with it.
- Store, Crash: what is lost of the journals is an end of the log; a record in front of the end that failed at `Sync`, or lost behind one that did, is the matter of `Durability`.
- MergedIterator.MergedIterator: a child over a deeper level is a `Cursor` over the level's concatenation; `IndexedIterator.IndexedIterator` ensures of every move what `Cursor` does, but the two classes share no declared interface.
- BlockReader.BlockIter.Seek: sliced block iterators and `blockIter.Prev` with its entry cache are not modelled.
- TableWriter.Writer.Close: a data block and the file are bounded so that 32-bit restart offsets, compression and file offsets work out, and an index or filter past those bounds is reported as `TooLarge`, where the source has no check. Calls after an error or after `Close`, which only return the error kept, are not modelled.
- TableRoundTrip.WriteThenFind: an entry, the block size and the number of entries are bounded (a gibibyte each, 2^29 entries), so that each data block and the file stay within those bounds; a table that is not `Modest` may be reported as too large.
- TableReader.Find: no block cache or buffer pool.
- TableFooter.NewReader: the footer is read from any bytes, the metaindex block only as it is written; the end of the data that it works out serves only approximate sizes. A varint past 64 bits in a block handle counts as a bad handle, where the original may panic or take a length of zero.
- Bloom.Generator.Generate: no false positive rate is stated; the hash of a key is any function.
- FilterBlock.Contains: filter data is read back while it is bounded by 32-bit offsets, as the format is.
- Recovery.Recover: non-strict, and no flush or commit fails; what a flush writes is the memdb's map, not yet a table file; a sequence number past the limit counts as a bad record where the original panics. Bytes that a failed journal write left in part are outside the claim.
- TableCompaction.Compact: the edit is judged on the version it was made from; `StoreProof.CompactTables` and `StoreProof.MoveTables` judge it on whatever version is then current.
- Manifest.Recover: records are those `encode` wrote, and levels are below 2^63.
- Batches.Batch.PutMem: key and value lengths are below 2^64 and the memdb's capacity is unbounded.
- SnappyEncode.Encode: integers are those of a 64-bit platform, so the decoder's error for unsupported literal lengths cannot occur; the framing format and the assembly versions are not modelled. A source that is too large yields none where the original panics.
- InternalKeys.InternalOrderIsTotal: keys shorter than 8 bytes are put in front in a fixed order only to have a total order on all byte strings; the original panics on them.
- HTTP handlers, configuration, the Java tree, JavaScript, json-iterator, reflect2 and the other vendored libraries.
