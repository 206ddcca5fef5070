# A verified model of the storage, event-loop and message cores

This project models the parts of the repository's vendored libraries that carry
its hardest logic, and proves what they are for.

**LevelDB** (`ios/Pods/leveldb-library`). The database is a memtable, an immutable
memtable and seven levels of sorted files. Beside it the model keeps the flat history
of every write ever made; a read of key k at snapshot s means: the newest entry of k
with a sequence up to s. The central results say when the layered, lossy, compacted
structure still answers every read as the flat history does:

- Every step of the database (write, memtable switch, flush to the picked level,
  trivial move, compaction, taking and releasing snapshots) keeps the structure:
  levels from 1 on sorted and disjoint, a smaller level newer per user key, a larger
  level-0 file number newer. `Get` with all its early exits then returns exactly what
  the flat history says (`DatabaseRuns.StepKeepsStructure`, `DbImplementation.DBImpl.Get`).
- Reads agree with the history over a whole run **if and only if** every compaction of
  the run was safe (`DatabaseRuns.RunReadsIff`), and which ones are is decided by the
  picked files: a compaction is unsafe exactly when it drops a tombstone that ends a
  file taken from the output level while an older value of that key starts a file left
  there (`BoundarySafety.SafeIffNoLoss`, `RunKeepsReadsIff`). The code does not exclude
  this, since `AddBoundaryInputs` is applied to the input level only:
  `LostDeletion.DeletionIsLost` is a concrete run from an empty database after which a
  deleted value is read again. Its flush levels and inputs are what the code decides, the
  sizes of its files are those `TableBuilder` makes of their entries, and an output is
  closed at the first entry with which it reaches the limit, and only there.
- A compaction lets writes, snapshots and flushes go on while it merges. Over every run of
  such phases the structure holds and reads agree with the history in every state **if
  and only if** no output reaches around a file flushed meanwhile into the output level,
  and no installed compaction loses a deletion, which is settled when it begins
  (`CompactionPhases.PhaseRunReadsIff`, `LosesIffBegun`). No output reaches around
  anything if the inputs leave no gap of user keys between them, as is so for every
  compaction the code picks itself. A manual one can have a gap: `GapFlush.GapFlushLosesKey`
  is a run in which this makes a level overlap and hides a stored key from the file search.
- A crash leaves the tables and any part of the unsynced logs. Whatever is left, opening
  the database again gives the structure and every synced write, over every run with any
  number of crashes (`Reopening.StoreRunKeeps`); and all reads agree with the history, also
  after a crash at any moment, if and only if no compaction loses a deletion among the
  tables, hidden by a memtable or not (`Reopening.StoreRunReadsIff`).
- A table built from any sorted run answers every lookup through its index, its filter
  and its blocks as a scan of the run does (`Tables.GetFromTable`), and the iterators of
  tables, levels and the whole database are cursors on the sorted entries below them,
  for any mix of moves and direction switches.
- What a log reader recovers from any byte prefix of a log are exactly the records
  wholly inside it (`LogRecovery.PrefixRead`). Of a damaged log it returns only what has
  passed its checksums, and every record outside the blocks that are damaged
  (`LogDamage.DamageIsLocal`), unless damage forges an intact fragment of type 5: the
  reader's own code for the end of the file has this number. An edit survives its manifest record exactly if its levels are below
  7 and its strings below 4 GB, and a manifest replays to the files, pointers and numbers
  of the version set that wrote it, as of its last logged edit. A batch of writes is read
  back exactly if it has less than 2^31 operations of less than 4 GB a string.
- A search of the skip list is exact even while another thread links a new node; a group
  commit is all or nothing; no crash of the process loses an acknowledged write to file
  garbage collection, and none of the machine a synced one; the block cache counts its
  references and charges right and evicts the entry released longest ago, no sooner than
  it must; garbage collection leaves exactly the files that are in use.

**libuv** (`ios/Pods/Libuv-gRPC`). The thread pool is a state machine whose steps are the
lock-protected regions of all threads; over every interleaving a request is in exactly
one place, is reported once, and is not overtaken by those of its kind submitted later, and
no wake-up is lost: work waits while a worker sleeps only if it is slow and half of the
workers, rounded up, do slow work. The timer heap is verified on its
pointers, and the timers of one pass are due when they fire and fire in order, whatever
their callbacks do; each call has exactly its effect on the timers, and a timer that
repeats is started again before its callback runs.

**nanopb** (`ios/Pods/nanopb`). For every message type and every message of it, the two
passes of the encoder agree, and decoding what was encoded, into a struct with any old
contents, gives the message back if and only if each string in it is terminated within
its room (`NanopbRoundTrip.RoundTripIff`). Fields that a message type does not have can be
put into any message at any boundary between fields without changing what is decoded
(`NanopbBoundaries.UnknownFieldsPutIn`). Two messages have the same bytes if and only if
they agree in all that is there (`NanopbEquality.SameBytesIff`). Of any bytes whatever the
decoder accepts exactly those whose loop comes to an end having met each of the first 64
required fields and with full fixed count arrays (`NanopbRequired.DecodesIff`).

User keys of the store are reals. The code only ever compares user keys, a user
comparator is a total order on byte strings, and every countable total order embeds in
the reals, so a statement about every assignment of reals is one about every comparator.
Tables and blocks are verified on bytes, for every lawful comparator, and
`Tables.ScanIsLookupRun` connects the two; `Tables.BytewiseRanks` gives the embedding of
bytewise order.

The two concrete runs make these choices: which file has used up its seeks (the lost
deletion); when a memtable is switched: those flushed hold between a hundred bytes and
2 MB, less than `write_buffer_size`, and are switched only when forced, by a `CompactRange`
that meets no file; the options, which are the defaults without compression and filters;
and keys of one byte. Everything else in them is what the code makes of these.

Objects whose methods update fields in the source are classes here, with a
specification function of their fields; loops are loops with invariants.

| files | model |
|---|---|
| `internal_keys`, `snapshot_reads` | entries, and what a read means |
| `versions`, `version_builder`, `version_steps` | files, levels, lookup, edits and their replay |
| `compaction_inputs`, `compaction_rules`, `compaction_loop` | picking, dropping and writing in a compaction |
| `database`, `database_runs`, `db_impl` | the database, its runs and its methods |
| `boundary_safety`, `lost_deletion`, `table_sizes` | which compactions keep every read, and one that does not, with the sizes of its tables |
| `compaction_phases`, `gap_flush` | what happens while a compaction runs |
| `reopening` | crashes and opening again |
| `merger`, `two_level`, `cursors`, `db_iter` | merging, two-level and user-facing iterators |
| `version_edit`, `manifest` | the records of the manifest, writing and recovering it |
| `write_batch` | batches of writes as bytes |
| `bits`, `coding`, `log_format`, `log_recovery`, `log_damage`, `blocks`, `block_iter` | encodings, the log, blocks |
| `key_order`, `bloom`, `filters` | comparators and separators, Bloom filters, filter blocks |
| `table_format`, `table_layout`, `table_builder`, `table` | tables: their bytes, building and lookup |
| `skip_list`, `group_commit`, `file_gc`, `handle_table`, `lru_cache` | memtable index, write queue, file collection, cache |
| `thread_pool`, `thread_pool_code`, `timer_heap`, `timers` | libuv |
| `nanopb_messages`, `nanopb_encode`, `nanopb_decode`, `nanopb_read`, `nanopb_round_trip`, `nanopb_unknown`, `nanopb_boundaries` | nanopb: messages and their bytes, the encoder, what bytes mean, the decoder, the round trip, fields a type does not have |
| `nanopb_required`, `nanopb_wire`, `nanopb_equality` | missing fields, the wire format, and which messages are written alike |
| `lists` | sequences without repetition, as intrusive lists, and concatenations |

## Model

| member | source | states |
|---|---|---|
| SnapshotReads.ReadNewest | ios/Pods/leveldb-library/db/db_impl.cc:1100-1145 | the read at a snapshot is decided by the newest entry of the key with a sequence up to the snapshot |
| SnapshotReads.ReadCases | ios/Pods/leveldb-library/db/db_impl.cc:1100-1145 | a read finds nothing exactly when no entry is visible |
| Versions.LookupAnswers | ios/Pods/leveldb-library/db/memtable.cc:100-136 | seeking (user key, snapshot) in a sorted run and comparing the user key finds exactly the newest visible entry of the run, or shows there is none |
| Versions.LayeredAnswer | ios/Pods/leveldb-library/db/db_impl.cc:1118-1134 | if one layer is newer than another per user key, an answer from the first is the answer of both, and otherwise the second decides |
| Versions.FindFile | ios/Pods/leveldb-library/db/version_set.cc:88-107 | binary search returns the first file whose largest key is at or after the target |
| Versions.LookupSorted | ios/Pods/leveldb-library/db/version_set.cc:373-389 | looking only into the one file FindFile picks answers for a whole sorted, disjoint level |
| Versions.LookupLevel0 | ios/Pods/leveldb-library/db/version_set.cc:346-372 | the level-0 files covering the key, tried from the newest number down with early exit, answer for all of level 0 |
| Versions.Get | ios/Pods/leveldb-library/db/version_set.cc:326-421 | the level-by-level search with early exit returns the newest visible entry of the whole version |
| CompactionRules.CompactionKeepsReadsIff | ios/Pods/leveldb-library/db/db_impl.cc:929-963 | every key reads the same at every snapshot from smallest_snapshot on, before and after inputs are replaced by what both drop rules keep, if and only if no dropped tombstone covers an older value outside the inputs |
| CompactionRules.ResurrectionChangesRead | ios/Pods/leveldb-library/db/db_impl.cc:945-956 | if a dropped tombstone does cover an older value, the read at smallest_snapshot changes |
| CompactionRules.NewestKept | ios/Pods/leveldb-library/db/db_impl.cc:935-956 | the entry that answers a read is dropped only by the tombstone rule |
| CompactionRules.FloorSurvivor | ios/Pods/leveldb-library/db/db_impl.cc:935-938 | at most one survivor per user key is visible at smallest_snapshot, and it is the newest |
| CompactionLoop.BaseLevelScan.IsBaseLevelForKey | ios/Pods/leveldb-library/db/version_set.cc:1533-1552 | the advancing level pointers agree with a full scan of the deeper levels as long as keys are asked in order |
| CompactionLoop.GrandparentScan.ShouldStopBefore | ios/Pods/leveldb-library/db/version_set.cc:1554-1576 | the advancing index and its byte count say to stop exactly when the grandparents that end behind the last such place, or the first key, and before this key exceed the limit |
| CompactionLoop.PreviousDecides | ios/Pods/leveldb-library/db/db_impl.cc:920-938 | comparing with the previous entry only (last_sequence_for_key) decides whether any newer input hides this one |
| CompactionLoop.DoCompactionWork | ios/Pods/leveldb-library/db/db_impl.cc:906-1000 | the loop writes exactly the survivors of both rules over the whole input, sorted, in non-empty output files; two of them share a file if and only if no entry written from the first of them on has filled its file and none behind it up to the second was to start one |
| CompactionLoop.FilledIsLast | ios/Pods/leveldb-library/db/db_impl.cc:991-998 | an entry that fills its file is the last one in it |
| CompactionLoop.OutputOverlap | ios/Pods/leveldb-library/db/version_set.cc:1554-1576 | the grandparents that end between two keys of one output are not more than MaxGrandParentOverlapBytes |
| CompactionInputs.GetOverlappingInputs | ios/Pods/leveldb-library/db/version_set.cc:519-559 | terminates; on level 0 the restart loop returns the files meeting the least range that is closed under overlap, elsewhere the files meeting the range |
| CompactionInputs.GetRange | ios/Pods/leveldb-library/db/version_set.cc:1205-1227 | the smallest and largest internal keys of the files |
| CompactionInputs.FindSmallestBoundaryFile | ios/Pods/leveldb-library/db/version_set.cc:1344-1362 | the least file that continues the user key of the given largest key, if there is one |
| CompactionInputs.AddBoundaryInputs | ios/Pods/leveldb-library/db/version_set.cc:1378-1401 | one after the other, the least file that continues the last user key of those before it is added, and nothing else, until no file of the level continues it |
| CompactionInputs.NothingOlderLeft | ios/Pods/leveldb-library/db/version_set.cc:1403-1410 | after boundary extension no file left in the level holds an older version of a user key in the inputs |
| CompactionInputs.TryExpand | ios/Pods/leveldb-library/db/version_set.cc:1417-1447 | the inputs become all files of the level that meet the hull of both input lists, with their boundary files, if and only if these are more files, their bytes and those of level+1 stay below the limit, and they meet no further file of level+1 |
| CompactionInputs.SetupOtherInputs | ios/Pods/leveldb-library/db/version_set.cc:1403-1462 | from any admissible start: its boundary files and the level+1 files meeting the range are added, and if there are such the expansion is tried; nothing older is left in the level, and if the start files leave no user key between them out, neither do the inputs |
| CompactionInputs.PickBySize | ios/Pods/leveldb-library/db/version_set.cc:1277-1296 | the first file whose largest key is after the level's compaction pointer, and the first file if there is none |
| CompactionInputs.PickStart | ios/Pods/leveldb-library/db/version_set.cc:1301-1318 | the picked file alone, or on level 0 exactly the files meeting the least closed range around it; between two of them no user key is left out |
| CompactionInputs.LeastClosedGapFree | ios/Pods/leveldb-library/db/version_set.cc:1311-1315 | the least closed range around files without gaps has no gaps |
| CompactionInputs.CompactRangeStart | ios/Pods/leveldb-library/db/version_set.cc:1464-1494 | all files of the least closed range on level 0; elsewhere the overlapping files up to the first at which their sizes reach the limit, and nothing exactly if none overlaps |
| VersionBuilder.SaveLevel | ios/Pods/leveldb-library/db/version_set.cc:695-739 | merging base and added files drops exactly the deleted numbers and keeps the level sorted |
| VersionBuilder.Builder.Apply | ios/Pods/leveldb-library/db/version_set.cc:656-692 | an edit deletes and adds files, and adding a number undoes its earlier deletion (compaction pointers are in `Manifests.VersionSet.Recover`) |
| VersionBuilder.Builder.SaveTo | ios/Pods/leveldb-library/db/version_set.cc:695-739 | the saved version holds, level by level, the base files changed by the recorded edits |
| VersionBuilder.ReplayEqualsLive | ios/Pods/leveldb-library/db/version_set.cc:933-1000 | if no (level, number) pair is added twice, one builder fed all edits holds the same files as a version built per edit |
| VersionBuilder.Recover | ios/Pods/leveldb-library/db/version_set.cc:933-1000 | the sorted file lists that one builder makes of all edits are the base changed by them one after the other (records and numbers are in `Manifests.VersionSet.Recover`) |
| VersionBuilder.RecoverAfter | ios/Pods/leveldb-library/db/version_set.cc:801-1000 | a builder per edit and one builder for all edits end in equal versions, list by list |
| VersionBuilder.LogAndApply | ios/Pods/leveldb-library/db/version_set.cc:818-823 | the installed version is the current one changed by the edit, in order (records and numbers are in `Manifests.VersionSet.LogAndApply`, failures in `FileCollection`) |
| VersionSteps.CompactionKeepsVersion | ios/Pods/leveldb-library/db/db_impl.cc:860-876 | replacing closed inputs by outputs cut from their survivors keeps levels sorted and disjoint and smaller levels newer |
| VersionSteps.ApartIffNoneEnclosed | ios/Pods/leveldb-library/db/db_impl.cc:860-876 | the outputs of a compaction lie apart from every file left in the output level if and only if none of them reaches from below such a file to above it, all keys in between being absent from the output |
| VersionSteps.FlushKeepsVersion | ios/Pods/leveldb-library/db/db_impl.cc:535-566 | adding a flushed table at any level the picker allows keeps the version valid |
| Database.DeleteByNumber | ios/Pods/leveldb-library/db/version_set.cc:741-754 | deleting by file number removes exactly the files meant, as numbers are unique |
| Database.BatchIsNewest | ios/Pods/leveldb-library/db/write_batch.cc:107-130 | the entries of a batch get consecutive sequences above everything written before |
| WriteBatches.IteratesBackIff | ios/Pods/leveldb-library/db/write_batch.cc:42-80 | iterating over the bytes of a batch gives its operations back and no complaint if and only if every key and value is below 4 GB and there are fewer than 2^31 operations |
| WriteBatches.WriteBatch.Put | ios/Pods/leveldb-library/db/write_batch.cc:98-103 | adds the operation behind the others, with the count raised in 32 bits |
| WriteBatches.WriteBatch.Delete | ios/Pods/leveldb-library/db/write_batch.cc:105-109 | likewise |
| WriteBatches.WriteBatch.SetSequence | ios/Pods/leveldb-library/db/write_batch.cc:94-96 | numbers the batch and leaves its operations |
| WriteBatches.WriteBatch.Append | ios/Pods/leveldb-library/db/write_batch.cc:144-148 | puts all operations of the other batch behind these |
| WriteBatches.WriteBatch.Iterate | ios/Pods/leveldb-library/db/write_batch.cc:42-80 | hands over the operations up to the first bad record, and says what is wrong with it or with the count, for any bytes |
| WriteBatches.AppendAndIterate | ios/Pods/leveldb-library/db/write_batch.cc:42-148 | appending one batch to another and iterating hands over the operations of both, in order, exactly within those limits |
| DatabaseRuns.StepKeepsStructure | ios/Pods/leveldb-library/db/db_impl.cc:1185-1265 | every step of the database (write, memtable switch, flush, trivial move, compaction, snapshots) keeps all ordering invariants, also a compaction that loses a deletion |
| DatabaseRuns.InstallStructureIff | ios/Pods/leveldb-library/db/db_impl.cc:860-876 | installing a compaction whose inputs may have got a file between them keeps the ordering invariants, or even the levels disjoint, if and only if no output reaches around a file left in the output level |
| DatabaseRuns.StepReadsIff | ios/Pods/leveldb-library/db/db_impl.cc:929-963 | a step keeps the agreement of all reads with the flat history if and only if it is not a compaction that uncovers a deleted value |
| DatabaseRuns.InstallReadsIff | ios/Pods/leveldb-library/db/db_impl.cc:860-876 | and it keeps the agreement of reads under the same condition as an atomic compaction |
| DatabaseRuns.RunReadsIff | ios/Pods/leveldb-library/db/db_impl.cc:1100-1145 | over every run, reads agree with the flat history in every state if and only if every compaction of the run was safe |
| BoundarySafety.SafeIffNoLoss | ios/Pods/leveldb-library/db/version_set.cc:1403-1462 | a compaction keeps all reads if and only if there are no file f it takes from level+1 and file g it leaves there such that g starts with an older version of the user key of f's largest key, that version is a value, and the newest stored entry of the key at smallest_snapshot is a tombstone among the inputs that no deeper level needs |
| BoundarySafety.RunKeepsReadsIff | ios/Pods/leveldb-library/db/version_set.cc:1403-1462 | over every run, all reads agree with the flat history in every state if and only if no compaction of the run has such a pair of files |
| BoundarySafety.CompleteInputsAreSafe | ios/Pods/leveldb-library/db/version_set.cc:1403-1462 | corollary, without looking at entries: if no level+1 file left out continues the user key of one taken, the compaction is safe |
| LostDeletion.DeletionIsLost | ios/Pods/leveldb-library/db/version_set.cc:1403-1462 | a concrete run from an empty database in which a deleted value is read again: AddBoundaryInputs is not applied to level+1; flush levels and inputs are what the code decides, every compaction is picked by seeks and takes a level+1 file, the sizes of all files are those TableBuilder makes of their entries, and an output is closed exactly at the first entry with which its size so far reaches max_file_size |
| DbImplementation.SomeFileOverlapsRange | ios/Pods/leveldb-library/db/version_set.cc:124-157 | whether some file of the level meets the user-key range, by scan or by binary search |
| DbImplementation.PickLevelForMemTableOutput | ios/Pods/leveldb-library/db/version_set.cc:491-516 | every level it can return may take the new table without breaking the order of levels, and it returns FlushLevel |
| DbImplementation.FlushLevelIs | ios/Pods/leveldb-library/db/version_set.cc:491-516 | that is level 0 if a file there meets the table, otherwise the deepest level up to 2 on the way to which no level holds a file meeting it and the files meeting it one level deeper are never too many bytes |
| DbImplementation.MergeInputs | ios/Pods/leveldb-library/db/version_set.cc:1237-1268 | merging the input files gives their entries in internal-key order, each once |
| DbImplementation.DBImpl.Write | ios/Pods/leveldb-library/db/db_impl.cc:1185-1265 | a write is a step: its operations get the next sequences |
| DbImplementation.DBImpl.SwitchMemTable | ios/Pods/leveldb-library/db/db_impl.cc:1336-1366 | the full memtable becomes immutable, only when there is no immutable one |
| DbImplementation.DBImpl.CompactMemTable | ios/Pods/leveldb-library/db/db_impl.cc:535-566 | a flush is a step that keeps every stored entry, and the table goes to FlushLevel |
| DbImplementation.DBImpl.DoCompaction | ios/Pods/leveldb-library/db/db_impl.cc:878-1048 | merging, dropping and installing is a compaction step, and the outputs are cut, in the merged list of the inputs, exactly where a file is full or the grandparents say so |
| DbImplementation.DBImpl.MoveFile | ios/Pods/leveldb-library/db/db_impl.cc:718-737 | a trivial move is a step that keeps every stored entry |
| DbImplementation.PickInputs | ios/Pods/leveldb-library/db/db_impl.cc:688-716 | by size from the compaction pointer, by seeks from the given file, or manually from a range: exactly these files, on level 0 all in the least closed range around them; the start is admissible, and without gaps unless manual |
| DbImplementation.DBImpl.BackgroundCompaction | ios/Pods/leveldb-library/db/db_impl.cc:688-767 | an immutable memtable is flushed and nothing else is done; otherwise the inputs are set up from what was picked, and moved if and only if it was not manual, they are one file that meets nothing in the next level, and what they meet two levels down is not too much; else they are compacted; the level's compaction pointer becomes their largest key; whatever it does is a step |
| CompactionPhases.InstallIsCompact | ios/Pods/leveldb-library/db/db_impl.cc:878-1048 | a compaction that is begun, runs while writes, snapshots and flushes go on, and is installed with the drop rules of its start, replaces inputs that are still there by survivors as of now; it is a compaction step of the atomic model if and only if its inputs are still closed |
| CompactionPhases.FlushKeepsInputsIff | ios/Pods/leveldb-library/db/db_impl.cc:906-915 | a flush in between keeps the inputs closed if and only if it does not put a file meeting their range into the output level |
| CompactionPhases.GapFreeIsClear | ios/Pods/leveldb-library/db/db_impl.cc:906-915 | no flush can do that if every user key between two inputs lies in an input, as for every compaction that is not manual |
| CompactionPhases.GapFreeStaysClosed | ios/Pods/leveldb-library/db/db_impl.cc:878-1048 | so the inputs of such a compaction are still closed when it is installed |
| CompactionPhases.GapFreeNeverEncloses | ios/Pods/leveldb-library/db/db_impl.cc:878-1048 | and no output of it reaches around any file |
| CompactionPhases.InstallKeepsIff | ios/Pods/leveldb-library/db/db_impl.cc:860-876 | installing keeps the ordering invariants, or even the levels disjoint, if and only if no output reaches around a file flushed to the output level since the compaction began |
| CompactionPhases.PhaseStepKeepsIff | ios/Pods/leveldb-library/db/db_impl.cc:878-1048 | whatever happens between two mutex sections of a compaction, flushes into a gap of its inputs included, keeps the ordering invariants, its inputs and its base levels, except exactly such an install |
| CompactionPhases.PhaseRunKeeps | ios/Pods/leveldb-library/db/db_impl.cc:878-1048 | over every run of such phases, all states up to any point are in order if and only if no install up to there was of that kind |
| CompactionPhases.LosesIffBegun | ios/Pods/leveldb-library/db/db_impl.cc:889-963 | whether a compaction loses a deletion is settled by the files, snapshots and sequence of its beginning |
| CompactionPhases.PhaseRunReadsIff | ios/Pods/leveldb-library/db/db_impl.cc:878-1048 | over every run of phases, all states are in order and read as the flat history does if and only if no installed output reaches around a file flushed meanwhile and no installed compaction began as one that loses a deletion |
| GapFlush.GapFlushLosesKey | ios/Pods/leveldb-library/db/db_impl.cc:906-915 | a concrete run in which a CompactRange takes two files with a gap, a flush during it lands in the gap of the output level, as the code decides, and its output then reaches around that file: the level is no longer disjoint, and the file FindFile picks does not hold a stored key |
| Reopening.RecoverLogFile | ios/Pods/leveldb-library/db/db_impl.cc:371-489 | the batches of a log become level-0 files, each of exactly the batches from one place where the memtable was full to the next, each newer than those before it; the whole log stays in the memtable if it is taken over and was never full; the largest sequence is that of the last batch |
| Reopening.WriteLevel0Table | ios/Pods/leveldb-library/db/db_impl.cc:491-533 | a memtable becomes one more file, or none if it is empty |
| Reopening.Recover | ios/Pods/leveldb-library/db/db_impl.cc:280-369 | whatever batches of the logs are left, recovering them on the tables of the manifest gives a database in order that stores the tables and exactly what was left |
| Reopening.ReopenKeepsStructure | ios/Pods/leveldb-library/db/db_impl.cc:280-369 | a database recovered after a crash keeps all ordering invariants |
| Reopening.ReopenKeepsReads | ios/Pods/leveldb-library/db/db_impl.cc:280-369 | if the tables alone read as everything flushed does, a recovered database reads as the history of the flushed and the surviving writes does, and so do its tables |
| Reopening.CrashProofIff | ios/Pods/leveldb-library/db/db_impl.cc:280-369 | every crash is survived in this sense if and only if the tables alone read as everything flushed does |
| Reopening.StoreRunKeeps | ios/Pods/leveldb-library/db/db_impl.cc:280-533 | over every run of steps, syncs and crashes that may lose any unsynced log entries, the ordering invariants hold and no synced write leaves the history |
| Reopening.StoreRunReadsIff | ios/Pods/leveldb-library/db/db_impl.cc:280-533 | over every such run, all reads agree with the history in every state and after every crash that could come then if and only if no compaction of the run loses a deletion among the tables, whether or not a memtable hides it |
| DbImplementation.DBImpl.GetSnapshot | ios/Pods/leveldb-library/db/db_impl.cc:1166-1174 | a snapshot is the last sequence; the list stays in order, so its head is the smallest |
| DbImplementation.DBImpl.ReleaseSnapshot | ios/Pods/leveldb-library/db/snapshot.h:79-88 | removing a snapshot keeps the others in order |
| DbImplementation.DBImpl.Get | ios/Pods/leveldb-library/db/db_impl.cc:1100-1145 | the layered lookup returns what a read of the flat history at the snapshot returns, whenever reads agree |
| DbIterator.LivePairsAreReads | ios/Pods/leveldb-library/db/db_iter.cc:141-299 | the pairs the iterator should show are exactly the keys that read as present at its sequence, with their values |
| DbIterator.LivePairsAscend | ios/Pods/leveldb-library/db/db_iter.cc:141-299 | they are in increasing user-key order, one per key |
| DbIterator.SeekSplits | ios/Pods/leveldb-library/db/db_iter.cc:269-281 | the first live pair at or after a target splits the pairs at the target |
| DbIterator.DBIter.Next | ios/Pods/leveldb-library/db/db_iter.cc:141-166 | moves the cursor on the live pairs one forward, from either direction |
| DbIterator.DBIter.Prev | ios/Pods/leveldb-library/db/db_iter.cc:200-225 | moves the cursor one back, from either direction, past hidden and deleted entries |
| DbIterator.DBIter.Seek | ios/Pods/leveldb-library/db/db_iter.cc:269-281 | puts the cursor on the first live pair at or after the target |
| DbIterator.DBIter.SeekToFirst | ios/Pods/leveldb-library/db/db_iter.cc:283-292 | puts the cursor on the first live pair |
| DbIterator.DBIter.SeekToLast | ios/Pods/leveldb-library/db/db_iter.cc:294-299 | puts the cursor on the last live pair |
| DbIterator.DBIter.FindNextUserEntry | ios/Pods/leveldb-library/db/db_iter.cc:168-198 | scans forward to the first live pair, skipping what the skip key and tombstones hide |
| DbIterator.DBIter.FindPrevUserEntry | ios/Pods/leveldb-library/db/db_iter.cc:227-267 | scans back to the last live pair before the position, remembering the newest visible value |
| Merger.MovesAreIndexSteps | ios/Pods/leveldb-library/table/merger.cc:31-108 | first-after and last-before in the union of the children are plus and minus one on its sorted list |
| Merger.MergingIterator.SeekToFirst | ios/Pods/leveldb-library/table/merger.cc:31-37 | stands on the least key of all children |
| Merger.MergingIterator.SeekToLast | ios/Pods/leveldb-library/table/merger.cc:39-45 | stands on the greatest key of all children |
| Merger.MergingIterator.Seek | ios/Pods/leveldb-library/table/merger.cc:47-53 | stands on the first key of any child at or after the target |
| Merger.MergingIterator.Next | ios/Pods/leveldb-library/table/merger.cc:55-79 | moves to the next key of the union, also after a move back |
| Merger.MergingIterator.Prev | ios/Pods/leveldb-library/table/merger.cc:81-108 | moves to the previous key of the union, also after a move forward |
| LogFormat.UnmaskMask | ios/Pods/leveldb-library/util/crc32c.h:24-38 | unmasking undoes masking of every 32-bit checksum |
| LogFormat.MaskRotates | ios/Pods/leveldb-library/util/crc32c.h:29-32 | the masked checksum is the checksum rotated right by 15 bits plus the constant, in 32 bits |
| LogFormat.FragmentIsLargest | ios/Pods/leveldb-library/db/log_writer.cc:43-60 | a fragment takes all of the data or all that is left of its block of 32 KB |
| LogFormat.HeaderIs | ios/Pods/leveldb-library/db/log_writer.cc:44-54 | a header never stands in the last six bytes of a block |
| LogFormat.Writer.AddRecord | ios/Pods/leveldb-library/db/log_writer.cc:34-80 | appends exactly the fragments that the format defines for the record at the current file length |
| LogFormat.Writer.EmitPhysicalRecord | ios/Pods/leveldb-library/db/log_writer.cc:82-108 | appends header and payload of one fragment |
| LogFormat.Reader.ReadPhysicalRecord | ios/Pods/leveldb-library/db/log_reader.cc:189-271 | for any bytes: the type and payload of the next physical record, or that the file ends, or that a record is bad, as its header, its checksum and the end of its block decide; a bad one takes the rest of its block with it, which is reported unless it is a zero record |
| LogFormat.Reader.ReadRecord | ios/Pods/leveldb-library/db/log_reader.cc:56-174 | for any bytes: the next record that reading on gives, with all that is reported on the way, and the rest of the reading is what follows from where the reader stands then |
| LogRecovery.CompleteIsLargest | ios/Pods/leveldb-library/db/log_reader.cc:56-174 | the number of records wholly inside a prefix is the largest number that fits |
| LogRecovery.ReadAll | ios/Pods/leveldb-library/db/log_reader.cc:56-271 | all records and reports of reading any file |
| LogRecovery.RecordRead | ios/Pods/leveldb-library/db/log_reader.cc:56-174 | a record that was written is read whatever the reader has in hand when it comes to it; what it had in hand is dropped and reported |
| LogRecovery.PrefixRead | ios/Pods/leveldb-library/db/log_reader.cc:56-271 | every byte prefix of a log reads as exactly the records wholly inside, in order, and no corruption is reported |
| LogDamage.ReadIsIntact | ios/Pods/leveldb-library/db/log_reader.cc:56-271 | of any bytes whatever, every record that is read is the payload of a row of physical records with right checksums, from a first one to a last one and nothing between |
| LogDamage.DamageIsLocal | ios/Pods/leveldb-library/db/log_reader.cc:189-271 | whatever has become of some bytes of a log, up to the end of a block: every record that ends before them and every record that starts behind that block is read, in order, if no bytes among them read as an intact record of type 5, which ReadRecord takes for the end of the file |
| LogRecovery.AppendAll | ios/Pods/leveldb-library/db/log_writer.cc:27-80 | appending through a writer reopened on a complete log gives the log of all records |
| LogRecovery.WriteCrashRecover | ios/Pods/leveldb-library/db/log_writer.cc:27-108 | write, reopen, write, crash at any byte, recover: exactly the complete records come back, all of them without a crash |
| Coding.Fixed32RoundTrip | ios/Pods/leveldb-library/util/coding.h:60-75 | decoding an encoded 32-bit number gives it back |
| Coding.DecodeEncoded | ios/Pods/leveldb-library/util/coding.cc:112-130 | a varint anywhere in a buffer decodes to its number and its end |
| Coding.EncodeVarint32 | ios/Pods/leveldb-library/util/coding.cc:47-73 | the five-branch encoder emits seven bits a byte, lowest first |
| Coding.GetVarint32Ptr | ios/Pods/leveldb-library/util/coding.cc:112-130 | the decoding loop computes the same, in 32-bit arithmetic, or fails |
| Coding.VarintFits | ios/Pods/leveldb-library/util/coding.cc:75-79 | a 32-bit number takes at most five bytes |
| Blocks.SharedPrefix | ios/Pods/leveldb-library/table/block_builder.cc:79-85 | the longest common prefix of two keys |
| Blocks.BlockBuilder.Add | ios/Pods/leveldb-library/table/block_builder.cc:72-106 | appends the pair so that the buffer still describes exactly the pairs added, with restart points stored in full |
| Blocks.BlockBuilder.Finish | ios/Pods/leveldb-library/table/block_builder.cc:62-70 | the restart array and its length follow the entries |
| BlockIteration.OpenBlock | ios/Pods/leveldb-library/table/block.cc:24-39 | a finished block opens with its restart array found; contents too small for their restart count are refused |
| BlockIteration.DecodeEntry | ios/Pods/leveldb-library/table/block.cc:54-74 | the single-byte fast path computes the same as three varint decodings |
| BlockIteration.EntryDecodes | ios/Pods/leveldb-library/table/block.cc:54-74 | an entry decodes to its own sizes and payload offset |
| BlockIteration.OffsetOrder | ios/Pods/leveldb-library/table/block.cc:142-161 | comparing offsets compares entries |
| BlockIteration.Iter.ParseNextKey | ios/Pods/leveldb-library/table/block.cc:224-251 | rebuilds the next key from the shared prefix and finds its restart block |
| BlockIteration.Iter.Next | ios/Pods/leveldb-library/table/block.cc:137-140 | moves one entry forward |
| BlockIteration.Iter.Prev | ios/Pods/leveldb-library/table/block.cc:142-161 | moves one entry back across restart points, or off the front |
| BlockIteration.Iter.Seek | ios/Pods/leveldb-library/table/block.cc:163-201 | lands on the first entry with a key at or after the target, for any transitive comparator |
| BlockIteration.Iter.FindRestart | ios/Pods/leveldb-library/table/block.cc:166-189 | binary search: everything before the chosen restart point is before the target |
| BlockIteration.Iter.SeekToFirst | ios/Pods/leveldb-library/table/block.cc:203-206 | lands on the first entry |
| BlockIteration.Iter.SeekToLast | ios/Pods/leveldb-library/table/block.cc:208-213 | lands on the last entry |
| BlockIteration.Iter.Current | ios/Pods/leveldb-library/table/block.cc:128-135 | the key and value added at this position |
| BlockIteration.BuildAndScan | ios/Pods/leveldb-library/table/block_builder.cc:62-106 | building, opening and iterating gives back exactly the pairs, for every restart interval |
| Coding.Fixed64RoundTrip | ios/Pods/leveldb-library/util/coding.h:74-88 | decoding an encoded 64-bit number gives it back |
| Coding.EncodeVarint64 | ios/Pods/leveldb-library/util/coding.cc:81-90 | the loop emits seven bits a byte, lowest first |
| Coding.GetVarint64Ptr | ios/Pods/leveldb-library/util/coding.cc:142-157 | the decoding loop computes the number in 64-bit arithmetic, or fails after ten bytes |
| Coding.Varint64Fits | ios/Pods/leveldb-library/util/coding.cc:81-90 | a 64-bit number takes at most ten bytes |
| Blocks.BlockBuilder.Reset | ios/Pods/leveldb-library/table/block_builder.cc:47-54 | the builder describes no pairs again |
| KeyOrder.FindShortestSeparator | ios/Pods/leveldb-library/util/comparator.cc:29-50 | the loop and the guarded increment compute the separator |
| KeyOrder.FindShortSuccessor | ios/Pods/leveldb-library/util/comparator.cc:52-63 | the loop computes the successor |
| KeyOrder.SeparatorBetween | ios/Pods/leveldb-library/util/comparator.cc:29-50 | the separator is no longer than start, at or after it and before limit, and is start itself if start is not before limit |
| KeyOrder.SeparatorChangesIff | ios/Pods/leveldb-library/util/comparator.cc:29-50 | it is another key than start exactly if the keys first differ by more than one, and a shorter one exactly if they do so before the last byte of start |
| KeyOrder.SeparatorIsShortest | ios/Pods/leveldb-library/util/comparator.cc:29-50 | such a separator is as short as a key from start to limit can be, and the least of that length behind start |
| KeyOrder.SuccessorNotLess | ios/Pods/leveldb-library/util/comparator.cc:52-63 | the successor is no longer than the key and not before it |
| KeyOrder.SuccessorChangesIff | ios/Pods/leveldb-library/util/comparator.cc:52-63 | it is another key exactly if some byte is not 255, and then as short as a key not before this one can be |
| KeyOrder.BytewiseIsLawful | ios/Pods/leveldb-library/util/comparator.cc:20-63 | the bytewise comparator meets all that the table asks of a comparator |
| KeyOrder.InternalTransitive | ios/Pods/leveldb-library/db/dbformat.cc:51-67 | for any lawful user comparator, the order of internal keys is a strict order |
| KeyOrder.SeparatorSeparates | ios/Pods/leveldb-library/db/dbformat.cc:69-86 | the internal separator lies in [start, limit), and no key between start and it is of the user of limit |
| KeyOrder.SeparatorShortens | ios/Pods/leveldb-library/db/dbformat.cc:69-86 | it is shorter than start exactly when the user comparator finds a shorter user key behind that of start, and then has this user key under the first of all tags |
| KeyOrder.SuccessorCovers | ios/Pods/leveldb-library/db/dbformat.cc:88-101 | the internal successor is not before the key |
| KeyOrder.SuccessorShortens | ios/Pods/leveldb-library/db/dbformat.cc:88-101 | likewise it is shorter exactly when the user comparator finds a shorter successor |
| Bloom.CreateFilter | ios/Pods/leveldb-library/util/bloom.cc:28-54 | the loops append the filter of the keys |
| Bloom.KeyMayMatch | ios/Pods/leveldb-library/util/bloom.cc:56-81 | the probing loop computes the match, also on filters of unknown make |
| Bloom.FilterBits | ios/Pods/leveldb-library/util/bloom.cc:28-54 | exactly the bits some key probes are set |
| Bloom.ProbeLands | ios/Pods/leveldb-library/util/bloom.cc:43-51 | probe j lands at hash + j * (the hash rotated right by 17 bits), in 32-bit arithmetic, modulo the number of bits |
| Bloom.NeverMisses | ios/Pods/leveldb-library/util/bloom.cc:28-81 | a key matches every filter made of a list it is in, for every number of bits a key |
| Bloom.BloomHasNoFalseNegatives | ios/Pods/leveldb-library/util/bloom.cc:28-81 | hence the policy has no false negatives |
| Filters.FilterBlockBuilder.StartBlock | ios/Pods/leveldb-library/table/filter_block.cc:21-27 | closes the groups of keys up to the 2 KB range of the new block |
| Filters.FilterBlockBuilder.Finish | ios/Pods/leveldb-library/table/filter_block.cc:35-49 | the contents hold the filter of each group, their offsets and the base |
| Filters.OpenFilter | ios/Pods/leveldb-library/table/filter_block.cc:77-88 | any contents open; those of a finished builder give back its groups |
| Filters.ReadsFilter | ios/Pods/leveldb-library/table/filter_block.cc:90-104 | the filter of the group of the block's offset decides |
| Filters.AddedKeyMatches | ios/Pods/leveldb-library/table/filter_block.cc:21-104 | no key added for a block is missed |
| TableLayout.SameUserMatches | ios/Pods/leveldb-library/db/dbformat.cc:104-119 | the internal policy matches every key with the user part of an added key |
| TableFormat.HandleParses | ios/Pods/leveldb-library/table/format.cc:15-29 | a written block handle parses back, wherever it stands |
| TableFormat.DecodeFooter | ios/Pods/leveldb-library/table/format.cc:42-62 | for any 48 bytes, both handles if the magic number is right and they parse, and nothing otherwise; a written footer gives both handles back |
| TableFormat.ReadBlock | ios/Pods/leveldb-library/table/format.cc:64-139 | for any file and handle: contents exactly if the file holds the whole block, its type is known, its compressed bytes expand, and its checksum is right if it is checked; a block stored there, compressed or not, is read back |
| TableBuilding.TableBuilder.Add | ios/Pods/leveldb-library/table/table_builder.cc:94-123 | keeps the file, the pending index entry, both block builders and the filter groups in step with the pairs added, and the file as long as cutting blocks at block_size makes it |
| TableBuilding.TableBuilder.FileSize | ios/Pods/leveldb-library/table/table_builder.cc:263-263 | what the size of an output is compared with the limit by: the size of the blocks written so far, as a function of the pairs |
| TableBuilding.TableBuilder.Flush | ios/Pods/leveldb-library/table/table_builder.cc:125-139 | writes the block of the pending pairs, if any, and loses none |
| TableBuilding.TableBuilder.Finish | ios/Pods/leveldb-library/table/table_builder.cc:198-253 | the file is a table of exactly the pairs added: data blocks, filter block, metaindex, separating index and footer; without compression and filter its size is the one computed from the pairs |
| Tables.OpenIndex | ios/Pods/leveldb-library/table/table.cc:38-66 | for any file: an error exactly if it is too short, its footer is bad or its index block cannot be read; otherwise the contents of the block the footer names |
| Tables.Open | ios/Pods/leveldb-library/table/table.cc:65-133 | a finished table opens with its index, and with its filter exactly if there is a policy |
| Tables.PickedDecides | ios/Pods/leveldb-library/table/table.cc:216-244 | the first key at or after k in the block that the index picks answers for k over all pairs of the table |
| Tables.FilterIsRight | ios/Pods/leveldb-library/table/table.cc:222-226 | if the picked block holds a key of the same user, the filter lets k through |
| Tables.Table.InternalGet | ios/Pods/leveldb-library/table/table.cc:216-244 | for every key, the entry reached through index, filter and block gives that user key the same answer as a scan of all pairs |
| Tables.BuildAndGet | ios/Pods/leveldb-library/table/table_builder.cc:94-253 | building from any ascending pairs whose file stays below 4 GB, opening and getting: the answer of a scan of the pairs, for every lawful comparator, policy, codec and restart interval |
| Tables.ScanIsLookupRun | ios/Pods/leveldb-library/db/version_set.cc:253-268 | that scan is the lookup in a sorted run which the store model uses |
| Tables.BytewiseRanks | ios/Pods/leveldb-library/util/comparator.cc:24-27 | bytewise order embeds in the order of the reals, so that the store model, whose keys are reals, covers it |
| Tables.GetFromTable | ios/Pods/leveldb-library/table/table.cc:216-244 | a get from a table built of a sorted run finds its newest entry of the user key at the snapshot, or shows there is none |
| Tables.BuiltInsAreLawful | ios/Pods/leveldb-library/util/bloom.cc:16-26 | the bytewise comparator and the Bloom policy meet the conditions under which this holds |
| TwoLevel.SeekBoth | ios/Pods/leveldb-library/table/two_level_iterator.cc:82-88 | seeking in separating index keys and then in the block is seeking in the concatenation |
| TwoLevel.TwoLevelIterator.Seek | ios/Pods/leveldb-library/table/two_level_iterator.cc:82-88 | the first key at or after the target in the concatenation of all blocks |
| TwoLevel.TwoLevelIterator.SeekToFirst | ios/Pods/leveldb-library/table/two_level_iterator.cc:90-95 | the first key of the concatenation |
| TwoLevel.TwoLevelIterator.SeekToLast | ios/Pods/leveldb-library/table/two_level_iterator.cc:97-102 | its last key |
| TwoLevel.TwoLevelIterator.Next | ios/Pods/leveldb-library/table/two_level_iterator.cc:104-108 | one key forward, over any number of empty or failed blocks, whose status is kept |
| TwoLevel.TwoLevelIterator.Prev | ios/Pods/leveldb-library/table/two_level_iterator.cc:110-114 | one key back, likewise |
| TwoLevel.TwoLevelIterator.SkipEmptyDataBlocksForward | ios/Pods/leveldb-library/table/two_level_iterator.cc:116-127 | ends on a key or at the end, having read every block on the way |
| TwoLevel.TwoLevelIterator.SkipEmptyDataBlocksBackward | ios/Pods/leveldb-library/table/two_level_iterator.cc:129-140 | ends on a key or at the front |
| TwoLevel.TwoLevelIterator.Scan | ios/Pods/leveldb-library/table/two_level_iterator.cc:39-58 | a full scan yields the concatenation, and a fine status at its end means that no block failed |
| Cursors.LevelIsSorted | ios/Pods/leveldb-library/db/version_set.cc:223-228 | the files of a sorted, disjoint level are one sorted run of all its entries |
| Cursors.NewConcatenatingIterator | ios/Pods/leveldb-library/db/version_set.cc:223-228 | the two-level iterator over the files of a level is a cursor on that run, and their largest keys separate them for every target |
| Cursors.SeekInLevel | ios/Pods/leveldb-library/db/version_set.cc:164-190 | seeking ends at the first entry of the level at or after the target, if there is one |
| Cursors.TableSeparated | ios/Pods/leveldb-library/table/table.cc:210-214 | the index keys the builder wrote separate the blocks, so the iterator of a table is a cursor on its pairs |
| VersionEdits.DecodesBackIff | ios/Pods/leveldb-library/db/version_edit.cc:41-205 | decoding an encoded edit gives it back if and only if its levels are below 7 and its strings below 4 GB |
| VersionEdits.DecodesBack | ios/Pods/leveldb-library/db/version_edit.cc:107-205 | decoding into an edit used before keeps the old compaction pointers in front: Clear does not remove them |
| VersionEdits.NormalForm | ios/Pods/leveldb-library/db/version_edit.cc:41-205 | whatever decodes, encodes and decodes to the same edit |
| VersionEdits.VersionEdit.EncodeTo | ios/Pods/leveldb-library/db/version_edit.cc:41-85 | writes each field there is, in the order of the format |
| VersionEdits.VersionEdit.DecodeFrom | ios/Pods/leveldb-library/db/version_edit.cc:107-205 | takes fields in any order until one is bad, and names that one |
| Manifests.ReplayOneMore | ios/Pods/leveldb-library/db/version_set.cc:933-966 | replaying one more encoded edit takes on its files, pointers and numbers |
| Manifests.SnapshotLogged | ios/Pods/leveldb-library/db/version_set.cc:1088-1116 | the snapshot record of a new manifest replays to exactly the current files and compaction pointers |
| Manifests.VersionSet.LogAndApply | ios/Pods/leveldb-library/db/version_set.cc:801-884 | fills in the missing numbers, starts a new manifest with a snapshot if there is none and appends the record: afterwards replaying the manifest gives the installed files; when a write fails, nothing is installed, a new manifest is given up, and an old one replays to the files of before or, if the record got in, of after |
| Manifests.LastOneCounts | ios/Pods/leveldb-library/db/version_set.cc:932-966 | of each number the last record that has it decides |
| Manifests.VersionSet.Recover | ios/Pods/leveldb-library/db/version_set.cc:886-1011 | takes files, numbers and compaction pointers from the records, or fails exactly on a bad record, a foreign comparator or a missing number; the marking of log numbers as used is overwritten by the next file number |
| Manifests.Reopen | ios/Pods/leveldb-library/db/version_set.cc:886-1011 | a version set opened from the manifest of another has its files, log numbers, last sequence and pointers, and a next file number above its last recorded one |
| Manifests.RunAndReopen | ios/Pods/leveldb-library/db/version_set.cc:801-1050 | whatever file numbers are taken or marked, sequences set, compaction pointers moved and edits logged: a version set opened from the manifest is the one of after the last logged edit, except for pointers that no edit has named, and starts at a file number above the last recorded one |
| NanopbEncode.OStream.Write | ios/Pods/nanopb/pb_encode.c:103-128 | bytes are counted, and stored unless this pass only counts; storing fails exactly beyond the limit, counting never |
| NanopbEncode.OStream.EncodeVarint | ios/Pods/nanopb/pb_encode.c:608-628 | the loop writes the varint of the number |
| NanopbEncode.OStream.EncodeArray | ios/Pods/nanopb/pb_encode.c:147-236 | repeated fields: packed with their size in front, or a tag for each |
| NanopbEncode.OStream.EncodeSlot | ios/Pods/nanopb/pb_encode.c:341-426 | required, optional, repeated and oneof fields are written exactly when present |
| NanopbEncode.OStream.EncodeSubmessage | ios/Pods/nanopb/pb_encode.c:717-766 | the size pass and the writing pass agree, so that the length in front is right |
| NanopbEncode.OStream.Encode | ios/Pods/nanopb/pb_encode.c:528-550 | the fields in order |
| NanopbEncode.GetEncodedSize | ios/Pods/nanopb/pb_encode.c:567-577 | the counting pass finds the length of what the writing pass writes |
| NanopbEncode.EncodeToBuffer | ios/Pods/nanopb/pb_encode.c:528-550 | succeeds exactly if the message can be encoded and fits the buffer |
| NanopbEncode.SizeThenEncode | ios/Pods/nanopb/pb_encode.c:567-577 | a buffer of the size found is enough for exactly the message |
| NanopbRead.IStream.DecodeVarint | ios/Pods/nanopb/pb_decode.c:255-276 | up to ten bytes of seven bits, or failure |
| NanopbRead.IStream.DecodeVarint32 | ios/Pods/nanopb/pb_decode.c:187-253 | the same for 32 bits, with sign extension bytes accepted and other overflow refused |
| NanopbRead.IStream.Skip | ios/Pods/nanopb/pb_decode.c:321-331 | skips one value of any wire type, or refuses the type |
| NanopbRead.IStream.MakeSubstream | ios/Pods/nanopb/pb_decode.c:372-385 | the delimited bytes become a stream of their own, taken from the parent at once |
| NanopbRead.IStream.CloseSubstream | ios/Pods/nanopb/pb_decode.c:387-400 | leaves the parent behind the delimited bytes, read or not |
| NanopbRead.FieldIter.Next | ios/Pods/nanopb/pb_common.c:29-85 | steps through the fields and members of oneofs, round to the first one |
| NanopbRead.FieldIter.Find | ios/Pods/nanopb/pb_common.c:87-105 | finds the field of a tag, exactly if there is one, and of several the first from where it stands, once round |
| NanopbRead.DecodeNum | ios/Pods/nanopb/pb_decode.c:1345-1441 | reads a number and refuses one that its field is too narrow for |
| NanopbRead.DecodeLeaf | ios/Pods/nanopb/pb_decode.c:1447-1570 | strings and bytes are refused beyond their room and overwrite only what they cover |
| NanopbRead.DecodeStaticField | ios/Pods/nanopb/pb_decode.c:406-483 | one field of the message: last value wins, arrays are appended to, another member of a oneof replaces the first |
| NanopbRead.DecodeNoinit | ios/Pods/nanopb/pb_decode.c:934-1082 | the loop over tags: known fields taken, unknown ones skipped, and all required ones seen at the end |
| NanopbRead.Decode | ios/Pods/nanopb/pb_decode.c:1084-1096 | the same after all fields are set to their defaults |
| NanopbRequired.DecodesIff | ios/Pods/nanopb/pb_decode.c:934-1082 | for every type, buffer and struct: accepted if and only if the loop comes to an end, each of the first 64 required fields has its tag at one of the places where the loop stands, and the last fixed count array is full |
| NanopbRequired.RequiredIsThere | ios/Pods/nanopb/pb_decode.c:1042-1079 | hence a decoded message has each of those fields |
| NanopbRequired.RequiredLeftOut | ios/Pods/nanopb/pb_decode.c:1042-1079 | the bytes of a message without those of one required field are refused, unless 64 required fields stand before it and all strings are terminated |
| NanopbRequired.FixedCountsKept | ios/Pods/nanopb/pb_decode.c:962-1040 | in whatever is accepted, the items of a fixed count array come in full rows |
| NanopbRoundTrip.RoundTripIff | ios/Pods/nanopb/pb_decode.c:1084-1096 | decoding the encoded bytes (below 4 GB) of any message of any type into any old struct gives the message back if every present string in it is terminated within its room, and fails if one is not |
| NanopbRoundTrip.EncodeAndDecode | ios/Pods/nanopb/pb_encode.c:528-577 | count, encode and decode together |
| NanopbUnknown.NoGaps | ios/Pods/nanopb/pb_encode.c:528-550 | without unknown fields the bytes are those pb_encode writes |
| NanopbUnknown.UnknownFieldsIff | ios/Pods/nanopb/pb_decode.c:934-1096 | fields of any number, wire type and contents that the type does not have, put before, between and behind the members of an encoded message, change nothing of that |
| NanopbBoundaries.UnknownFieldsPutIn | ios/Pods/nanopb/pb_decode.c:934-1096 | for every sequence of bytes, decodable or not: unknown fields put in wherever the decoding loop stands between two fields do not change the outcome |
| NanopbBoundaries.BoundariesKept | ios/Pods/nanopb/pb_decode.c:934-1082 | the places where it stands are then the same before them, and moved up behind them |
| NanopbWire.ItemIsSkipped | ios/Pods/nanopb/pb_decode.c:321-338 | told the wire type of a field, pb_skip_field passes over exactly its encoded item |
| NanopbWire.SlotsInForm | ios/Pods/nanopb/pb_encode.c:528-550 | what pb_encode writes is a row of fields in the wire format, each under a tag of the type |
| NanopbWire.ForeignMessagePassed | ios/Pods/nanopb/pb_decode.c:934-1040 | a decoder for a type with none of these tags passes over the whole message and changes nothing |
| NanopbWire.Varint32Reads | ios/Pods/nanopb/pb_decode.c:187-247 | on any varint: its number in 32 bits, if it fits or is only extended with zeros or the sign of a negative number, and failure otherwise |
| NanopbWire.ShortTakes | ios/Pods/nanopb/pb_decode.c:187-247 | of up to five bytes exactly the numbers below 2^32 are taken |
| NanopbWire.Varint64AtReads | ios/Pods/nanopb/pb_decode.c:254-275 | on any varint: its number in 64 bits if it has at most ten bytes, and failure otherwise |
| NanopbEquality.MessageWrittenIff | ios/Pods/nanopb/pb_encode.c:528-550 | pb_encode fails exactly on a byte array that is too long for its room or a count that is too great, where they are there |
| NanopbEquality.SameBytesIff | ios/Pods/nanopb/pb_encode.c:528-550 | two messages with terminated strings have the same bytes if and only if they agree in all that is there |
| SkipLists.TurnKeepsPosition | ios/Pods/leveldb-library/db/skiplist.h:261-281 | one turn of a search stays on a linked node before the target |
| SkipLists.SearchCanGoOn | ios/Pods/leveldb-library/db/skiplist.h:261-281 | every load of a search finds a pointer |
| SkipLists.SearchIsExact | ios/Pods/leveldb-library/db/skiplist.h:261-281 | a search whose loads are interleaved with any number of stores returns the first key >= target linked at the moment of its last load |
| SkipLists.PublishGrows | ios/Pods/leveldb-library/db/skiplist.h:358-367 | after every single store each level is sorted and contains the level above, if levels are linked upwards |
| SkipLists.SkipList.FindGreaterOrEqual | ios/Pods/leveldb-library/db/skiplist.h:261-281 | the first key at or after the target, and on each level the node before it |
| SkipLists.SkipList.FindLessThan | ios/Pods/leveldb-library/db/skiplist.h:284-302 | the last key before the target, or the head |
| SkipLists.SkipList.FindLast | ios/Pods/leveldb-library/db/skiplist.h:304-322 | the last key, or the head |
| SkipLists.SkipList.Insert | ios/Pods/leveldb-library/db/skiplist.h:336-368 | adds the key to the lowest levels up to its height and to no other; the states readers can see in between are those after each single store, all growing, and there are exactly two stores a level, besides the one to max_height |
| SkipLists.SkipList.Contains | ios/Pods/leveldb-library/db/skiplist.h:370-379 | whether the key is linked |
| SkipLists.PrevUndoesNext | ios/Pods/leveldb-library/db/skiplist.h:206-221 | stepping back by search is the inverse of following the pointer |
| SkipLists.Iterator.Prev | ios/Pods/leveldb-library/db/skiplist.h:212-221 | the last key before the current one, or invalid |
| GroupCommit.BuildBatchGroup | ios/Pods/leveldb-library/db/db_impl.cc:1267-1317 | the group is the longest prefix of the queue in which none syncs unless the leader does and the sizes add up to at most 128 KB more than the leader has, or 1 MB if it has more than 128 KB itself; its batch is theirs in order |
| GroupCommit.NoSyncAfterAsync | ios/Pods/leveldb-library/db/db_impl.cc:1288-1292 | a sync write never joins the group of a leader that does not sync |
| GroupCommit.GroupContents | ios/Pods/leveldb-library/db/write_batch.cc:142-147 | the concatenated batch holds every operation of the group, in queue order |
| GroupCommit.RunKeeps | ios/Pods/leveldb-library/db/db_impl.cc:1185-1263 | over every run: writers complete in order of arrival and once, and the memtable up to LastSequence holds whole successful groups only |
| GroupCommit.AllOrNothing | ios/Pods/leveldb-library/db/db_impl.cc:1185-1263 | a writer told of success has all its operations visible at consecutive sequences, synced if it asked; one told of failure, or not yet done, has none visible |
| GroupCommit.SequencesInOrder | ios/Pods/leveldb-library/db/db_impl.cc:1208-1243 | sequences follow the order of arrival, and an operation has at most one |
| FileCollection.CollectedKeeps | ios/Pods/leveldb-library/db/db_impl.cc:223-278 | garbage collection deletes no file of a live version, no output in progress, and no log recovery needs |
| FileCollection.InstallCollects | ios/Pods/leveldb-library/db/db_impl.cc:223-278 | after a new version is installed without a background error there are exactly the table files of the current version, of versions readers hold and of the running compaction with its closed outputs, and exactly the logs from the log number on, with their contents; after an error all files stay |
| FileCollection.RunKeeps | ios/Pods/leveldb-library/db/db_impl.cc:535-566 | over every run of writes, log switches, flushes, compactions, failures and readers the file invariants hold, and protected are exactly the table being flushed and the outputs of the compaction |
| FileCollection.NothingIsLost | ios/Pods/leveldb-library/db/version_set.cc:801-884 | at any moment, also while a manifest record is being written or after its write failed, every manifest that may be found names existing files that, with the logs it reads, hold every acknowledged write if the process stops, and every synced write if the machine does and unsynced log tails are lost |
| FileCollection.FilesInUseExist | ios/Pods/leveldb-library/db/db_impl.cc:229-262 | files of the current version, of versions readers hold, of the compacting version and closed outputs exist |
| FileCollection.LogNumbersAscend | ios/Pods/leveldb-library/db/version_set.cc:802-807 | the log number of an edit is never below the current one, and below the next file number |
| HandleTables.HandleTable.Lookup | ios/Pods/leveldb-library/util/cache.cc:74-76 | finds the item with the key, if any |
| HandleTables.HandleTable.Insert | ios/Pods/leveldb-library/util/cache.cc:78-92 | replaces the item with the same key or adds one, growing the table when it is full |
| HandleTables.HandleTable.Remove | ios/Pods/leveldb-library/util/cache.cc:94-102 | takes out the item with the key, and no other |
| HandleTables.HandleTable.Resize | ios/Pods/leveldb-library/util/cache.cc:122-145 | rehashing keeps every item; the number of buckets becomes the least power of two from 4 up that is not below the number of items |
| LruCache.ReffedKeeps | ios/Pods/leveldb-library/util/cache.cc:217-223 | taking a reference keeps the lists, counts and charges right |
| LruCache.ReleasedKeeps | ios/Pods/leveldb-library/util/cache.cc:225-237 | so does giving one back, which deletes the handle with its last reference, exactly once |
| LruCache.ErasedKeeps | ios/Pods/leveldb-library/util/cache.cc:305-316 | so does erasing an entry that clients may still hold |
| LruCache.AddedKeeps | ios/Pods/leveldb-library/util/cache.cc:266-294 | so does a new entry |
| LruCache.ReffedMeans | ios/Pods/leveldb-library/util/cache.cc:217-223 | a first reference moves the entry off the lru list to those in use; otherwise only the count changes |
| LruCache.ReleasedMeans | ios/Pods/leveldb-library/util/cache.cc:225-237 | the last client's release makes a cached entry the youngest of the lru list and gives any other to its deleter; before that only the count changes |
| LruCache.ErasedMeans | ios/Pods/leveldb-library/util/cache.cc:305-316 | an erased entry is on no list and not charged any more; it goes to its deleter at once unless clients hold it |
| LruCache.LRUCache.Insert | ios/Pods/leveldb-library/util/cache.cc:266-303 | the new entry is found under its key and replaces the old one; every other entry stays unless it was unused; the oldest unused ones go, and only until the charges fit |
| LruCache.LRUCache.Evict | ios/Pods/leveldb-library/util/cache.cc:294-301 | entries leave from the old end of the lru list only; the last to leave would not have fitted |
| LruCache.LRUCache.Lookup | ios/Pods/leveldb-library/util/cache.cc:252-259 | a hit takes one reference and moves the entry off the lru list |
| LruCache.LRUCache.Release | ios/Pods/leveldb-library/util/cache.cc:261-264 | gives a reference back and keeps the mapping |
| LruCache.LRUCache.Erase | ios/Pods/leveldb-library/util/cache.cc:318-321 | removes exactly the entry with the key |
| LruCache.LRUCache.Prune | ios/Pods/leveldb-library/util/cache.cc:323-333 | removes exactly the unused entries |
| ThreadPool.StepKeepsPlaced | ios/Pods/Libuv-gRPC/src/threadpool.c:57-137 | every lock-protected region of workers, submitters, cancellers and loops keeps each request where the records say |
| ThreadPool.StepKeepsCounted | ios/Pods/Libuv-gRPC/src/threadpool.c:57-160 | and keeps the counters exact, slow work within its limit, the marker queued and wake-ups sufficient |
| ThreadPool.EveryRun | ios/Pods/Libuv-gRPC/src/threadpool.c:57-315 | the invariants hold in every state of every interleaving |
| ThreadPool.ExactlyOnePlace | ios/Pods/Libuv-gRPC/src/threadpool.c:142-160 | a submitted request is in exactly one of the queues, threads, loops and reports; one never submitted is nowhere |
| ThreadPool.ReportedOnce | ios/Pods/Libuv-gRPC/src/threadpool.c:295-315 | a done callback runs at most once and is told UV_ECANCELED exactly when the work never ran, which is exactly when uv_cancel returned 0 |
| ThreadPool.CancelSucceedsIff | ios/Pods/Libuv-gRPC/src/threadpool.c:269-283 | uv_cancel succeeds exactly on requests whose work has not started |
| ThreadPool.RunsAtMostOnce | ios/Pods/Libuv-gRPC/src/threadpool.c:83-121 | only taking work starts a request, one that has neither run nor been cancelled; both facts are permanent |
| ThreadPool.NoLostWakeup | ios/Pods/Libuv-gRPC/src/threadpool.c:68-74 | while a worker sleeps, every item of the queue has a worker of its own on the way, but for the marker when (nthreads + 1) / 2 workers do slow work |
| ThreadPool.QueuedWorkGoesOn | ios/Pods/Libuv-gRPC/src/threadpool.c:68-74 | while a worker sleeps and a request that is not slow waits, some worker is on its way to the queue |
| ThreadPool.SlowWorkGoesOn | ios/Pods/Libuv-gRPC/src/threadpool.c:68-110 | so too while slow requests wait and fewer than (nthreads + 1) / 2 workers run slow work |
| ThreadPool.AllAsleepNothingLeft | ios/Pods/Libuv-gRPC/src/threadpool.c:68-74 | when all workers sleep, both queues are empty and no slow work is counted |
| ThreadPool.SlowWorkBounded | ios/Pods/Libuv-gRPC/src/threadpool.c:45-47 | slow work runs on at most (nthreads + 1) / 2 threads, and pending slow work has the marker queued |
| ThreadPool.FirstComeFirstServed | ios/Pods/Libuv-gRPC/src/threadpool.c:83-160 | over every run, of two requests of the same kind the one submitted first is the first to start, unless it is cancelled |
| ThreadPoolCode.Globals.WorkerTurn | ios/Pods/Libuv-gRPC/src/threadpool.c:57-114 | what a worker does from taking the mutex to releasing it is a path of such steps; it starts the first request that is not slow, or the first slow one if the marker comes first and fewer than (nthreads + 1) / 2 workers are busy with slow work, and sleeps only if nothing is left but perhaps a marker that has to wait |
| ThreadPoolCode.Globals.WorkSubmit | ios/Pods/Libuv-gRPC/src/threadpool.c:256-266 | submitting is one step, which puts the request behind those of its kind |
| ThreadPoolCode.Globals.FinishWork | ios/Pods/Libuv-gRPC/src/threadpool.c:121-128 | handing a finished request to its loop is one step |
| ThreadPoolCode.Globals.WorkCancel | ios/Pods/Libuv-gRPC/src/threadpool.c:269-283 | the decision of uv__work_cancel is one step, and positive exactly if the work has not started |
| ThreadPoolCode.Globals.WorkCancelled | ios/Pods/Libuv-gRPC/src/threadpool.c:285-291 | so is its second part |
| ThreadPoolCode.Globals.WorkDone | ios/Pods/Libuv-gRPC/src/threadpool.c:295-303 | the loop takes over its whole queue |
| ThreadPoolCode.Globals.ReportOne | ios/Pods/Libuv-gRPC/src/threadpool.c:305-314 | each turn reports one request that was not reported before, as cancelled exactly if it never ran |
| TimerHeap.PathTo | ios/Pods/Libuv-gRPC/src/heap-inl.h:116-121 | the bits of the count below its leading one, lowest first, lead from the root to that node |
| TimerHeap.Heap.FindSlot | ios/Pods/Libuv-gRPC/src/heap-inl.h:123-134 | walking along those bits ends at the pointer to that slot, having passed its parent |
| TimerHeap.Heap.Relink | ios/Pods/Libuv-gRPC/src/heap-inl.h:72-104 | pointer by pointer, what swapping a parent with its child changes |
| TimerHeap.Heap.NodeSwap | ios/Pods/Libuv-gRPC/src/heap-inl.h:72-104 | the swap exchanges two slots of a consistently linked complete tree and nothing else |
| TimerHeap.SiftUp | ios/Pods/Libuv-gRPC/src/heap-inl.h:144-145 | swapping with a greater parent leaves at most the parent slot out of order |
| TimerHeap.SiftDown | ios/Pods/Libuv-gRPC/src/heap-inl.h:214-223 | swapping with the smallest child leaves at most the child slot out of order |
| TimerHeap.Heap.Insert | ios/Pods/Libuv-gRPC/src/heap-inl.h:106-147 | adds exactly the new node; the tree stays complete, consistently linked and heap-ordered |
| TimerHeap.Heap.Remove | ios/Pods/Libuv-gRPC/src/heap-inl.h:150-237 | removes exactly the given node, wherever it is, with the same guarantees |
| TimerHeap.Heap.Dequeue | ios/Pods/Libuv-gRPC/src/heap-inl.h:239-241 | removes the least node |
| TimerHeap.RootIsLeast | ios/Pods/Libuv-gRPC/src/heap-inl.h:67-69 | no node is less than the root |
| Timers.ClampSaturates | ios/Pods/Libuv-gRPC/src/timer.c:77-79 | the wrapped 64-bit sum with its clamp is the saturating sum |
| Timers.Loop.TimerStart | ios/Pods/Libuv-gRPC/src/timer.c:66-94 | refused exactly on a closing handle or a null callback; otherwise the timer is in the heap with its clamped timeout and a fresh start id, and nothing else changes |
| Timers.Loop.TimerStop | ios/Pods/Libuv-gRPC/src/timer.c:97-107 | takes exactly this timer off the heap |
| Timers.Loop.TimerAgain | ios/Pods/Libuv-gRPC/src/timer.c:110-120 | refused exactly without a callback; otherwise restarts a repeating timer with its repeat value, and does nothing to the others or to a timer that does not repeat |
| Timers.Loop.TimerInit | ios/Pods/Libuv-gRPC/src/timer.c:58-63 | a fresh inactive handle joins the loop, and the heap is as it was |
| Timers.Loop.RunTimers | ios/Pods/Libuv-gRPC/src/timer.c:154-171 | each turn fires the active due timer with the least key, first stops it, restarts it if it repeats, and then does what its callback asks for; keys (timeout, start_id) of one pass strictly increase, whatever the callbacks init, start, stop, restart, close or do to the clock; the pass ends exactly when no active timer is due |
| Timers.Loop.Fire | ios/Pods/Libuv-gRPC/src/timer.c:163-168 | the timer leaves the heap if it does not repeat or is closing; otherwise the heap keeps its nodes and the timer gets the time plus its repeat, saturated, and a fresh start id; all other keys stay |
| Timers.FiredMeans | ios/Pods/Libuv-gRPC/src/timer.c:163-168 | a repeating timer whose callback does nothing is active again behind the time of the pass |
| Timers.StartMeans | ios/Pods/Libuv-gRPC/src/timer.c:66-94 | a start sets the timer to the time plus its timeout, saturated, under a fresh start id, and no other; on a closing handle or without a callback it does nothing |
| Timers.AgainMeans | ios/Pods/Libuv-gRPC/src/timer.c:110-120 | restarting is stopping and starting with the repeat value, or nothing |
| Timers.OneThingSet | ios/Pods/Libuv-gRPC/src/timer.c:58-131 | stopping, setting the repeat value, updating the time and initialising change that one thing |
| Timers.StopUndoesStart | ios/Pods/Libuv-gRPC/src/timer.c:66-107 | a stop undoes a start, but for the start id |
| Timers.ClosedForGood | ios/Pods/Libuv-gRPC/src/timer.c:173-177 | a closed timer stays inactive whatever is called |
| Timers.Loop.Execute | ios/Pods/Libuv-gRPC/src/timer.c:58-120 | a call from a callback has the effect of that call and no other |
| Timers.Loop.NextTimeout | ios/Pods/Libuv-gRPC/src/timer.c:133-151 | -1 exactly without active timers, 0 exactly if one is due, else the time to the first one, capped at INT_MAX |

## Left out

- Internal keys that fail to parse, I/O errors and shutdown, except where group commit and file collection have them.
- Scores, seek counts (`allowed_seeks`) and read sampling: the choices they make are parameters, and every choice is covered. So are the sizes of output files, except in the two concrete runs.
- The compaction input iterator concatenates the files of a level; in `DbImplementation.MergeInputs` each file is a child of the merging iterator. That the concatenation is the same sorted run is `Cursors.LevelIsSorted`.
- LogFormat.Reader.ReadRecord: reading starts at offset 0, so skipping to `initial_offset` and resyncing there are not modelled; of reports there are the numbers of bytes; failing reads of the file are left out.
- LogDamage.DamageIsLocal: damage does not change the length of the file.
- Tables.Open: behind the footer and the index block, which `Tables.OpenIndex` has for any file, tables are those a builder made; blocks that cannot be read are `TableFormat.ReadBlock`. `SaveValue` on keys that do not parse.
- The cache of blocks between a table and its file, and the table cache; the cache is verified on its own.
- Snappy is an arbitrary codec whose decompression undoes its compression, and the CRC an arbitrary function to 32 bits.
- VersionBuilder.Builder.Apply: no `allowed_seeks`, and no compaction pointers, which `Manifests.VersionSet` has.
- VersionBuilder.Recover: file lists only; records, numbers and errors are in `Manifests.VersionSet.Recover`.
- VersionBuilder.LogAndApply: file lists only; records, numbers and failed writes are in `Manifests.VersionSet.LogAndApply`.
- Manifests.VersionSet.LogAndApply: a record that a failed write cuts off part way counts as lost (readers drop it, `LogRecovery.ReadAll`), files of a level are a set (their order is `VersionBuilder.SaveTo`), and an edit names no comparator, as in the code.
- Manifests.RunAndReopen: logged edits there are written without a fault.
- Manifests.VersionSet.Recover: the comparison of file sizes that decides about reusing a manifest is a parameter.
- Reopening: compactions of a run are atomic (their phases are `CompactionPhases`), the log records that are left are whole batches (`LogRecovery.ReadAll`) in order of their sequences, and the manifest is as of the last edit (`Manifests`, `FileCollection`).
- 64-bit file and sequence numbers do not wrap; sequence numbers stay below the 56-bit limit as a precondition of writing.
- In the store model the memtable is a sorted sequence of entries; the skip list is verified on its own.
- Skip list nodes are a map of next pointers; loads and stores are interleaved atomic steps, without weaker memory orders; heights are parameters.
- `HandleTable` takes `hash % length` where the code masks with `length - 1`; lengths are powers of two there. Sharding of the cache.
- Thread pool: start-up and the exit message, the wake-up of the loop through `uv_async_send`. A request number stands for one submission of a request object.
- Timers: the start counter does not wrap. A pass may go on for ever when callbacks keep starting due timers; `RunTimers` follows it for as many callbacks as the given script holds.
- Group commit: batches are well formed, so inserting them cannot fail part way; batches of bytes are `WriteBatches`.
- File collection: contents of files are sets of write identifiers and a compaction keeps the contents of its inputs (what it may drop is the subject of the compaction rules); trivial moves, which do not change the set of files, are no steps; `prev_log_number` is 0.
- NanopbRoundTrip.RoundTripIff: messages whose encoding is 4 GB or longer, where the 32-bit lengths no longer agree, and field numbers of 2^29 and more are outside.
- NanopbUnknown.UnknownFieldsIff, NanopbBoundaries.UnknownFieldsPutIn: fields are put in at the top level of a message; inside a submessage they change its length prefix.
- NanopbEncode.OStream.Encode: callback fields, extensions and pointer fields; callbacks of the stream, which is a buffer or none.
- NanopbRead.Decode: callback fields, extensions and allocated fields; a message is a tree of values, so offsets in structs, aliasing and half-decoded structs after a failure are not captured. The zero count that setting defaults stores into the first bytes of a fixed-count array, which every complete message overwrites, and the terminator that tag 0 matches in a message type without fields.
- NanopbRead.IStream.DecodeVarint32: the shift count does not wrap, which in the code takes a varint of more than 36 bytes.
- The nanopb build with 64-bit types is modelled, and `size_t` does not overflow.
- `env`, repair, dump tools, C wrappers and statistics.
