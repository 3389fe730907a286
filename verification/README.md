# A verified model of the LSM storage engine

The engine keeps a map from keys to values in a write-ahead log, memtables, and two levels of
sorted tables listed by a MANIFEST. This project models all of these layers, the bytes they leave
in the directory, and every interleaving of writers, readers, flushes, compactions, crashes and
reopens, and proves that together they behave like one plain map whose writes are logged in order.

`dafny verify dfyconfig.toml` checks everything. The files, from the bottom up:

- `Outcomes`, `Bytes`, `Utf8`: results, the order on keys, the little-endian integers, and what
  UTF-8 accepts.
- `Records`, `SparseIndex`, `BloomFilter`, `TableFormat`, `TableBuilder`, `TableReader`: the table
  file, written by a builder object and read by indexed lookup and by full scan.
- `Wal`, `Memtable`, `ManifestFile`, `ManifestExact`: the log's frames, scanning with torn tails, the
  buffered writer; the memtable and replay; the MANIFEST, and exactly which bytes are one. Every
  format is also laid out byte by byte, at literal offsets, and codec and layout are proved to agree.
- `Layers`, `Merge`: what a layer means, and the merge of compaction.
- `Machine`: the engine as a state machine. One step is one action that another thread or a crash
  can observe. A state holds memory (memtables by generation, levels, the program counters of the
  holder of the log lock and of the holder of the flush lock, the readers under way) and disk
  (MANIFEST, table files, log generations). Readers and the writer run between any two steps of a
  flush, a compaction or a freeze.
- `Overlays`, `Invariants`, `WriterSteps`, `FlushSteps`, `CompactSteps`, `ReadSteps`, `OpenSteps`:
  the invariant, and that each step keeps it.
- `Guarantees`: the theorems about all runs, with any number of crashes and reopens in them.
- `Necessity`: what would go wrong otherwise: the freeze handing its log over too late, logs deleted
  out of order, and file numbers that wrap.
- `Progress`: what can always be done: reads, writes, freezes, flushes and compactions wait for each
  other no more than the locks make them, and no state is a dead end.
- `DiskImage`: what the bytes in the directory stand for, and that the bytes any crash leaves stand
  for a disk the machine can reopen.
- `EngineRuns`, `EngineViews`, `Engine`, `Opening`: the engine object over the bytes of its
  directory. Each method is proved to take a stretch of steps of the machine; the contracts of
  `Put`, `Delete`, `Get`, `Flush`, compaction and `open_with_options` speak of the plain map.

## How crashes are modelled

A crash ends the process. What the operating system has been handed survives; the log being written
may lose any suffix that was still in the writer's buffer. Replacing the writer during a freeze hands
its buffer to the operating system without a sync, so of a log that is no longer written nothing is
lost. A disk or process operation either succeeds or the process crashes. That matters: after an
error from `write_manifest`, `flush_all_pending` forgets which generations it has committed
(src/engine.rs:178-194), and log deletion is best effort (src/engine.rs:198, src/engine.rs:511), so a
stale older log could outlive a newer one. `Necessity.LeftoversHarmlessIffSuffix` shows that the order of
deletion is exactly what makes leftovers harmless.

## Where the documentation and the code differ

The model follows the code.

- README.md line 28 says that all acknowledged writes are recovered after an unexpected process
  drop. `WalWriter` buffers in the process (src/wal/writer.rs:20, 39-44), so an acknowledged write can
  be lost: `EngineOpening.AcknowledgedWriteCanBeLost` puts one small key into an empty directory,
  kills the process and reopens to an empty map. `EngineOpening.KillAndReopen` and
  `EngineOpening.AcknowledgedSurviveIffBufferEmpty` say exactly when everything survives: when the
  writer's buffer is empty. `EngineOpening.PutThenKill` says the same in terms a caller can check
  before the call (`WritesThrough`): the write and all before it survive exactly when it is synced,
  or brings the memtable to the flush threshold, or makes a frame of at least the buffer's 8192
  bytes. The option `sync_per_write` alone rules the loss out for every write.
- src/wal/writer.rs:17-18 says that recovery stops at the first corrupt entry. `scan` stops only at a
  fragment that ends inside its own frame; a whole frame that does not decode is an error, even at
  the very end (src/wal/reader.rs:101-112). `WriteAheadLog.ScanDecides` states both cases exactly, and
  `WriteAheadLog.CorruptLastFrameIsRefused` gives an input: eleven zero bytes behind any entries.

## Model

| member | source | states |
|---|---|---|
| Guarantees.StepKeepsInv | src/engine.rs:173-730 | every step of every thread, every sub-step of open and every crash keeps the invariant that ties memory and disk to the history of logged operations |
| Guarantees.RunKeepsInv | src/engine.rs:173-730 | every state of every run from an empty directory, through any crashes and reopens, satisfies the invariant |
| Guarantees.EveryLookupIsLastWrite | src/engine.rs:603-654 | in every reachable state, active, immutables newest first, level 0, level 1, first hit wins, gives what the last put or delete of the key in the whole history left |
| Guarantees.ReadsAreLinearizable | src/engine.rs:603-654 | the answer of every read, whatever ran between its snapshot and its return, is the plain map's value for the key at some moment between the two |
| Progress.ReadsAreFree | src/engine.rs:603-654 | in every state with the invariant, whatever the writer, the flush lock's holder and other readers are in the middle of, a read can start and end at once and leaves no trace; its answer is the plain map's value of that moment |
| Progress.ReadsCanEnd | src/engine.rs:621-654 | a read under way can end in every state, whatever ran since |
| Progress.WritesAreFree | src/engine.rs:545-557 | with the log lock free any admissible write can be logged and applied, whatever flush, compaction or read is under way |
| Progress.FreezesAreFree | src/engine.rs:695-730 | with the log lock free and anything in the active memtable, a freeze can run through, whatever flush, compaction or read is under way |
| Progress.BufferDrainsAnytime | src/wal/writer.rs:27-44 | the buffer of the log being written can go to the operating system up to any entry at any moment |
| Progress.WriterFinishes | src/engine.rs:695-730 | whatever it is in the middle of, the holder of the log lock reaches its end in at most two steps of its own |
| Progress.CommitsAreFree | src/engine.rs:304-389 | a flush or compaction can commit in every state of the writer but one, between the swap and the end of a freeze |
| Progress.FlusherFinishes | src/engine.rs:173-333 | whatever it is in the middle of, the holder of the flush lock reaches the release by steps of its own, in every state of the writer but that one |
| Progress.FlushesAreFree | src/engine.rs:173-201 | a free flush lock can be taken and every frozen memtable flushed, whatever reads and writes are under way |
| Progress.CompactionsAreFree | src/engine.rs:227-333 | likewise a compaction that empties level 0, whenever there is anything in it |
| Progress.NoDeadEnd | src/engine.rs:173-730 | from every state with the invariant, without a crash and without losing anything, the writer and the flush lock's holder can come to rest |
| Guarantees.NumbersOrderData | src/engine.rs:473-483 | in every reachable state file numbers order data: level 0 ascends and lies above level 1, log generations ascend, `next_seq` exceeds them all |
| Guarantees.DurableForever | src/engine.rs:545-600 | what is durable once stays durable and unchanged through all later steps, crashes and reopens |
| Guarantees.CrashThenReopenShowsPrefix | src/engine.rs:421-542 | after a crash at any point and any number of interrupted reopens, the engine that comes up shows exactly a prefix of the history, with everything durable in it |
| Guarantees.NothingIsMissing | src/engine.rs:425-447 | at every moment a crash may strike and leaves a directory whose every listed table has its file, so open never fails on what a run left |
| Guarantees.SyncMakesDurable | src/wal/writer.rs:47-51 | after a sync every logged operation is durable |
| Guarantees.ListedForever | src/engine.rs:393-405 | the part of the history the MANIFEST's tables hold never shrinks, through crashes and reopens |
| Guarantees.ListedTablesAlone | src/engine.rs:393-405 | in every state the listed tables alone, all logs thrown away, show exactly a durable prefix of the history |
| Guarantees.FlushIsDurable | src/engine.rs:658-669 | whenever the flush lock has been taken and released after the active memtable was empty, at every later moment, crashes included, the listed tables alone hold everything logged before, also when other flushers ran meanwhile |
| Guarantees.FlushNeverStuck | src/engine.rs:339-391 | a flush with immutables left can always build the next table |
| Guarantees.FreezeEmptiesActive | src/engine.rs:695-730 | a freeze leaves nothing in the active memtable |
| EngineRuns.LeadsIsRun | src/engine.rs:421-542 | whatever steps engine objects take from an empty directory, over any series of crashes and reopens, form a run that all the theorems about runs apply to |
| EngineRuns.OpenRuns | src/engine.rs:421-542 | from any directory at rest the steps of open run to a state in which the engine is up and shows the same history |
| WriterSteps.AppendKeepsInv | src/engine.rs:545-557 | logging an operation before applying it keeps the invariant |
| WriterSteps.ApplyKeepsInv | src/engine.rs:576-600 | applying the logged operation keeps the invariant and every answer a reader is heading for, although the reader shares the memtable |
| WriterSteps.FreezeCreateKeepsInv | src/engine.rs:708-712 | creating the next generation's log keeps the invariant |
| WriterSteps.FreezeSwapKeepsInv | src/engine.rs:714-726 | swapping the memtables keeps the invariant and changes no answer |
| WriterSteps.FreezeSwitchKeepsInv | src/engine.rs:727-729 | replacing the log writer keeps the invariant: the frozen log is complete from then on |
| FlushSteps.BuiltTableOk | src/engine.rs:345-350 | whatever the log admitted, the builder admits: a memtable's records are in order and within the caps |
| FlushSteps.FlushBuildKeepsInv | src/engine.rs:340-356 | writing the table file of an immutable keeps the invariant |
| FlushSteps.FlushCommitKeepsInv | src/engine.rs:366-389 | adding the table and dropping the immutable in one move keeps the invariant, for readers too |
| FlushSteps.FlushManifestKeepsInv | src/engine.rs:194 | listing the new tables keeps the invariant |
| FlushSteps.FlushDeleteKeepsInv | src/engine.rs:196-199 | deleting the flushed logs oldest first keeps the disk recoverable at every point between |
| CompactSteps.MergeShowsLevels | src/engine.rs:237-260 | the merge of all tables shows exactly what both levels showed together, for every key |
| CompactSteps.CompactMergeKeepsInv | src/engine.rs:251-302 | writing the merged table, or none when nothing survives, keeps the invariant |
| CompactSteps.CompactCommitKeepsInv | src/engine.rs:304-324 | replacing both levels by the merged table changes no lookup and no reader's answer |
| CompactSteps.CompactManifestKeepsInv | src/engine.rs:325 | listing the merged table alone keeps the invariant |
| CompactSteps.CompactDeleteKeepsInv | src/engine.rs:327-331 | deleting an input table keeps everything listed and everything in the levels in place |
| ReadSteps.LookupIsHistory | src/engine.rs:603-654 | in any state satisfying the invariant the layered lookup equals the plain map's, mid-write and mid-freeze included |
| ReadSteps.ReadBeginKeepsInv | src/engine.rs:604-620 | a snapshot taken in any state in which it can be taken, which is any (`Progress.ReadsAreFree`), answers the map of that moment |
| OpenSteps.CrashRecoversPrefix | src/engine.rs:421-542 | whatever each log loses beyond its kept part, replaying what is left over the listed tables shows a prefix of the history between the durable length and the whole |
| OpenSteps.RunCrashKeepsInv | src/engine.rs:421-471 | the disk a crash leaves satisfies what open relies on |
| OpenSteps.CutReopenReplays | src/engine.rs:485-512 | a crash inside open loses nothing: whichever old generations are left and however much was re-appended, the logs replay to what had been recovered, tombstones included |
| OpenSteps.OpenCrashKeepsInv | src/engine.rs:464-512 | after a crash at any point inside open the directory shows the same history |
| OpenSteps.OpenLoadKeepsInv | src/engine.rs:421-485 | loading and replaying oldest first, then creating the fresh log, establishes what the rest of open needs |
| OpenSteps.OpenDeleteKeepsInv | src/engine.rs:509-512 | once the recovered memtable is synced, deleting old generations oldest first loses nothing |
| OpenSteps.OpenDoneKeepsInv | src/engine.rs:519-540 | the engine that open builds satisfies the invariant of a running engine |
| Necessity.CommitBeforeHandoverLosesOrder | src/engine.rs:695-730 | on the machine without the guard of `state_lock` there is a run from an empty directory, and a crash at its end, whose disk shows a map that no prefix of the history shows: the lock must be held until the log writer is replaced |
| Necessity.LeftoversHarmlessIffSuffix | src/engine.rs:195-199 | generations are flushed over any older tables and listed, newer logs are in use, and some flushed logs are left behind: opening shows what it would show without them, whatever they held, if and only if the leftovers are a suffix of the generations |
| Necessity.NewestFoundIffNumberLargest | src/engine.rs:379-380 | the entry of a table that joins level 0 is the one a lookup finds if and only if no other table that holds the key has a larger number |
| Necessity.FlushedAfterLastNumberIsHidden | src/engine.rs:340-380 | what is flushed right after number n is found if and only if n is not `u64::MAX`, after which `next_seq` wraps to 0, or no older table holds the key |
| DiskImage.FileNameInjective | src/engine.rs:341 | tables of different level or number have different file names |
| DiskImage.FileNameLaid | src/engine.rs:341 | the name of a table file character by character: `L`, the level, `_`, the number in decimal with zeros to fill six digits and no more, `.sst` |
| DiskImage.CutOfValid | src/wal/reader.rs:84-115 | scanning what the operating system holds of each log gives, for each, a prefix that includes all entries known to be kept |
| DiskImage.CrashLeavesImage | src/engine.rs:421-471 | in bytes: whatever is in the directory when the process dies, running or opening, stands for the disk after a crash step, from which the engine can reopen |
| DiskImage.WrittenManifestImage | src/engine.rs:393-405 | the MANIFEST written from the levels lists exactly those levels |
| KeyValueEngine.LsmEngine.Put | src/engine.rs:545-557 | refuses what is over the caps and changes nothing, else updates the map at the key and the history by one; durable on return with `sync_per_write`; nothing is left in the log buffer exactly when the write goes through it by option, threshold or size; the memtable gains the entry and the size estimate key, value and 64, or is frozen with it and the next starts from 0; no table is touched |
| KeyValueEngine.LsmEngine.Delete | src/engine.rs:560-571 | removes the key from the map and logs a tombstone, durable on return with `sync_per_write`; nothing is left in the log buffer exactly when the write goes through it by option, threshold or size; the memtable gains the tombstone and the size estimate key and 64, or is frozen with it and the next starts from 0; no table is touched |
| KeyValueEngine.LsmEngine.ApplyAndMaybeFreeze | src/engine.rs:576-600 | applies the logged operation, raises the size estimate by key, value and 64, and freezes exactly when the estimate has then reached a threshold that is not 0; what was durable stays so |
| KeyValueEngine.LsmEngine.FreezeActive | src/engine.rs:695-730 | does nothing on an empty memtable; else rotates memtable and log, with the size estimate of the fresh one 0, and leaves the old log complete with the operating system, the history durable |
| KeyValueEngine.LsmEngine.Get | src/engine.rs:603-654 | over the actual fields and file bytes: never fails, and answers what the plain map holds for the key |
| KeyValueEngine.LsmEngine.WriteTable | src/engine.rs:341-364 | leaves a file under the table's name that holds exactly the records in filled-up blocks with every key in the bloom block, and returns the metadata it must be listed with; fails, without a file, only if the file could be longer than a `u64` can address |
| KeyValueEngine.LsmEngine.CommitTable | src/engine.rs:370-389 | the table goes behind every smaller number of level 0 and before the first that is not smaller, at the very end if its number is the largest; no other level changes; the immutables lose exactly the one of its generation and keep their order |
| KeyValueEngine.LsmEngine.FlushPending | src/engine.rs:339-391 | turns the oldest immutable into the table with the next number at the end of level 0; builder rejections do not occur; the history is unchanged; fails only on a table too long for a `u64`, and even then the directory stays recoverable |
| KeyValueEngine.LsmEngine.Drain | src/engine.rs:178-187 | flushes every immutable in freeze order, their tables standing behind the others of level 0 under consecutive numbers, and reports exactly their generations |
| KeyValueEngine.LsmEngine.FlushAllPending | src/engine.rs:173-201 | leaves no immutable, level 0 being the old one and their tables; the listed tables hold everything that lay below the active memtable; the active log is the only one left |
| KeyValueEngine.LsmEngine.WriteManifest | src/engine.rs:393-405 | the file holds the encoding of the levels, whatever empty levels they end in |
| KeyValueEngine.LsmEngine.Flush | src/engine.rs:658-669 | afterwards memory is empty, level 0 is the old one and the tables of what was in memory, every operation is durable and the listed tables alone show the whole map |
| KeyValueEngine.LsmEngine.Inputs | src/engine.rs:237-249 | the inputs of a compaction are all tables of levels 0 and 1, level 0 first |
| KeyValueEngine.LsmEngine.ReadRuns | src/engine.rs:251-259 | scanning the input files gives exactly the runs of the tables in the levels |
| KeyValueEngine.LsmEngine.WriteMerged | src/engine.rs:262-302 | the merge's output becomes one new level-1 table file, or none when nothing survives |
| KeyValueEngine.LsmEngine.CompactAllPending | src/engine.rs:227-333 | the history, and so the map, is unchanged; with level 0 empty nothing is done, else the levels become one table that is the merge of all the tables there were, or nothing, and the input files are gone; fails only on a merge too long for a `u64` |
| EngineViews.CompactedHasNoTombstone | src/engine.rs:217-220 | what compaction leaves holds no tombstone |
| KeyValueEngine.LsmEngine.WorkerRound | src/engine.rs:140-158 | flushes every immutable to the end of level 0, then compacts everything exactly if the threshold is not 0 and level 0 has reached it, else leaves the levels at that; the map never changes |
| EngineOpening.LoadTables | src/engine.rs:425-447 | succeeds exactly when the MANIFEST decodes and every table it names has its file; every refusal is corruption |
| EngineOpening.ReplayAll | src/engine.rs:449-471 | succeeds exactly when no log is corrupt, with all logs replayed oldest first and the size estimate the sum over all their entries |
| EngineOpening.MaxNumber | src/engine.rs:473-481 | finds the largest number any listed table or log bears |
| EngineOpening.BackUp | src/engine.rs:492-507 | re-appending what was recovered is never refused and leaves all of it synced; of a directory at rest, every directory between two appends still shows the same history |
| EngineOpening.OpenWithOptions | src/engine.rs:421-542 | on any directory: refuses it unchanged, as corrupt, exactly when the MANIFEST does not decode, a table is missing or a log is corrupt, else comes up with what the files say, the size estimate that of all replayed entries, its log under the number after the largest in use; on a directory any run and any crash left, always comes up and shows its history |
| EngineOpening.KillAndReopen | src/engine.rs:421-542 | killing the process between any two calls, or after a call that failed half-way, and opening its bytes gives an engine whose map is that of a prefix of the history with everything durable in it, and of the whole history if and only if the log writer's buffer was empty |
| EngineOpening.AcknowledgedSurviveIffBufferEmpty | src/wal/writer.rs:27-44 | of every engine object: all acknowledged operations survive a kill of the process if and only if the log writer's buffer is empty |
| EngineOpening.PutThenKill | src/engine.rs:545-557 | one put and then a kill: the reopened map is the old one with the key set exactly when the put was synced, froze the memtable or bypassed the buffer, which options and sizes decide beforehand; otherwise the write is lost |
| EngineOpening.AcknowledgedWriteCanBeLost | src/wal/writer.rs:27-44 | in bytes: into an empty directory without `sync_per_write`, a put returns success, the process is killed, and the reopened engine is empty |
| EngineOpening.KilledWhileReappending | src/engine.rs:484-508 | in bytes: a kill while the recovered memtable is re-appended, wherever it cuts the fresh log, leaves a directory that shows the same history |
| EngineOpening.KilledWhileDeleting | src/engine.rs:509-512 | in bytes: a kill between any two deletions of old logs leaves a directory that shows the same history |
| EngineOpening.DeleteLogs | src/engine.rs:509-512 | deletes exactly the old generations; of a directory at rest, every directory between two deletions still shows the same history |
| EngineOpening.CloseAndReopen | src/engine.rs:120-135 | after a clean drop, reopening gives exactly the same map |
| EngineOpening.RecoveredFits | src/engine.rs:493-505 | whatever bytes the logs hold, what they replay to can be logged again |
| EngineOpening.EmptyDirectoryIsFresh | src/manifest.rs:232-239 | an empty directory stands for the state every run starts from |
| EngineViews.LookupFile | src/engine.rs:645-650 | opening a table file and looking a key up answers as searching its records would |
| EngineViews.BuildTable | src/engine.rs:345-356 | any sorted records within the caps are accepted one by one, the bounds reported are the smallest and the largest key, no block is closed before the next record would go over 4096 bytes, and the bloom block has every key and nothing else; fails only on a file too long for a `u64` |
| EngineViews.RebuildManifest | src/engine.rs:393-403 | adding every handle gives back the levels, without empty levels at the end |
| Merge.MergeRuns | src/compaction/leveled.rs:31-90 | the output is strictly ascending and holds a key exactly when the newest record of that key is not a tombstone, with that record's value |
| Merge.SmallestHead | src/compaction/leveled.rs:49-60 | finds the smallest key any cursor stands at, or that all runs are used up |
| Merge.ConsumeHeads | src/compaction/leveled.rs:62-83 | every run standing at the key gives it up, no other cursor moves, and the winner has the largest number among them |
| Merge.MergeDropsTombstones | src/compaction/leveled.rs:17-26 | nothing in the output of a merge is a tombstone |
| Merge.MergeIsReplay | src/compaction/leveled.rs:17-31 | the merge of runs with distinct numbers equals replaying them oldest to newest and dropping tombstones |
| Merge.MergeExists | src/compaction/leveled.rs:17-31 | any runs with distinct numbers have a merge |
| Merge.MergeIgnoresOrder | src/compaction/leveled.rs:17-31 | the output does not depend on the order in which the runs are given |
| TableBuilder.SsTableBuilder.Add | src/sstable/builder.rs:77-119 | accepts exactly keys and values within the caps in strictly ascending order, keeps the block layout, closes a block only when the record would go over its size, and changes nothing when it refuses |
| TableBuilder.SsTableBuilder.FinalizeBlock | src/sstable/builder.rs:194-205 | closes the block being filled, if any, and loses no record |
| TableBuilder.SsTableBuilder.Build | src/sstable/builder.rs:161-189 | never refuses; the file is data, index, bloom and footer over filled-up blocks that hold all records in order, each at most 4096 bytes or a single record; the bloom block is that of exactly the keys added |
| TableFormat.IndexTiles | src/sstable/builder.rs:194-205 | every index entry points at exactly its block, starting where the block before it ends |
| TableFormat.BlocksAreRecords | src/sstable/builder.rs:94-119 | the data section is the records one after another however they are split into blocks |
| TableFormat.BloomOfExact | src/sstable/builder.rs:102-107 | the bloom block lets through exactly the keys that share every one of their bits with some key of the table |
| TableReader.OpenTable | src/sstable/reader.rs:54-136 | accepts exactly the images of data, index and optional bloom, and gives back what the image was made of; every refusal is corruption |
| TableReader.OpensIffLaid | src/sstable/reader.rs:54-136 | the files accepted are exactly those with the offsets of index and bloom block in the last 24 bytes, before the magic, and between them whole index entries and a whole bloom block |
| TableReader.Get | src/sstable/reader.rs:181-227 | the loop over one block computes the lookup the next row is about |
| TableReader.GetFailsIff | src/sstable/reader.rs:181-227 | on any accepted file a lookup fails if and only if the block it is sent to lies beyond the file or breaks off behind records that are all below the key; every failure is corruption |
| TableReader.ScanDecides | src/sstable/reader.rs:211-226 | in a block of any bytes the first record not below the key decides, whatever comes behind it |
| TableReader.UnsetBitEndsLookup | src/sstable/reader.rs:182-187 | one bit of the key that is not set in the bloom block ends the lookup before anything is read |
| TableReader.IndexedGetIsLinearSearch | src/sstable/reader.rs:181-227 | bloom, sparse index and one-block scan with its early exit answer every key as searching the list of added records would |
| TableReader.BuiltTableOpens | src/sstable/reader.rs:54-136 | every built file opens |
| TableReader.ScanGivesAdded | src/sstable/reader.rs:234-248 | a full scan of a built table gives back exactly the added records, however many blocks, none included |
| TableReader.AllRecords | src/sstable/reader.rs:234-248 | the scan loop decodes the data section record by record to its end |
| Records.WalkDecides | src/sstable/reader.rs:234-248 | on any bytes a scan gives all records if they are all there is, and is corruption as soon as anything follows the last whole record |
| SparseIndex.EncodeIndex | src/sstable/index.rs:23-36 | refuses exactly when some key is over the cap, naming the first such, before writing anything |
| SparseIndex.EntryStands | src/sstable/index.rs:23-36 | an index entry byte by byte: key length, key, offset, size |
| SparseIndex.ReadEntryIff | src/sstable/index.rs:42-68 | on any bytes an entry is read exactly where one is laid out, and otherwise it is corruption |
| SparseIndex.ParseEncoded | src/sstable/index.rs:42-68 | parsing an encoded index gives it back |
| SparseIndex.ParseExact | src/sstable/index.rs:42-68 | whatever parses is exactly the encoding of what was parsed |
| SparseIndex.LocateBlockCorrect | src/sstable/index.rs:74-79 | the located block is the only one whose key range can hold the key, and there is none exactly when the key is below the first block |
| Records.PutRecord | src/sstable/record.rs:18-32 | refuses over-long keys and values and writes nothing, else appends the record: two bytes of key length, one of flags, 1 for a tombstone and 0 otherwise, four of value length, key and value |
| Records.RecordStands | src/sstable/record.rs:7-10 | the encoding of a record is exactly the bytes laid out at these offsets with no other flag set |
| Records.ReadRecordIff | src/sstable/record.rs:37-64 | on any bytes a record is read exactly where one is laid out, a tombstone by bit 0 of the flags alone, and otherwise it is corruption |
| Records.ReadRecordAt | src/sstable/record.rs:37-64 | decoding undoes encoding wherever the record stands in a buffer |
| BloomFilter.InsertKeepsKeys | src/sstable/builder.rs:102-110 | a key once inserted is always found, whatever is inserted later |
| BloomFilter.ContainsExact | src/sstable/builder.rs:102-110 | a filter lets a key through exactly if every one of its bits was set at first or by a key inserted |
| BloomFilter.BloomLaid | src/sstable/bloom.rs:26-34 | the bloom block bit by bit: four bytes for the number of hashes, then bit j of word w in the integer at 4 + 8w |
| BloomFilter.DecodeEncodedBloom | src/sstable/bloom.rs:26-65 | a written filter reads back as it was |
| BloomFilter.DecodeBloomExact | src/sstable/bloom.rs:39-65 | an accepted filter block is exactly the encoding of the filter it gives |
| WriteAheadLog.EncodeEntry | src/wal/mod.rs:56-81 | refuses over-long keys and values and deletes with a value, each with its error, and leaves the buffer as it was; else appends the frame byte by byte: checksum of all that follows, operation 1 or 2, lengths, key, value |
| WriteAheadLog.DecodeFrame | src/wal/mod.rs:83-116 | decoding undoes encoding |
| WriteAheadLog.FrameStands | src/wal/mod.rs:56-81 | the frame of an entry is exactly the bytes laid out at these offsets |
| WriteAheadLog.DecodeIffLaid | src/wal/mod.rs:83-116 | on any bytes an entry is decoded exactly where a frame with its checksum is laid out |
| WriteAheadLog.TornIs | src/wal/reader.rs:91-103 | a fragment is torn exactly when fewer than 11 bytes are left or fewer than its header declares |
| WriteAheadLog.Scan | src/wal/reader.rs:84-115 | the loop computes the scan the next rows are about, and never reads out of range |
| WriteAheadLog.TornTail | src/wal/reader.rs:84-115 | any byte prefix of the frames of any entries scans to exactly the longest prefix of entries whose frames fit into it |
| WriteAheadLog.ScanExact | src/wal/reader.rs:84-115 | whatever bytes are accepted are the frames of the returned entries followed by a fragment that ends inside its own frame |
| WriteAheadLog.ScanDecides | src/wal/reader.rs:84-115 | a log is accepted if and only if it is frames and a torn fragment, and refused if and only if it is frames and a whole frame that does not decode |
| WriteAheadLog.CorruptLastFrameIsRefused | src/wal/reader.rs:101-112 | eleven zero bytes behind the frames of any entries are refused, not taken for a torn tail |
| WriteAheadLog.WalWriter.Append | src/wal/writer.rs:27-44 | the file and the buffer together hold all frames; a frame of 8192 bytes or more goes to the file behind what was buffered, one that does not fit behind what is buffered stays alone in the buffer, and otherwise the file is left alone |
| WriteAheadLog.WalWriter.Sync | src/wal/writer.rs:47-51 | the operating system then has every frame |
| Memtables.MemTable.Put | src/memtable/mod.rs:35-45 | sets the key's entry and raises the size estimate by key, value and overhead |
| Memtables.MemTable.Delete | src/memtable/mod.rs:66-76 | sets a tombstone, which hides older layers |
| Memtables.MemTable.Iter | src/memtable/mod.rs:97-102 | gives every entry once, in ascending key order |
| Memtables.ReplayInto | src/wal/reader.rs:60-71 | lays the log's operations over the memtable in order and raises the size estimate for every one of them, or, if the log is corrupt, applies nothing |
| Layers.HistoryStep | src/memtable/mod.rs:35-76 | laying replayed operations over any layers that show a history shows the longer history |
| Layers.SortedRecordsCorrect | src/memtable/mod.rs:97-102 | the sorted records of a memtable are strictly ascending and hold exactly its entries |
| ManifestFile.Manifest.Add | src/manifest.rs:61-68 | the table's level gains exactly this table, behind every smaller number and before the first that is not smaller, and stays ascending if the number is new; levels are added as needed and no other level changes |
| ManifestFile.InsertKeepsOrder | src/manifest.rs:61-68 | adding a new number keeps a level strictly ascending |
| ManifestFile.InsertKeepsTables | src/manifest.rs:61-68 | adding a table keeps every other table and adds just this one |
| ManifestFile.Encode | src/manifest.rs:87-109 | the nested loops write the records level by level |
| ManifestFile.Decode | src/manifest.rs:113-180 | the count-free walk computes the decoding the next rows are about, on any bytes, names that are not UTF-8 refused, and ends |
| ManifestExact.DecodesIff | src/manifest.rs:113-202 | on any bytes: a MANIFEST is accepted, as these levels, if and only if it is the magic and then whole records, exactly those of the levels, ascending in each; everything else is corruption |
| ManifestExact.CutIsRefused | src/manifest.rs:113-202 | a MANIFEST cut short is accepted if and only if the cut falls between two records |
| ManifestFile.MetaStands | src/manifest.rs:7-16 | a record byte by byte: level, number, name, smallest and largest key |
| ManifestFile.ReadMetaIff | src/manifest.rs:117-202 | on any bytes a record is read exactly where one is laid out, and otherwise it is corruption |
| Utf8.IsUtf8Iff | src/manifest.rs:136-138 | a name is accepted if and only if it is the encoding of a sequence of Unicode scalar values |
| ManifestFile.WriteThenRead | src/manifest.rs:87-180 | reading what was written gives the same levels without empty levels at the end |
| ManifestFile.DecodedIsCanonical | src/manifest.rs:113-180 | whatever bytes are accepted, the result has every table in its level, levels ascending, and no empty level at the end |
| ManifestFile.RoundTripIffCanonical | src/manifest.rs:87-180 | writing and reading gives the manifest back if and only if it has that shape |
| ManifestFile.RewriteKeepsManifest | src/manifest.rs:113-180 | rewriting any accepted MANIFEST, even with its records in another order, keeps it |
| Bytes.LeValueOfLe | src/utils/mod.rs:6-34 | reading a little-endian integer undoes writing it |
| Bytes.ReadU64Is | src/utils/mod.rs:6-34 | the integer read is the sum of its bytes times 1, 256, and so on, the first byte the lowest |
| Bytes.LessByFirstDifference | src/sstable/reader.rs:211-225 | keys are ordered by the first byte in which they differ, a proper prefix first |

## Left out

- I/O errors, failed deletes and poisoned locks: an operation succeeds or the process crashes. The
  object's methods return an error only when a table file could be longer than a `u64` can address
  (`Huge`); then the directory is still shown to be recoverable, but using the object further is not
  covered.
- Fairness: `Progress` shows what can happen next in every state, not that a scheduler lets it happen.
- Interleavings of the object's methods: they run one after another; interleavings are covered by the
  machine, in which every method is a stretch of steps.
- KeyValueEngine.LsmEngine.FlushPending: requires that the number it draws is a `u64`; the source wraps
  `next_seq` (src/engine.rs:340), and `Necessity.FlushedAfterLastNumberIsHidden` shows the flushed data
  is then no longer found, so no contract that promises it can hold.
- KeyValueEngine.LsmEngine.Drain: the same requirement for every number it draws, one per immutable.
- KeyValueEngine.LsmEngine.FlushAllPending: the same requirement for every number it draws.
- KeyValueEngine.LsmEngine.Flush: the same requirement, with one number more for the freeze. `Put` and
  `Delete` say how far they raise `nextSeq` and the immutables, so a caller can keep count.
- KeyValueEngine.LsmEngine.WriteMerged: the same requirement for the one number it draws.
- KeyValueEngine.LsmEngine.CompactAllPending: the same requirement for the one number it draws.
- KeyValueEngine.LsmEngine.WorkerRound: the same requirement. The asynchronous runtime, its channel and the
  weak handle are left out; the worker is one more caller of flush and compaction.
- KeyValueEngine.LsmEngine.Put: numbers are unbounded here; the wrap of `next_seq` when a freeze draws
  `u64::MAX` for a log is not modelled.
- KeyValueEngine.LsmEngine.Delete: as `Put`.
- KeyValueEngine.LsmEngine.ApplyAndMaybeFreeze: as `Put`.
- KeyValueEngine.LsmEngine.FreezeActive: as `Put`.
- EngineOpening.OpenWithOptions: the overflow of `max_seq + 1` (src/engine.rs:482) on a directory that
  bears the number `u64::MAX` is not modelled; the model opens it with the next number.
- WriteAheadLog.WalWriter.Append: the buffer holds 8192 bytes and follows the rule the standard library
  documents for `BufWriter`; a library that hands bytes on earlier would only lose less.
- ManifestFile.Decode: the `try_reserve` limits on memory.
- Power loss: missing directory syncs and reordered page writes. Only a crash of the process is modelled.
- The race between a reader and the deletion of a table file that compaction replaced
  (src/engine.rs:223-226): a reader's snapshot keeps the contents of its tables.
- CRC32, the bloom filter's hashing and sizing, and the skip list are parameters or an ordered map; only that
  they are functions is used. Probabilities of false positives are not modelled.
- Parsing of log file names and error texts. Logs are keyed by their number. Temporary files before a
  rename are invisible.
- More than one live engine on a directory.
- The cache of opened readers: every lookup opens the file.
- `Manifest::remove`, `ssts_at`, `bloom_probe` and other accessors nothing else here uses.
