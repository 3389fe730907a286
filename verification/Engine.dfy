/** The engine object (src/engine.rs), over the bytes in its directory.

    Each call is a stretch of steps of the machine: the ghost fields record the state they lead
    to, and `Valid` ties the object's fields and the directory's bytes to that state. */
module KeyValueEngine {
  import opened Outcomes
  import opened Bytes
  import opened Records
  import opened Layers
  import opened BloomFilter
  import opened WriteAheadLog
  import opened Memtables
  import opened ManifestFile
  import opened Machine
  import opened Overlays
  import opened Invariants
  import opened DiskImage
  import opened EngineRuns
  import opened EngineViews
  import Merge
  import TableFormat
  import TableReader

  /** The engine's directory. A log still being written is in its writer's hands, not in `logs`. */
  class Directory {
    var manifest: Option<Bytes>
    var ssts: map<Bytes, Bytes>
    var logs: map<nat, Bytes>

    /** A new, empty directory. */
    constructor ()
      ensures AllFiles() == Files(None, map[], map[])
    {
      manifest, ssts, logs := None, map[], map[];
    }

    function AllFiles(): Files
      reads this
    {
      Files(manifest, ssts, logs)
    }
  }

  /** The user's options, and the bloom filter the library sizes for a number of keys. */
  datatype Options = Options(flushThreshold: nat, compactThreshold: nat, syncPerWrite: bool, newBloom: nat -> Bloom)

  class LsmEngine {
    const dir: Directory
    const crc: Checksum
    const hash: Hash
    const options: Options
    var active: MemTable
    var immutables: seq<PendingImm>
    var levels: LevelList
    var writer: WalWriter
    var walSeq: nat
    var nextSeq: nat
    ghost var origin: Sys
    ghost var steps: seq<Step>
    ghost var sys: Sys

    /** What `open` puts together at its end. */
    constructor (dir: Directory, crc: Checksum, hash: Hash, options: Options, active: MemTable, levels: LevelList,
                 writer: WalWriter, walSeq: nat, ghost s: Sys)
      ensures this.dir == dir && this.crc == crc && this.hash == hash && this.options == options
      ensures this.active == active && immutables == [] && this.levels == levels
      ensures this.writer == writer && this.walSeq == walSeq && nextSeq == walSeq + 1
      ensures origin == s && steps == StepsOfOpen(s) && sys == OpenedState(s)
    {
      this.dir, this.crc, this.hash, this.options := dir, crc, hash, options;
      this.active, immutables, this.levels := active, [], levels;
      this.writer, this.walSeq, nextSeq := writer, walSeq, walSeq + 1;
      origin, steps, sys := s, StepsOfOpen(s), OpenedState(s);
    }

    ghost function View(): Fields
      reads this, dir, active, writer
    {
      Fields(active.entries, immutables, levels, walSeq, nextSeq, writer.entries,
             Files(dir.manifest, dir.ssts, dir.logs[walSeq := writer.file]))
    }

    /** The engine is up, and its fields and files stand for the machine's state. */
    ghost predicate Kept()
      reads this, dir, active, writer
    {
      && Reached(origin, steps, sys)
      && writer.Valid() && writer.crc == crc && (forall n :: Usable(options.newBloom(n)))
      && Views(View(), sys, crc, hash)
    }

    /** No call is under way. */
    ghost predicate Valid()
      reads this, dir, active, writer
    {
      Kept() && sys.mode.e.writer.Idle? && sys.mode.e.flusher.Free?
    }

    /** Whatever became of the call, the directory is that of a reachable state: a crash now
        leaves a prefix of the history, with everything durable in it. */
    ghost predicate Safe()
      reads this, dir, writer
    {
      Reached(origin, steps, sys)
      && LiveImage(Files(dir.manifest, dir.ssts, dir.logs[walSeq := writer.file]), sys.disk, crc, hash)
    }

    /** The logged operations so far. */
    ghost function Hist(): seq<WalEntry>
      reads this
    {
      sys.hist
    }

    /** The simple object the engine stands for. */
    ghost function Map(): UserMap
      reads this
    {
      History(sys.hist)
    }

    /** How many operations survive any crash of the process. */
    ghost function Durables(): int
      reads this
    {
      Durable(sys)
    }

    // ---- Writing ----

    /** Everything the writer holds goes to the operating system. */
    method SyncLog()
      requires Kept()
      modifies `steps, `sys, writer`file, writer`buffered
      ensures Kept() && old(steps) <= steps && Hist() == old(Hist()) && Durables() == |Hist()|
      ensures sys.mode == old(sys.mode) && writer.buffered == []
    {
      hide RunInv, DownInv, Inv, Leads, Views, Frames, Durable, ImmsMatch, LevelsMatch, LiveImage, HeapApart, MemIn;
      Running(origin, steps, sys);
      ViewFacts(View(), sys, crc, hash);
      SyncRuns(origin, steps, sys);
      ghost var before := View();
      SyncViews(before, sys, crc, hash);
      writer.Sync();
      Overwritten(dir.logs, walSeq, old(writer.file), writer.file);
      steps, sys := steps + [Persist(|sys.disk.wals[sys.mode.e.walSeq].entries|)], SyncState(sys);
    }

    method AppendToLog(op: WalOp, key: Bytes, value: Bytes) returns (r: Result<()>)
      requires Valid()
      modifies `steps, `sys, writer
      ensures r == EncodeOutcome(op, key, value)
      ensures r.Err? ==> unchanged(this) && unchanged(writer)
      ensures r.Ok? ==> Kept() && old(steps) <= steps && sys.mode.e.writer.Appended? && sys.mode.e.flusher.Free?
      ensures r.Ok? ==> Hist() == old(Hist()) + [WalEntry(op, key, value)]
      ensures r.Ok? && options.syncPerWrite ==> Durables() == |Hist()|
      ensures r.Ok? ==> (writer.buffered == [] <==>
                options.syncPerWrite || HEADER_LEN + |key| + |value| >= BUFFER_CAPACITY)
    {
      hide RunInv, DownInv, Inv, Leads, Views, Frames, Durable, Frame, ImmsMatch;
      hide LevelsMatch, LiveImage, HeapApart, MemIn, DoAppend, EncodeOutcome;
      ghost var before, entry := View(), WalEntry(op, key, value);
      r := writer.Append(op, key, value);
      if r.Err? { return; }
      FramableEntry(entry);
      Running(origin, steps, sys);
      ViewFacts(before, sys, crc, hash);
      AppendRuns(origin, steps, sys, entry);
      AppendEffect(sys, entry);
      AppendViews(before, sys, entry, writer.file, crc, hash);
      Overwritten(dir.logs, walSeq, old(writer.file), writer.file);
      steps, sys := steps + [Step.Append(entry)], DoAppend(sys, entry);
      if options.syncPerWrite { SyncLog(); }
    }

    /** Whether a write of `key` and `value` leaves nothing in the log writer's buffer: it is
        synced, or freezes the memtable, or its frame is too large for the buffer. */
    predicate WritesThrough(key: Bytes, value: Bytes)
      reads this, active
    {
      || options.syncPerWrite || Freezes(key, value)
      || HEADER_LEN + |key| + |value| >= BUFFER_CAPACITY
    }

    /** Whether applying a write of `key` and `value` brings the memtable to the flush threshold. */
    predicate Freezes(key: Bytes, value: Bytes)
      reads this, active
    {
      options.flushThreshold > 0 && active.approximateSize + |key| + |value| + ENTRY_OVERHEAD >= options.flushThreshold
    }

    /** After this `key` maps to `value`, whatever was there. */
    method Put(key: Bytes, value: Bytes) returns (r: Result<()>)
      requires Valid()
      modifies this, dir, active, writer
      ensures Valid() && origin == old(origin) && old(steps) <= steps && fresh({active, writer} - old({active, writer}))
      ensures r == EncodeOutcome(WalOp.Put, key, value)
      ensures Hist() == if r.Ok? then old(Hist()) + [WalEntry(WalOp.Put, key, value)] else old(Hist())
      ensures Map() == if r.Ok? then old(Map())[key := value] else old(Map())
      ensures r.Ok? && options.syncPerWrite ==> Durables() == |Hist()|
      ensures r.Ok? ==> (writer.buffered == [] <==> old(WritesThrough(key, value)))
      ensures r.Ok? ==> Wrote(old(View()), View(), key, Entry(value, false), old(Freezes(key, value)))
      ensures r.Ok? ==> active.approximateSize ==
                        if old(Freezes(key, value)) then 0 else old(active.approximateSize) + |key| + |value| + 64
      ensures nextSeq <= old(nextSeq) + 1 && |immutables| <= |old(immutables)| + 1
      ensures r.Err? ==> View() == old(View())
    {
      hide RunInv, DownInv, Inv, Leads, Views, Durable, Kept;
      r := AppendToLog(WalOp.Put, key, value);
      if r.Err? { return; }
      HistorySnoc(old(Hist()), WalEntry(WalOp.Put, key, value));
      var froze := ApplyAndMaybeFreeze(key, value, false);
    }

    /** After this `key` maps to nothing: the newest entry of every layer that has one is hidden. */
    method Delete(key: Bytes) returns (r: Result<()>)
      requires Valid()
      modifies this, dir, active, writer
      ensures Valid() && origin == old(origin) && old(steps) <= steps && fresh({active, writer} - old({active, writer}))
      ensures r == EncodeOutcome(WalOp.Delete, key, [])
      ensures Hist() == if r.Ok? then old(Hist()) + [WalEntry(WalOp.Delete, key, [])] else old(Hist())
      ensures Map() == if r.Ok? then old(Map()) - {key} else old(Map())
      ensures r.Ok? && options.syncPerWrite ==> Durables() == |Hist()|
      ensures r.Ok? ==> (writer.buffered == [] <==> old(WritesThrough(key, [])))
      ensures r.Ok? ==> Wrote(old(View()), View(), key, Entry([], true), old(Freezes(key, [])))
      ensures r.Ok? ==> active.approximateSize ==
                        if old(Freezes(key, [])) then 0 else old(active.approximateSize) + |key| + 64
      ensures nextSeq <= old(nextSeq) + 1 && |immutables| <= |old(immutables)| + 1
      ensures r.Err? ==> View() == old(View())
    {
      hide RunInv, DownInv, Inv, Leads, Views, Durable, Kept;
      r := AppendToLog(WalOp.Delete, key, []);
      if r.Err? { return; }
      HistorySnoc(old(Hist()), WalEntry(WalOp.Delete, key, []));
      var froze := ApplyAndMaybeFreeze(key, [], true);
    }

    /** Applies the operation just logged, and freezes the memtable once it is large enough. */
    method ApplyAndMaybeFreeze(key: Bytes, value: Bytes, deleted: bool) returns (froze: bool)
      requires Kept() && sys.mode.e.writer.Appended? && sys.mode.e.flusher.Free?
      requires deleted ==> value == []
      requires Hist() != [] && Hist()[|Hist()| - 1] == WalEntry(if deleted then WalOp.Delete else WalOp.Put, key, value)
      modifies this, dir, active
      ensures Valid() && origin == old(origin) && old(steps) <= steps && Hist() == old(Hist())
      ensures if froze then fresh(active) && fresh(writer) else active == old(active) && writer == old(writer)
      ensures froze <==> old(Freezes(key, value))
      ensures froze <==> options.flushThreshold > 0
                         && old(active.approximateSize) + |key| + |value| + 64 >= options.flushThreshold
      ensures froze ==> writer.buffered == []
      ensures Wrote(old(View()), View(), key, Entry(value, deleted), froze)
      ensures active.approximateSize == if froze then 0 else old(active.approximateSize) + |key| + |value| + 64
      ensures nextSeq <= old(nextSeq) + 1 && |immutables| <= |old(immutables)| + 1
      ensures old(Durables()) == |Hist()| ==> Durables() == |Hist()|
    {
      hide RunInv, DownInv, Inv, Leads, Views, Durable, DoApply, ImmsMatch;
      hide LevelsMatch, LiveImage, HeapApart, MemIn, FreezeState, FrozenFields, Reached, Usable, WalWriter.Valid;
      ghost var before := View();
      Running(origin, steps, sys);
      ViewFacts(before, sys, crc, hash);
      ApplyRuns(origin, steps, sys);
      ApplyViews(before, sys, crc, hash);
      ApplyEffect(sys);
      if deleted {
        active.Delete(key);
      } else {
        active.Put(key, value);
      }
      steps, sys := steps + [Apply], DoApply(sys);
      assert key in active.entries;
      froze := false;
      ghost var applied := View();
      if options.flushThreshold > 0 && active.approximateSize >= options.flushThreshold {
        froze := FreezeActive();
        FrozenWrote(before, applied, key, Entry(value, deleted), crc);
      }
    }

    /** Rotates the active memtable into the immutables and starts a fresh memtable and log. */
    method FreezeActive() returns (froze: bool)
      requires Valid()
      modifies this, dir
      ensures froze <==> old(active.entries) != map[]
      ensures !froze ==> unchanged(this) && unchanged(dir)
      ensures froze ==> fresh(active) && fresh(writer) && View() == FrozenFields(old(View()), crc)
      ensures Valid() && origin == old(origin) && old(steps) <= steps && Hist() == old(Hist())
      ensures froze ==> Durables() == |Hist()| && writer.buffered == []
      ensures froze ==> nextSeq == old(nextSeq) + 1 && |immutables| == |old(immutables)| + 1
      ensures froze ==> active.approximateSize == 0
      ensures sys.mode.Runs? && old(sys.mode.e.levels) == sys.mode.e.levels
    {
      hide RunInv, DownInv, Inv, Leads, Views, Frames;
      hide Durable, FreezeState, ImmsMatch, LevelsMatch, LiveImage, HeapApart;
      hide MemIn, Reached, Usable, AllFramable;
      ghost var before := View();
      Running(origin, steps, sys);
      ViewFacts(before, sys, crc, hash);
      var isEmpty := active.IsEmpty();
      if isEmpty { return false; }
      FreezeRuns(origin, steps, sys);
      FreezeViews(before, sys, crc, hash);
      FreezeEffect(sys);
      Overwritten(dir.logs, walSeq, writer.file, writer.file + writer.buffered);
      // Rotate the log first: a failure to create it leaves the engine's state untouched.
      var newSeq := nextSeq;
      nextSeq := nextSeq + 1;
      var newWriter := new WalWriter(crc);
      var cur := active;
      active := new MemTable();
      immutables := immutables + [PendingImm(cur.entries, walSeq)];
      // Replacing the writer drops the old one, which hands its buffer to the operating system.
      dir.logs := dir.logs[walSeq := writer.file + writer.buffered];
      writer, walSeq := newWriter, newSeq;
      steps, sys := steps + [FreezeCreate] + [FreezeSwap] + [FreezeSwitch], FreezeState(sys);
      froze := true;
    }

    // ---- Reading ----

    /** The current value of `key`: active memtable, immutables newest first, then table by table,
        newest first within a level; the first entry found decides, a tombstone included. */
    method Get(key: Bytes) returns (r: Result<Option<Bytes>>)
      requires Valid()
      ensures r == Ok(Find(Map(), key))
    {
      hide Views, Search, SearchMem, SearchMems, SearchTables, Lookup, Less, RunInv, Leads, OrElse, Unwrap;
      hide FileName, TableFile, LevelOf, SearchFrom, LevelsMatch, ImmsMatch, LiveImage, HeapApart, MemIn, History;
      hide WalWriter.Valid, Usable, TableReader.LinearSearch, Find, OutOfRange;
      ghost var e, answer := sys.mode.e, Find(Map(), key);
      ghost var below := SearchFrom(e.levels, 0, key);
      Running(origin, steps, sys);
      LookupNow(sys, key);
      ViewFacts(View(), sys, crc, hash);
      ActiveDecides(e.heap, e.activeGen, OrElse(SearchMems(e.heap, e.imms, key), below), key);
      var entry := active.GetEntry(key);
      if entry.Some? { return Ok(Unwrap(entry)); }
      assert e.imms[..|immutables|] == e.imms;
      for i := |immutables| downto 0
        invariant answer == Unwrap(OrElse(SearchMems(e.heap, e.imms[..i], key), below))
      {
        ImmAt(immutables, e, i);
        MemDecides(e.heap, e.imms, i, below, key);
        if key in immutables[i].mem { return Ok(Unwrap(Some(immutables[i].mem[key]))); }
      }
      NoMems(e.heap, below, key);
      LevelSizes(levels, e.levels, 0);
      for l := 0 to |levels|
        invariant answer == Unwrap(SearchFrom(e.levels, l, key))
      {
        ghost var ts := LevelOf(e.levels, l);
        below := SearchFrom(e.levels, l + 1, key);
        LevelStart(levels, e.levels, l, key);
        for i := |levels[l]| downto 0
          invariant answer == Unwrap(OrElse(SearchTables(ts[..i], key), below))
        {
          var meta := levels[l][i];
          MetaAt(levels, e.levels, l, i);
          TableDecides(ts, i, below, key);
          RangeIs(ts[i].meta, key);
          if Less(key, meta.min) || Less(meta.max, key) { continue; }
          FileOf(View(), sys, l, i, crc, hash);
          var found := LookupFile(dir.ssts[meta.name], hash, key, ts[i].records);
          match found.value {
            case Some(Present(value)) =>
              assert answer == Some(value);
              return Ok(Some(value));
            case Some(Deleted) =>
              assert answer == None;
              return Ok(None);
            case None =>
          }
        }
        NoTables(below, key);
      }
      LevelsDone(levels, e.levels, key);
      r := Ok(None);
    }

    // ---- Flushing ----

    /** The file of these records might be longer than a `u64` can address. */
    ghost predicate Huge(records: seq<Record>) {
      TableFormat.SizeBound(records, options.newBloom(|records|)) > U64_MAX
    }

    ghost predicate SomeHuge(imms: seq<PendingImm>) {
      exists p :: p in imms && Huge(SortedRecords(p.mem))
    }

    /** Builds a table file under its name; nothing is left behind when that fails. */
    method WriteTable(level: nat, seqno: nat, records: seq<Record>) returns (r: Result<SstMeta>)
      requires records != [] && TableOk(TableFrom(seqno, records)) && forall n :: Usable(options.newBloom(n))
      modifies dir`ssts
      ensures r.Err? ==> r.error == Io && dir.ssts == old(dir.ssts) && Huge(records)
      ensures r.Ok? ==> r.value == MetaOf(level, TableFrom(seqno, records))
                        && r.value.name == FileName(Name(level, seqno))
                        && r.value.name in dir.ssts
                        && TableFile(dir.ssts[r.value.name], records, hash)
                        && dir.ssts == old(dir.ssts)[r.value.name := dir.ssts[r.value.name]]
      ensures r.Ok? ==> exists blocks ::
                PackedFile(dir.ssts[r.value.name], blocks, records, options.newBloom(|records|), hash)
    {
      hide TableFile, FileName, Usable, PackedFile, TableFormat.SizeBound;
      var built, min, max := BuildTable(records, options.newBloom(|records|), hash);
      if built.Err? { return Err(built.error); }
      var name := FileName(Name(level, seqno));
      dir.ssts := dir.ssts[name := built.value];
      r := Ok(SstMeta(level, seqno, name, min, max));
    }

    /** Under the state lock: the table joins level 0 and its immutable goes, in one move. */
    method CommitTable(meta: SstMeta, walSeq: nat)
      modifies `levels, `immutables
      ensures levels != [] && PutInPlace(old(LevelAt(levels, 0)), meta, levels[0])
      ensures (forall t :: t in old(LevelAt(levels, 0)) ==> t.seqno < meta.seqno) ==>
                levels[0] == old(LevelAt(levels, 0)) + [meta]
      ensures levels[1..] == if old(levels) == [] then [] else old(levels)[1..]
      ensures LosesOnly(old(immutables), walSeq, immutables)
      ensures levels == CommitTo(old(levels), meta) && immutables == Retain(old(immutables), walSeq)
    {
      hide InsertMeta, Retain, PutInPlace, LosesOnly;
      CommitPutsInPlace(levels, meta);
      RetainLosesOnly(immutables, walSeq);
      if levels == [] {
        levels := [[]];
      }
      levels := levels[0 := InsertMeta(levels[0], meta)];
      immutables := Retain(immutables, walSeq);
    }

    /** Writes the oldest immutable out as a level-0 table, then commits it: the table joins the
        levels and the immutable goes away. */
    method FlushPending(pending: PendingImm) returns (r: Result<()>)
      requires Kept() && sys.mode.e.writer.Idle? && sys.mode.e.flusher.Draining?
      requires immutables != [] && pending == immutables[0] && nextSeq <= U64_MAX
      modifies `immutables, `levels, `nextSeq, `steps, `sys, dir`ssts
      ensures old(steps) <= steps && Hist() == old(Hist())
      ensures r.Err? ==> r.error == Io && Safe() && Huge(SortedRecords(pending.mem))
      ensures r.Ok? ==> Kept() && immutables == old(immutables)[1..] && nextSeq == old(nextSeq) + 1
      ensures r.Ok? ==> var lv := old(sys.mode.e.levels);
                        sys.mode.e.levels == lv.(l0 := lv.l0 + [TableOf(old(nextSeq), pending.mem)])
      ensures r.Ok? ==> sys.mode.e.writer.Idle? && sys.mode.e.below == old(sys.mode.e.below)
      ensures r.Ok? ==> sys.mode.e.flusher == Draining(old(sys.mode.e.flusher.flushed) + [pending.walSeq],
                old(sys.mode.e.flusher.target))
    {
      hide RunInv, DownInv, Inv, Leads, Views, Durable;
      hide ImmsMatch, LevelsMatch, LiveImage, HeapApart, MemIn, FlushOneState;
      hide SortedRecords, TableOk, TableFile, FileName, SeqnosBelow, TableFrom;
      hide Usable, CommitTo, Retain, MetaOf, NextTable, Reached, WalWriter.Valid, PutInPlace, LosesOnly, LevelAt;
      hide TableOf, PackedFile, Huge;
      ghost var before := View();
      Running(origin, steps, sys);
      ViewFacts(before, sys, crc, hash);
      ImmAt(immutables, sys.mode.e, 0);
      NextTableOk(sys);
      FlushOneRuns(origin, steps, sys);
      FlushOneEffect(sys);
      FlushOneLevels(sys);
      var sstSeq := nextSeq;
      nextSeq := nextSeq + 1;
      var written := WriteTable(0, sstSeq, SortedRecords(pending.mem));
      if written.Err? { return Err(written.error); }
      FlushOneViews(before, sys, dir.ssts[written.value.name], crc, hash);
      RetainNext(immutables, sys.mode.e);
      CommitTable(written.value, pending.walSeq);
      assert View() == FlushedFields(before, NextTable(sys), dir.ssts[written.value.name]);
      steps, sys := steps + [FlushBuild] + [FlushCommit], FlushOneState(sys);
      r := Ok(());
    }

    /** Rebuilds the MANIFEST from the levels and replaces the file. */
    method WriteManifest()
      requires Named(levels) && LevelListOk(levels)
      modifies dir`manifest
      ensures dir.manifest == Some(ManifestBytes(levels))
    {
      hide LevelListOk, Named, ManifestBytes;
      var m := RebuildManifest(levels);
      TrimFits(levels);
      TrimKeepsBytes(levels);
      var bytes := Encode(m.levels);
      dir.manifest := Some(bytes);
    }

    /** Flushes immutable after immutable, in freeze order, until none is left. */
    method Drain() returns (r: Result<seq<nat>>)
      requires Kept() && sys.mode.e.writer.Idle? && sys.mode.e.flusher.Draining? && sys.mode.e.flusher.flushed == []
      requires nextSeq + |immutables| <= U64_MAX + 1
      modifies `immutables, `levels, `nextSeq, `steps, `sys, dir`ssts
      ensures old(steps) <= steps && Hist() == old(Hist())
      ensures r.Err? ==> r.error == Io && Safe() && SomeHuge(old(immutables))
      ensures r.Ok? ==> Kept() && immutables == [] && sys.mode.e.writer.Idle?
                        && sys.mode.e.below == old(sys.mode.e.below)
      ensures r.Ok? ==> r.value == GensOf(old(immutables))
      ensures r.Ok? ==> sys.mode.e.levels ==
                        FlushedLevels(old(sys.mode.e.levels), old(immutables), old(nextSeq))
      ensures r.Ok? ==> nextSeq == old(nextSeq) + |old(immutables)|
      ensures r.Ok? ==> sys.mode.e.flusher == Draining(r.value, old(sys.mode.e.flusher.target))
    {
      hide RunInv, DownInv, Inv, Leads, Views, LiveImage, FlushedLevels, GensOf, TableOf, Huge, SortedRecords;
      var flushed: seq<nat> := [];
      NoGens(GensOf(immutables));
      while immutables != []
        invariant Kept() && sys.mode.e.writer.Idle? && old(steps) <= steps && Hist() == old(Hist())
        invariant sys.mode.e.below == old(sys.mode.e.below)
        invariant sys.mode.e.flusher == Draining(flushed, old(sys.mode.e.flusher.target))
        invariant nextSeq + |immutables| == old(nextSeq) + |old(immutables)|
        invariant forall p :: p in immutables ==> p in old(immutables)
        invariant flushed + GensOf(immutables) == GensOf(old(immutables))
        invariant FlushedLevels(sys.mode.e.levels, immutables, nextSeq) ==
                  FlushedLevels(old(sys.mode.e.levels), old(immutables), old(nextSeq))
        decreases |immutables|
      {
        var pending := immutables[0];
        FlushedNext(sys.mode.e.levels, immutables, nextSeq);
        GensNext(flushed, immutables);
        var committed := FlushPending(pending);
        if committed.Err? { return Err(committed.error); }
        flushed := flushed + [pending.walSeq];
      }
      NoneFlushed(sys.mode.e.levels, nextSeq);
      NoGens(flushed);
      r := Ok(flushed);
    }

    /** Drains the immutables, lists the new tables, then deletes the logs they make redundant. */
    method FlushAllPending() returns (r: Result<()>)
      requires Valid() && nextSeq + |immutables| <= U64_MAX + 1
      modifies `immutables, `levels, `nextSeq, `steps, `sys, dir
      ensures old(steps) <= steps && Hist() == old(Hist())
      ensures r.Err? ==> r.error == Io && Safe() && SomeHuge(old(immutables))
      ensures r.Ok? ==> Valid() && immutables == [] && sys.listedTo == old(sys.mode.e.below) == sys.mode.e.below
      ensures r.Ok? ==> sys.mode.e.levels ==
                        FlushedLevels(old(sys.mode.e.levels), old(immutables), old(nextSeq))
      ensures r.Ok? ==> nextSeq == old(nextSeq) + |old(immutables)| && View().files.logs.Keys == {walSeq}
    {
      hide RunInv, DownInv, Inv, Leads, Views, Durable, ImmsMatch, LevelsMatch, LiveImage, HeapApart, MemIn, ListState;
      hide FlushedLevels, GensOf, TableOf, Huge, SomeHuge;
      AcquireRuns(origin, steps, sys);
      FlusherViews(View(), sys, Draining([], sys.mode.e.below), sys.listedTo, crc, hash);
      steps, sys := steps + [FlushAcquire], DoFlushAcquire(sys);
      var drained := Drain();
      if drained.Err? { return Err(drained.error); }
      var flushed := drained.value;
      Running(origin, steps, sys);
      ViewFacts(View(), sys, crc, hash);
      if flushed == [] {
        NothingDrainedRuns(origin, steps, sys);
        FlusherViews(View(), sys, Free, sys.mode.e.below, crc, hash);
        steps, sys := steps + [FlushDrained], sys.(listedTo := sys.mode.e.below,
            mode := Runs(sys.mode.e.(flusher := Free)));
        Running(origin, steps, sys);
        OneLogLeft(View(), sys, crc, hash);
        return Ok(());
      }
      ListEffect(sys);
      ListTables();
      DeleteLogs(flushed);
      Running(origin, steps, sys);
      OneLogLeft(View(), sys, crc, hash);
      r := Ok(());
    }

    /** Deletes the logs of the generations whose tables are listed now. */
    method DeleteLogs(flushed: seq<nat>)
      requires Kept() && sys.mode.e.flusher.Deleting? && sys.mode.e.flusher.flushed == flushed
      modifies `steps, `sys, dir`logs
      ensures Kept() && old(steps) <= steps && Hist() == old(Hist())
      ensures sys.mode.e.flusher.Free? && sys.mode.e.writer == old(sys.mode.e.writer)
      ensures sys.listedTo == old(sys.listedTo) && sys.mode.e.below == old(sys.mode.e.below)
      ensures sys.mode.e.levels == old(sys.mode.e.levels)
    {
      hide RunInv, DownInv, Inv, Leads, Views, LiveImage;
      assert flushed[0..] == flushed;
      for i := 0 to |flushed|
        invariant Kept() && old(steps) <= steps && Hist() == old(Hist()) && sys.mode.e.writer == old(sys.mode.e.writer)
        invariant sys.mode.e.below == old(sys.mode.e.below) && sys.listedTo == old(sys.listedTo)
        invariant sys.mode.e.levels == old(sys.mode.e.levels)
        invariant sys.mode.e.flusher.Deleting? && sys.mode.e.flusher.flushed == flushed[i..]
      {
        DeleteLog(flushed[i]);
      }
      ReleaseRuns(origin, steps, sys);
      FlusherViews(View(), sys, Free, sys.listedTo, crc, hash);
      steps, sys := steps + [FlushRelease], SetFlusher(sys, Free);
    }

    /** Lists the tables of the drained immutables. */
    method ListTables()
      requires Kept() && sys.mode.e.flusher.Draining? && sys.mode.e.flusher.flushed != [] && immutables == []
      modifies `steps, `sys, dir`manifest
      ensures Kept() && old(steps) <= steps && sys == ListState(old(sys))
    {
      hide RunInv, DownInv, Inv, Leads, Views, Durable, ImmsMatch;
      hide LevelsMatch, LiveImage, HeapApart, MemIn, ListState, ManifestBytes;
      Running(origin, steps, sys);
      ViewFacts(View(), sys, crc, hash);
      ListRuns(origin, steps, sys);
      ListViews(View(), sys, crc, hash);
      ListEffect(sys);
      LevelsListable(levels, sys.mode.e.levels);
      WriteManifest();
      steps, sys := steps + [FlushDrained] + [FlushManifest], ListState(sys);
    }

    /** Deletes the log of a generation whose table the MANIFEST lists. */
    method DeleteLog(gen: nat)
      requires Kept() && sys.mode.e.flusher.Deleting? && sys.mode.e.flusher.flushed != []
               && sys.mode.e.flusher.flushed[0] == gen
      modifies `steps, `sys, dir`logs
      ensures Kept() && old(steps) <= steps && sys == DoFlushDelete(old(sys))
    {
      hide RunInv, DownInv, Inv, Leads, Views, Durable, ImmsMatch, LevelsMatch, LiveImage, HeapApart, MemIn;
      ghost var before := View();
      Running(origin, steps, sys);
      ViewFacts(before, sys, crc, hash);
      DeleteRuns(origin, steps, sys);
      DropLogViews(before, sys, crc, hash);
      dir.logs := dir.logs - {gen};
      assert dir.logs[walSeq := writer.file] == before.files.logs - {gen};
      steps, sys := steps + [FlushDelete], DoFlushDelete(sys);
    }

    /** The memtables a flush of everything writes out, the active one last if anything is in it. */
    ghost function Unflushed(): seq<PendingImm>
      reads this, active
    {
      if active.entries == map[] then immutables else immutables + [PendingImm(active.entries, walSeq)]
    }

    /** Syncs and freezes what is in memory, and drains everything into listed tables: afterwards
        the tables of the MANIFEST alone hold every operation. */
    method Flush() returns (r: Result<()>)
      requires Valid() && nextSeq + |immutables| + 1 <= U64_MAX
      modifies this, dir, writer
      ensures origin == old(origin) && old(steps) <= steps && Hist() == old(Hist())
      ensures r.Err? ==> r.error == Io && Safe() && SomeHuge(old(Unflushed()))
      ensures r.Ok? ==> Valid() && immutables == [] && active.entries == map[] && Durables() == |Hist()|
      ensures r.Ok? ==> sys.mode.e.levels == FlushedLevels(old(sys.mode.e.levels), old(Unflushed()),
                                               old(nextSeq) + if old(active.entries) == map[] then 0 else 1)
      ensures r.Ok? ==> active.approximateSize ==
                        if old(active.entries) == map[] then old(active.approximateSize) else 0
      ensures r.Ok? ==> View().files.logs.Keys == {walSeq}
      ensures r.Ok? ==> ManifestPresent(sys.disk.manifest, sys.disk.ssts)
                        && Live(ListedMem(sys.disk.manifest, sys.disk.ssts)) == Map()
      ensures r.Ok? ==> fresh({active, writer} - old({active, writer}))
    {
      hide RunInv, DownInv, Inv, Leads, Views, Durable, ImmsMatch, LevelsMatch, LiveImage, HeapApart, MemIn;
      hide FlushedLevels, SomeHuge, WalWriter.Valid, Usable;
      SyncLog();
      var froze := FreezeActive();
      Running(origin, steps, sys);
      ViewFacts(View(), sys, crc, hash);
      NothingBelow(sys);
      r := FlushAllPending();
      if r.Ok? {
        Running(origin, steps, sys);
        ListedShowsAll(sys);
      }
    }

    // ---- Compacting ----

    /** Every table of levels 0 and 1, level 0 first. */
    method Inputs() returns (inputs: seq<SstMeta>)
      requires Kept()
      ensures inputs == AllMetas(levels)
    {
      hide RunInv, DownInv, Inv, Leads, Views;
      Running(origin, steps, sys);
      ViewFacts(View(), sys, crc, hash);
      LevelSizes(levels, sys.mode.e.levels, 0);
      inputs := [];
      for l := 0 to 2
        invariant inputs == if l == 0 then [] else if l == 1 then LevelAt(levels, 0) else AllMetas(levels)
      {
        if l < |levels| {
          inputs := inputs + levels[l];
        }
      }
    }

    /** Scans each input table. */
    method ReadRuns(inputs: seq<SstMeta>) returns (runs: seq<Merge.Run>)
      requires Kept() && inputs == AllMetas(levels)
      ensures runs == RunsOf(sys.mode.e.levels.l0 + sys.mode.e.levels.l1)
    {
      hide RunInv, DownInv, Inv, Leads, Views, LevelsMatch, LiveImage, HeapApart, ImmsMatch, MemIn, TableFile;
      ghost var ts := sys.mode.e.levels.l0 + sys.mode.e.levels.l1;
      Running(origin, steps, sys);
      ViewFacts(View(), sys, crc, hash);
      runs := [];
      InputCount(levels, sys.mode.e.levels);
      for i := 0 to |inputs|
        invariant runs == RunsOf(ts)[..i]
      {
        InputFile(View(), sys, i, crc, hash);
        var records := ScanFile(dir.ssts[inputs[i].name], hash, ts[i].records);
        runs := runs + [Merge.Run(inputs[i].seqno, records.value)];
      }
      assert RunsOf(ts)[..|ts|] == RunsOf(ts);
    }

    method MergeInputs(inputs: seq<SstMeta>) returns (merged: seq<Record>)
      requires Kept() && inputs == AllMetas(levels)
      ensures Merge.IsMerge(RunsOf(sys.mode.e.levels.l0 + sys.mode.e.levels.l1), merged)
    {
      hide RunInv, DownInv, Inv, Leads, Views;
      var runs := ReadRuns(inputs);
      Running(origin, steps, sys);
      InputsMergeable(sys);
      merged := Merge.MergeRuns(runs);
    }

    ghost predicate SomeMergeHuge(lv: Levels<Table>) {
      exists out :: Merge.IsMerge(RunsOf(lv.l0 + lv.l1), out) && Huge(out)
    }

    lemma MergeHuge(lv: Levels<Table>, out: seq<Record>)
      requires Merge.IsMerge(RunsOf(lv.l0 + lv.l1), out) && Huge(out)
      ensures SomeMergeHuge(lv)
    {
    }

    /** Merges every table of levels 0 and 1 into one level-1 table without tombstones, lists it
        alone, then deletes the inputs. Nothing to do while level 0 is empty. */
    method CompactAllPending() returns (r: Result<()>)
      requires Valid() && nextSeq <= U64_MAX
      modifies `levels, `nextSeq, `steps, `sys, dir
      ensures old(steps) <= steps && Hist() == old(Hist())
      ensures r.Err? ==> r.error == Io && Safe()
      ensures r.Err? ==> SomeMergeHuge(old(sys.mode.e.levels))
      ensures r.Ok? ==> Valid()
      ensures r.Ok? ==> if old(LevelAt(levels, 0)) == [] then unchanged(this) && unchanged(dir)
                        else Compacted(old(sys.mode.e.levels), old(nextSeq), sys.mode.e.levels)
      ensures r.Ok? && old(LevelAt(levels, 0)) != [] ==> forall m :: m in old(AllMetas(levels)) ==> m.name !in dir.ssts
    {
      hide RunInv, DownInv, Inv, Leads, Views, Durable, ImmsMatch, LevelsMatch;
      hide LiveImage, HeapApart, MemIn, DoCompactMerge, ReplaceState;
      hide Merge.IsMerge, FileName, StaleNames, AllMetas, MetaOf, Huge, SomeMergeHuge, WalWriter.Valid, Usable;
      if levels == [] || levels[0] == [] { return Ok(()); }
      ghost var before := sys.mode.e;
      Running(origin, steps, sys);
      ViewFacts(View(), sys, crc, hash);
      Level0Filled(levels, sys.mode.e.levels);
      var inputs := Inputs();
      var merged := MergeInputs(inputs);
      if Huge(merged) { MergeHuge(before.levels, merged); }
      var output :- WriteMerged(merged);
      InputNames(levels, before.levels);
      ReplaceEffect(sys);
      Replace(output);
      DeleteTables(inputs);
      assert Compacted(before.levels, before.nextSeq, sys.mode.e.levels);
      r := Ok(());
    }

    /** Deletes the inputs of a compaction, whose output alone is listed now. */
    method DeleteTables(inputs: seq<SstMeta>)
      requires Kept() && sys.mode.e.flusher.Purging? && StaleNames(sys.mode.e.flusher.stale, inputs)
      modifies `steps, `sys, dir`ssts
      ensures Kept() && old(steps) <= steps && Hist() == old(Hist())
      ensures sys.mode.e.writer == old(sys.mode.e.writer) && sys.mode.e.flusher.Free?
      ensures sys.mode.e.levels == old(sys.mode.e.levels) && forall m :: m in inputs ==> m.name !in dir.ssts
    {
      hide RunInv, DownInv, Inv, Leads, Views, LiveImage, FileName;
      assert inputs[0..] == inputs;
      for i := 0 to |inputs|
        invariant Kept() && old(steps) <= steps && Hist() == old(Hist()) && sys.mode.e.writer == old(sys.mode.e.writer)
        invariant sys.mode.e.flusher.Purging? && StaleNames(sys.mode.e.flusher.stale, inputs[i..])
        invariant sys.mode.e.levels == old(sys.mode.e.levels) && forall j :: 0 <= j < i ==> inputs[j].name !in dir.ssts
      {
        DeleteTable(inputs[i].name);
      }
      PurgedRuns(origin, steps, sys);
      FlusherViews(View(), sys, Free, sys.listedTo, crc, hash);
      steps, sys := steps + [CompactRelease], SetFlusher(sys, Free);
    }

    /** Writes the merged table, unless nothing survived the merge. */
    method WriteMerged(merged: seq<Record>) returns (r: Result<Option<SstMeta>>)
      requires Valid() && nextSeq <= U64_MAX && sys.mode.e.levels.l0 != []
      requires Merge.IsMerge(RunsOf(sys.mode.e.levels.l0 + sys.mode.e.levels.l1), merged)
      modifies `nextSeq, `steps, `sys, dir`ssts
      ensures old(steps) <= steps && Hist() == old(Hist())
      ensures r.Err? ==> r.error == Io && Safe() && Huge(merged)
      ensures r.Ok? ==> Kept() && sys.mode.e.writer.Idle? && sys.mode.e.levels == old(sys.mode.e.levels)
                        && MergedInto(sys, r.value)
      ensures r.Ok? ==> sys.mode.e.flusher.out == MergedTable(old(nextSeq), merged)
    {
      hide RunInv, DownInv, Inv, Leads, Views, Durable, ImmsMatch, LevelsMatch;
      hide LiveImage, HeapApart, MemIn, DoCompactMerge, MetaOf, FileName;
      hide TableOk, TableFile, Usable, TableFrom, Merge.IsMerge, WalWriter.Valid, AllMetas, Huge, PackedFile;
      ghost var before := View();
      Running(origin, steps, sys);
      ViewFacts(before, sys, crc, hash);
      MergeRunsOn(origin, steps, sys, merged);
      MergeEffect(sys, merged);
      Running(origin, steps + [CompactStart] + [CompactMerge(merged)], DoCompactMerge(sys, merged));
      if merged != [] { MergedFileOk(sys, merged); }
      var output: Option<SstMeta> := None;
      if merged != [] {
        var sstSeq := nextSeq;
        nextSeq := nextSeq + 1;
        var written := WriteTable(1, sstSeq, merged);
        if written.Err? { return Err(written.error); }
        output := Some(written.value);
        MergeViews(before, sys, merged, dir.ssts[written.value.name], crc, hash);
      } else {
        MergeViews(before, sys, merged, [], crc, hash);
      }
      steps, sys := steps + [CompactStart] + [CompactMerge(merged)], DoCompactMerge(sys, merged);
      r := Ok(output);
    }

    /** Under the state lock: the merged table takes the place of everything; then it is listed. */
    method Replace(output: Option<SstMeta>)
      requires Kept() && sys.mode.e.writer.Idle? && MergedInto(sys, output) && levels != []
      modifies `levels, `steps, `sys, dir`manifest
      ensures Kept() && old(steps) <= steps && sys == ReplaceState(old(sys))
      ensures LevelAt(levels, 0) == [] && |LevelAt(levels, 1)| <= 1
    {
      hide RunInv, DownInv, Inv, Leads, Views, Durable, ImmsMatch, LevelsMatch, LiveImage;
      hide HeapApart, MemIn, ReplaceState, ManifestBytes, TableOk, MetaOf;
      ghost var before := View();
      Running(origin, steps, sys);
      ViewFacts(before, sys, crc, hash);
      LevelSizes(levels, sys.mode.e.levels, 0);
      MergedTableFits(sys);
      ReplaceRuns(origin, steps, sys);
      ReplaceEffect(sys);
      ReplaceViews(before, sys, crc, hash);
      ReplacedLevels(sys.mode.e.flusher.out);
      ReplaceLevels(output);
      LevelsListable(levels, Levels([], sys.mode.e.flusher.out));
      WriteManifest();
      steps, sys := steps + [CompactCommit] + [CompactManifest], ReplaceState(sys);
    }

    /** Level 0 is cleared; level 1 is the output alone, or gone. */
    method ReplaceLevels(output: Option<SstMeta>)
      requires 1 <= |levels| <= 2
      modifies `levels
      ensures levels == if output.Some? then [[], [output.value]] else [[]]
    {
      levels := levels[0 := []];
      if output.Some? {
        if |levels| <= 1 {
          levels := levels + [[]];
        }
        levels := levels[1 := [output.value]];
      } else {
        levels := levels[..1];
      }
    }

    /** Deletes a table file that nothing refers to any more. */
    method DeleteTable(name: Bytes)
      requires Kept() && sys.mode.e.flusher.Purging? && sys.mode.e.flusher.stale != []
      requires sys.mode.e.flusher.stale[0].level <= 1 && name == FileName(sys.mode.e.flusher.stale[0])
      modifies `steps, `sys, dir`ssts
      ensures Kept() && old(steps) <= steps && sys == DoCompactDelete(old(sys))
      ensures dir.ssts == old(dir.ssts) - {name}
    {
      hide RunInv, DownInv, Inv, Leads, Views, LiveImage, FileName;
      PurgeRuns(origin, steps, sys);
      PurgeViews(View(), sys, crc, hash);
      dir.ssts := dir.ssts - {name};
      steps, sys := steps + [CompactDelete], DoCompactDelete(sys);
    }

    /** Enough level-0 tables have piled up. */
    method CompactNeeded() returns (b: bool)
      ensures b <==> options.compactThreshold > 0 && levels != [] && |levels[0]| >= options.compactThreshold
    {
      if options.compactThreshold == 0 { return false; }
      b := levels != [] && |levels[0]| >= options.compactThreshold;
    }

    /** One round of the background worker: flush, then compact if enough tables piled up. What it
        does never shows in the map. */
    method WorkerRound() returns (r: Result<()>)
      requires Valid() && nextSeq + |immutables| <= U64_MAX
      modifies `immutables, `levels, `nextSeq, `steps, `sys, dir
      ensures old(steps) <= steps && Hist() == old(Hist()) && Map() == old(Map())
      ensures r.Err? ==> r.error == Io && Safe()
      ensures r.Err? ==> SomeHuge(old(immutables))
                         || SomeMergeHuge(FlushedLevels(old(sys.mode.e.levels), old(immutables), old(nextSeq)))
      ensures r.Ok? ==> Valid() && immutables == []
      ensures r.Ok? ==> var flushed := FlushedLevels(old(sys.mode.e.levels), old(immutables), old(nextSeq));
                        var piled := |old(LevelAt(levels, 0))| + |old(immutables)|;
                        if options.compactThreshold > 0 && piled >= options.compactThreshold
                        then Compacted(flushed, old(nextSeq) + |old(immutables)|, sys.mode.e.levels)
                             && LevelAt(levels, 0) == [] && |LevelAt(levels, 1)| <= 1
                        else sys.mode.e.levels == flushed && |LevelAt(levels, 0)| == piled
    {
      hide RunInv, DownInv, Inv, Leads, Views, LiveImage, LevelsMatch, SomeHuge, SomeMergeHuge, Compacted;
      hide WalWriter.Valid, Usable;
      Level0Size();
      r := FlushAllPending();
      if r.Ok? {
        Level0Size();
        var needed := CompactNeeded();
        if needed {
          r := CompactAllPending();
          if r.Ok? {
            CompactedShape(FlushedLevels(old(sys.mode.e.levels), old(immutables), old(nextSeq)), old(nextSeq)
                + |old(immutables)|, sys.mode.e.levels);
            CompactedSize();
          }
        }
      }
    }

    /** Level 0 has as many handles as tables. */
    lemma Level0Size()
      requires Kept()
      ensures sys.mode.Runs? && |LevelAt(levels, 0)| == |sys.mode.e.levels.l0|
    {
      hide RunInv, Leads, Inv, LevelsMatch, LiveImage;
      Running(origin, steps, sys);
      ViewFacts(View(), sys, crc, hash);
      LevelSizes(levels, sys.mode.e.levels, 0);
    }

    lemma CompactedSize()
      requires Kept() && sys.mode.Runs? && |sys.mode.e.levels.l0| == 0 && |sys.mode.e.levels.l1| <= 1
      ensures LevelAt(levels, 0) == [] && |LevelAt(levels, 1)| <= 1
    {
      hide RunInv, Leads, Inv, LevelsMatch, LiveImage;
      Running(origin, steps, sys);
      ViewFacts(View(), sys, crc, hash);
      LevelSizes(levels, sys.mode.e.levels, 0);
      LevelSizes(levels, sys.mode.e.levels, 1);
    }
  }
}
