/** The engine as a state machine over memory and disk (src/engine.rs).

    One step is one action that other threads, or a crash, can observe. The locks of the source
    are the program counters: `wal` is `WriterPc`, `flush_lock` is `FlushPc`, and `state_lock` is
    held exactly in `Swapped`, from the swap of the memtables until the old log writer is dropped. */
module Machine {
  import opened Outcomes
  import opened Bytes
  import opened Records
  import opened Layers
  import opened Merge

  // ---- Tables and levels ----

  /** The handle of a table: its metadata and the contents of its file. */
  datatype Table = Table(meta: Meta, records: seq<Record>)

  datatype Meta = Meta(seqno: nat, min: Bytes, max: Bytes)

  /** The engine only ever populates levels 0 and 1; both ascend by file number. */
  datatype Levels<T> = Levels(l0: seq<T>, l1: seq<T>)

  /** The file name `L<level>_<seqno>.sst`. */
  datatype Name = Name(level: nat, seqno: nat)

  function Overlay(ts: seq<Table>): Mem {
    if ts == [] then map[] else Overlay(ts[..|ts| - 1]) + MemOf(ts[|ts| - 1].records)
  }

  function OverlayLevels(lv: Levels<Table>): Mem {
    Overlay(lv.l1) + Overlay(lv.l0)
  }

  function Metas(ts: seq<Table>): (ms: seq<Meta>)
    ensures |ms| == |ts| && forall i :: 0 <= i < |ts| ==> ms[i] == ts[i].meta
  {
    seq(|ts|, i requires 0 <= i < |ts| => ts[i].meta)
  }

  function MetaLevels(lv: Levels<Table>): Levels<Meta> {
    Levels(Metas(lv.l0), Metas(lv.l1))
  }

  // ---- Disk ----

  /** A log generation. The first `kept` entries have reached the operating system for certain;
      a crash of the process may cut the log anywhere from there on. */
  datatype Wal = Wal(entries: seq<WalEntry>, kept: nat)

  datatype Disk = Disk(manifest: Levels<Meta>, ssts: map<Name, seq<Record>>, wals: map<nat, Wal>)

  ghost predicate Present(level: nat, ms: seq<Meta>, ssts: map<Name, seq<Record>>) {
    forall i :: 0 <= i < |ms| ==> Name(level, ms[i].seqno) in ssts
  }

  /** Every table the MANIFEST lists has its file. */
  ghost predicate ManifestPresent(manifest: Levels<Meta>, ssts: map<Name, seq<Record>>) {
    Present(0, manifest.l0, ssts) && Present(1, manifest.l1, ssts)
  }

  function Load(level: nat, ms: seq<Meta>, ssts: map<Name, seq<Record>>): (ts: seq<Table>)
    requires Present(level, ms, ssts)
    ensures |ts| == |ms|
    ensures forall i :: 0 <= i < |ms| ==> ts[i] == Table(ms[i], ssts[Name(level, ms[i].seqno)])
  {
    seq(|ms|, i requires 0 <= i < |ms| => Table(ms[i], ssts[Name(level, ms[i].seqno)]))
  }

  /** The tables the MANIFEST lists. */
  function Listed(manifest: Levels<Meta>, ssts: map<Name, seq<Record>>): Levels<Table>
    requires ManifestPresent(manifest, ssts)
  {
    Levels(Load(0, manifest.l0, ssts), Load(1, manifest.l1, ssts))
  }

  // ---- Generations ----

  ghost predicate Increasing(gs: seq<nat>) {
    forall i, j :: 0 <= i < j < |gs| ==> gs[i] < gs[j]
  }

  function Elements(gs: seq<nat>): set<nat> {
    set g | g in gs
  }

  function Largest(gs: seq<nat>): (m: nat)
    ensures forall i :: 0 <= i < |gs| ==> gs[i] <= m
    ensures gs == [] ==> m == 0
  {
    if gs == [] then 0
    else
      var m := Largest(gs[..|gs| - 1]);
      if gs[|gs| - 1] > m then gs[|gs| - 1] else m
  }

  predicate IsMax(x: nat, s: set<nat>) {
    x in s && forall y :: y in s ==> y <= x
  }

  lemma MaxIn(s: set<nat>)
    requires s != {}
    ensures exists x :: IsMax(x, s)
    decreases |s|
  {
    var x :| x in s;
    if s == {x} {
      assert IsMax(x, s);
    } else {
      MaxIn(s - {x});
      var y :| IsMax(y, s - {x});
      forall z | z in s ensures z <= (if y < x then x else y) {
        assert z == x || z in s - {x};
      }
      assert IsMax(if y < x then x else y, s);
    }
  }

  /** The generations on disk, oldest first. */
  function InOrder(s: set<nat>): seq<nat>
    decreases |s|
  {
    if s == {} then []
    else
      MaxIn(s);
      var x :| IsMax(x, s);
      InOrder(s - {x}) + [x]
  }

  /** What replaying each log into an empty memtable gives. */
  function Logs(wals: map<nat, Wal>): map<nat, Mem> {
    map g | g in wals :: Replay(wals[g].entries)
  }

  function MemIn(mems: map<nat, Mem>, g: nat): Mem {
    if g in mems then mems[g] else map[]
  }

  /** The memtables of `gs`, oldest first, laid over one another. */
  function OverlayMems(mems: map<nat, Mem>, gs: seq<nat>): Mem {
    if gs == [] then map[] else OverlayMems(mems, gs[..|gs| - 1]) + MemIn(mems, gs[|gs| - 1])
  }

  /** What opening the directory makes of the disk. */
  ghost function Recovered(d: Disk): Mem
    requires ManifestPresent(d.manifest, d.ssts)
  {
    OverlayLevels(Listed(d.manifest, d.ssts)) + OverlayMems(Logs(d.wals), InOrder(d.wals.Keys))
  }

  // ---- Memory ----

  datatype WriterPc =
    | Idle                      // the log lock is free, or its holder is between steps
    | Appended                  // the last entry of the log is not applied yet
    | Created(newSeq: nat)      // freezing: the new generation's file exists
    | Swapped(newSeq: nat)      // freezing: memtables swapped, old writer still in place

  datatype FlushPc =
    | Free
    | Draining(flushed: seq<nat>, target: nat)
    | Built(flushed: seq<nat>, target: nat, gen: nat, table: Table)
    | Drained(flushed: seq<nat>, target: nat, upto: nat)
    | Deleting(flushed: seq<nat>, target: nat)
    | Merging
    | MergedTo(out: seq<Table>)
    | Replaced(stale: seq<Name>)
    | Purging(stale: seq<Name>)

  /** A reader between its snapshot and its answer. `since` is the length of the applied history
      at the snapshot. */
  datatype Read = Read(key: Bytes, gen: nat, imms: seq<nat>, levels: Levels<Table>, since: nat)

  /** `heap` holds every memtable by the generation that logs it; `activeGen` and `imms` point
      into it. The last three fields only account for the history:
      - the writer's log is `pre` entries re-appended by `open`, then the history from `base` on;
      - everything below the writer's memtable shows the history up to `below`. */
  datatype Engine = Engine(
    heap: map<nat, Mem>,
    activeGen: nat,
    imms: seq<nat>,
    levels: Levels<Table>,
    walSeq: nat,
    nextSeq: nat,
    writer: WriterPc,
    flusher: FlushPc,
    readers: map<nat, Read>,
    pre: nat,
    base: nat,
    below: nat)

  datatype Opening = Opening(
    levels: Levels<Table>,
    mem: Mem,
    records: seq<Record>,
    newSeq: nat,
    older: seq<nat>,
    backed: bool)

  datatype Mode = Down | Opens(o: Opening) | Runs(e: Engine)

  /** `hist` is the history of logged operations, cut back by a crash to what survived it;
      the tables the MANIFEST lists show its first `listedTo` operations. */
  datatype Sys = Sys(disk: Disk, hist: seq<WalEntry>, listedTo: nat, mode: Mode)

  function Applied(s: Sys): nat
    requires s.mode.Runs?
  {
    if s.mode.e.writer.Appended? && |s.hist| > 0 then |s.hist| - 1 else |s.hist|
  }

  // ---- Lookup, as `get` does it ----

  predicate OutOfRange(m: Meta, key: Bytes) {
    Less(key, m.min) || Less(m.max, key)
  }

  /** Newest table first; a table whose key range excludes the key is skipped. */
  function SearchTables(ts: seq<Table>, key: Bytes): Option<Entry> {
    if ts == [] then None
    else
      var t := ts[|ts| - 1];
      var found := if OutOfRange(t.meta, key) then None else Search(t.records, key);
      if found.Some? then found else SearchTables(ts[..|ts| - 1], key)
  }

  function SearchMem(heap: map<nat, Mem>, g: nat, key: Bytes): Option<Entry> {
    if key in MemIn(heap, g) then Some(MemIn(heap, g)[key]) else None
  }

  function SearchMems(heap: map<nat, Mem>, gs: seq<nat>, key: Bytes): Option<Entry> {
    if gs == [] then None
    else
      var found := SearchMem(heap, gs[|gs| - 1], key);
      if found.Some? then found else SearchMems(heap, gs[..|gs| - 1], key)
  }

  function OrElse(a: Option<Entry>, b: Option<Entry>): Option<Entry> {
    if a.Some? then a else b
  }

  function Unwrap(e: Option<Entry>): Option<Bytes> {
    if e.Some? && !e.value.deleted then Some(e.value.value) else None
  }

  /** Active memtable, immutables newest first, level 0, level 1; the first hit decides. */
  function Lookup(heap: map<nat, Mem>, gen: nat, imms: seq<nat>, levels: Levels<Table>, key: Bytes): Option<Bytes> {
    Unwrap(OrElse(SearchMem(heap, gen, key),
           OrElse(SearchMems(heap, imms, key),
           OrElse(SearchTables(levels.l0, key), SearchTables(levels.l1, key)))))
  }

  function Answer(heap: map<nat, Mem>, r: Read): Option<Bytes> {
    Lookup(heap, r.gen, r.imms, r.levels, r.key)
  }

  // ---- Steps ----

  datatype Step =
    | Append(entry: WalEntry)
    | Persist(n: nat)
    | Apply
    | FreezeCreate
    | FreezeSwap
    | FreezeSwitch
    | FlushAcquire
    | FlushBuild
    | FlushCommit
    | FlushDrained
    | FlushManifest
    | FlushDelete
    | FlushRelease
    | CompactStart
    | CompactMerge(out: seq<Record>)
    | CompactCommit
    | CompactManifest
    | CompactDelete
    | CompactRelease
    | ReadBegin(tid: nat, key: Bytes)
    | ReadEnd(tid: nat)
    | Crash(cut: map<nat, nat>)
    | OpenLoad
    | OpenAppend
    | OpenPersist(n: nat)
    | OpenSync
    | OpenDelete
    | OpenDone

  /** The caps `encode_entry` enforces before anything is written. */
  predicate Admissible(e: WalEntry) {
    |e.key| <= MAX_KEY_LEN && |e.value| <= MAX_VALUE_LEN && (e.op.Delete? ==> e.value == [])
  }

  function Run(s: Sys, e: Engine): Sys { s.(mode := Runs(e)) }

  function OnDisk(s: Sys, d: Disk, e: Engine): Sys { s.(disk := d, mode := Runs(e)) }

  function TableFrom(seqno: nat, rs: seq<Record>): Table
    requires rs != []
  {
    Table(Meta(seqno, rs[0].key, rs[|rs| - 1].key), rs)
  }

  /** `partition_point` and `insert`: after every table with a smaller number. */
  function InsertBySeq(ts: seq<Table>, t: Table): seq<Table> {
    if ts == [] || ts[|ts| - 1].meta.seqno < t.meta.seqno then ts + [t]
    else InsertBySeq(ts[..|ts| - 1], t) + [ts[|ts| - 1]]
  }

  /** `retain`: everything but generation `g`. */
  function Without(gs: seq<nat>, g: nat): seq<nat> {
    if gs == [] then []
    else Without(gs[..|gs| - 1], g) + if gs[|gs| - 1] == g then [] else [gs[|gs| - 1]]
  }

  function RunsOf(ts: seq<Table>): (runs: seq<Merge.Run>)
    ensures |runs| == |ts|
    ensures forall i :: 0 <= i < |ts| ==> runs[i] == Merge.Run(ts[i].meta.seqno, ts[i].records)
  {
    seq(|ts|, i requires 0 <= i < |ts| => Merge.Run(ts[i].meta.seqno, ts[i].records))
  }

  function NamesOf(level: nat, ts: seq<Table>): (ns: seq<Name>)
    ensures |ns| == |ts| && forall i :: 0 <= i < |ts| ==> ns[i] == Name(level, ts[i].meta.seqno)
  {
    seq(|ts|, i requires 0 <= i < |ts| => Name(level, ts[i].meta.seqno))
  }

  function SeqsOf(ms: seq<Meta>): (ss: seq<nat>)
    ensures |ss| == |ms| && forall i :: 0 <= i < |ms| ==> ss[i] == ms[i].seqno
  {
    seq(|ms|, i requires 0 <= i < |ms| => ms[i].seqno)
  }

  /** One more than every file number the MANIFEST or a log file bears. */
  function FirstFree(d: Disk): nat {
    1 + Largest(SeqsOf(d.manifest.l0) + SeqsOf(d.manifest.l1) + InOrder(d.wals.Keys))
  }

  ghost predicate ValidCut(wals: map<nat, Wal>, cut: map<nat, nat>) {
    forall g :: g in wals ==> g in cut && wals[g].kept <= cut[g] <= |wals[g].entries|
  }

  ghost function CutWals(wals: map<nat, Wal>, cut: map<nat, nat>): map<nat, Wal>
    requires ValidCut(wals, cut)
  {
    map g | g in wals :: Wal(wals[g].entries[..cut[g]], cut[g])
  }

  /** How much of the history a crash that cuts the logs at `cut` leaves. */
  ghost function Surviving(s: Sys, cut: map<nat, nat>): int {
    if s.mode.Runs? && s.mode.e.walSeq in cut
    then s.mode.e.base + cut[s.mode.e.walSeq] - s.mode.e.pre
    else |s.hist|
  }

  /** The logged operations that no crash of the process can undo. */
  function Durable(s: Sys): int {
    if s.mode.Runs? && s.mode.e.walSeq in s.disk.wals
    then s.mode.e.base + s.disk.wals[s.mode.e.walSeq].kept - s.mode.e.pre
    else |s.hist|
  }

  function LogEntry(r: Record): WalEntry {
    if r.deleted then WalEntry(Delete, r.key, []) else WalEntry(Put, r.key, r.value)
  }

  ghost predicate Enabled(s: Sys, step: Step) {
    match s.mode
    case Down =>
      (match step
       case OpenLoad => ManifestPresent(s.disk.manifest, s.disk.ssts)
       case _ => false)
    case Opens(o) =>
      o.newSeq in s.disk.wals &&
      (match step
       case OpenAppend => !o.backed && |s.disk.wals[o.newSeq].entries| < |o.records|
       case OpenPersist(n) => s.disk.wals[o.newSeq].kept <= n <= |s.disk.wals[o.newSeq].entries|
       case OpenSync => !o.backed && |s.disk.wals[o.newSeq].entries| == |o.records|
       case OpenDelete => o.backed && o.older != []
       case OpenDone => o.backed && o.older == []
       case Crash(cut) => ValidCut(s.disk.wals, cut)
       case _ => false)
    case Runs(e) =>
      e.walSeq in s.disk.wals &&
      (match step
       case Append(entry) => e.writer.Idle? && Admissible(entry)
       case Persist(n) => s.disk.wals[e.walSeq].kept <= n <= |s.disk.wals[e.walSeq].entries|
       case Apply => e.writer.Appended? && s.hist != []
       case FreezeCreate => e.writer.Idle? && MemIn(e.heap, e.activeGen) != map[]
       case FreezeSwap => e.writer.Created?
       case FreezeSwitch => e.writer.Swapped?
       case FlushAcquire => e.flusher.Free?
       case FlushBuild => e.flusher.Draining? && e.imms != [] && SortedRecords(MemIn(e.heap, e.imms[0])) != []
       case FlushCommit => e.flusher.Built? && !e.writer.Swapped?
       case FlushDrained => e.flusher.Draining? && e.imms == []
       case FlushManifest => e.flusher.Drained?
       case FlushDelete => e.flusher.Deleting? && e.flusher.flushed != []
       case FlushRelease => e.flusher.Deleting? && e.flusher.flushed == []
       case CompactStart => e.flusher.Free? && e.levels.l0 != []
       case CompactMerge(out) => e.flusher.Merging? && IsMerge(RunsOf(e.levels.l0 + e.levels.l1), out)
       case CompactCommit => e.flusher.MergedTo? && !e.writer.Swapped?
       case CompactManifest => e.flusher.Replaced?
       case CompactDelete => e.flusher.Purging? && e.flusher.stale != []
       case CompactRelease => e.flusher.Purging? && e.flusher.stale == []
       case ReadBegin(tid, key) => tid !in e.readers
       case ReadEnd(tid) => tid in e.readers
       case Crash(cut) => ValidCut(s.disk.wals, cut) && 0 <= Surviving(s, cut) <= |s.hist|
       case _ => false)
  }

  function AppendTo(w: Wal, entry: WalEntry): Wal { w.(entries := w.entries + [entry]) }

  function DoAppend(s: Sys, entry: WalEntry): Sys
    requires s.mode.Runs? && s.mode.e.walSeq in s.disk.wals
  {
    var e, w := s.mode.e, s.disk.wals[s.mode.e.walSeq];
    s.(disk := s.disk.(wals := s.disk.wals[e.walSeq := AppendTo(w, entry)]),
       hist := s.hist + [entry],
       mode := Runs(e.(writer := Appended)))
  }

  function DoPersist(s: Sys, g: nat, n: nat): Sys
    requires g in s.disk.wals
  {
    s.(disk := s.disk.(wals := s.disk.wals[g := s.disk.wals[g].(kept := n)]))
  }

  function DoApply(s: Sys): Sys
    requires s.mode.Runs? && s.hist != []
  {
    var e, entry := s.mode.e, s.hist[|s.hist| - 1];
    Run(s, e.(heap := e.heap[e.activeGen := MemIn(e.heap, e.activeGen)[entry.key := EntryOf(entry)]],
              writer := Idle))
  }

  function DoFreezeCreate(s: Sys): Sys
    requires s.mode.Runs?
  {
    var e := s.mode.e;
    OnDisk(s, s.disk.(wals := s.disk.wals[e.nextSeq := Wal([], 0)]),
           e.(nextSeq := e.nextSeq + 1, writer := Created(e.nextSeq)))
  }

  function DoFreezeSwap(s: Sys): Sys
    requires s.mode.Runs? && s.mode.e.writer.Created?
  {
    var e := s.mode.e;
    var newSeq := e.writer.newSeq;
    Run(s, e.(heap := e.heap[newSeq := map[]], activeGen := newSeq, imms := e.imms + [e.walSeq],
              writer := Swapped(newSeq)))
  }

  /** The old writer is dropped: its buffer goes to the operating system. */
  function DoFreezeSwitch(s: Sys): Sys
    requires s.mode.Runs? && s.mode.e.writer.Swapped? && s.mode.e.walSeq in s.disk.wals
  {
    var e, w := s.mode.e, s.disk.wals[s.mode.e.walSeq];
    OnDisk(s, s.disk.(wals := s.disk.wals[e.walSeq := w.(kept := |w.entries|)]),
           e.(walSeq := e.writer.newSeq, writer := Idle, pre := 0, base := |s.hist|, below := |s.hist|))
  }

  function DoFlushAcquire(s: Sys): Sys
    requires s.mode.Runs?
  {
    Run(s, s.mode.e.(flusher := Draining([], s.mode.e.below)))
  }

  ghost function DoFlushBuild(s: Sys): Sys
    requires s.mode.Runs? && s.mode.e.flusher.Draining? && s.mode.e.imms != []
    requires SortedRecords(MemIn(s.mode.e.heap, s.mode.e.imms[0])) != []
  {
    var e := s.mode.e;
    var t := TableFrom(e.nextSeq, SortedRecords(MemIn(e.heap, e.imms[0])));
    OnDisk(s, s.disk.(ssts := s.disk.ssts[Name(0, e.nextSeq) := t.records]),
           e.(nextSeq := e.nextSeq + 1, flusher := Built(e.flusher.flushed, e.flusher.target, e.imms[0], t)))
  }

  function DoFlushCommit(s: Sys): Sys
    requires s.mode.Runs? && s.mode.e.flusher.Built?
  {
    var e, f := s.mode.e, s.mode.e.flusher;
    Run(s, e.(levels := e.levels.(l0 := InsertBySeq(e.levels.l0, f.table)),
              imms := Without(e.imms, f.gen),
              flusher := Draining(f.flushed + [f.gen], f.target)))
  }

  function DoFlushDrained(s: Sys): Sys
    requires s.mode.Runs? && s.mode.e.flusher.Draining?
  {
    var e, f := s.mode.e, s.mode.e.flusher;
    if f.flushed == []
    then s.(listedTo := e.below, mode := Runs(e.(flusher := Free)))
    else Run(s, e.(flusher := Drained(f.flushed, f.target, e.below)))
  }

  function DoFlushManifest(s: Sys): Sys
    requires s.mode.Runs? && s.mode.e.flusher.Drained?
  {
    var e, f := s.mode.e, s.mode.e.flusher;
    s.(disk := s.disk.(manifest := MetaLevels(e.levels)), listedTo := f.upto,
       mode := Runs(e.(flusher := Deleting(f.flushed, f.target))))
  }

  function DoFlushDelete(s: Sys): Sys
    requires s.mode.Runs? && s.mode.e.flusher.Deleting? && s.mode.e.flusher.flushed != []
  {
    var e, f := s.mode.e, s.mode.e.flusher;
    OnDisk(s, s.disk.(wals := s.disk.wals - {f.flushed[0]}), e.(flusher := f.(flushed := f.flushed[1..])))
  }

  function SetFlusher(s: Sys, f: FlushPc): Sys
    requires s.mode.Runs?
  {
    Run(s, s.mode.e.(flusher := f))
  }

  function DoCompactMerge(s: Sys, out: seq<Record>): Sys
    requires s.mode.Runs?
  {
    var e := s.mode.e;
    if out == [] then SetFlusher(s, MergedTo([]))
    else
      OnDisk(s, s.disk.(ssts := s.disk.ssts[Name(1, e.nextSeq) := out]),
             e.(nextSeq := e.nextSeq + 1, flusher := MergedTo([TableFrom(e.nextSeq, out)])))
  }

  function DoCompactCommit(s: Sys): Sys
    requires s.mode.Runs? && s.mode.e.flusher.MergedTo?
  {
    var e := s.mode.e;
    Run(s, e.(levels := Levels([], e.flusher.out),
              flusher := Replaced(NamesOf(0, e.levels.l0) + NamesOf(1, e.levels.l1))))
  }

  function DoCompactManifest(s: Sys): Sys
    requires s.mode.Runs? && s.mode.e.flusher.Replaced?
  {
    var e := s.mode.e;
    OnDisk(s, s.disk.(manifest := MetaLevels(e.levels)), e.(flusher := Purging(e.flusher.stale)))
  }

  function DoCompactDelete(s: Sys): Sys
    requires s.mode.Runs? && s.mode.e.flusher.Purging? && s.mode.e.flusher.stale != []
  {
    var e, stale := s.mode.e, s.mode.e.flusher.stale;
    OnDisk(s, s.disk.(ssts := s.disk.ssts - {stale[0]}), e.(flusher := Purging(stale[1..])))
  }

  function DoReadBegin(s: Sys, tid: nat, key: Bytes): Sys
    requires s.mode.Runs?
  {
    var e := s.mode.e;
    Run(s, e.(readers := e.readers[tid := Read(key, e.activeGen, e.imms, e.levels, Applied(s))]))
  }

  ghost function DoCrash(s: Sys, cut: map<nat, nat>): Sys
    requires ValidCut(s.disk.wals, cut) && 0 <= Surviving(s, cut) <= |s.hist|
  {
    s.(disk := s.disk.(wals := CutWals(s.disk.wals, cut)), hist := s.hist[..Surviving(s, cut)], mode := Down)
  }

  /** Opening: load the MANIFEST, replay every generation, create the fresh one. */
  ghost function DoOpenLoad(s: Sys): Sys
    requires ManifestPresent(s.disk.manifest, s.disk.ssts)
  {
    var d := s.disk;
    var gens := InOrder(d.wals.Keys);
    var mem := OverlayMems(Logs(d.wals), gens);
    s.(disk := d.(wals := d.wals[FirstFree(d) := Wal([], 0)]),
       mode := Opens(Opening(Listed(d.manifest, d.ssts), mem, SortedRecords(mem), FirstFree(d), gens, false)))
  }

  function DoOpenAppend(s: Sys): Sys
    requires s.mode.Opens? && s.mode.o.newSeq in s.disk.wals
    requires |s.disk.wals[s.mode.o.newSeq].entries| < |s.mode.o.records|
  {
    var o, w := s.mode.o, s.disk.wals[s.mode.o.newSeq];
    s.(disk := s.disk.(wals := s.disk.wals[o.newSeq := AppendTo(w, LogEntry(o.records[|w.entries|]))]))
  }

  function DoOpenSync(s: Sys): Sys
    requires s.mode.Opens? && s.mode.o.newSeq in s.disk.wals
  {
    var w := s.disk.wals[s.mode.o.newSeq];
    DoPersist(s, s.mode.o.newSeq, |w.entries|).(mode := Opens(s.mode.o.(backed := true)))
  }

  function DoOpenDelete(s: Sys): Sys
    requires s.mode.Opens? && s.mode.o.older != []
  {
    var o := s.mode.o;
    s.(disk := s.disk.(wals := s.disk.wals - {o.older[0]}), mode := Opens(o.(older := o.older[1..])))
  }

  function DoOpenDone(s: Sys): Sys
    requires s.mode.Opens?
  {
    var o, n := s.mode.o, |s.hist|;
    Run(s, Engine(map[o.newSeq := o.mem], o.newSeq, [], o.levels, o.newSeq, o.newSeq + 1, Idle, Free, map[],
                  |o.records|, n, if o.records == [] then n else s.listedTo))
  }

  ghost function After(s: Sys, step: Step): Sys
    requires Enabled(s, step)
  {
    match step
    case Append(entry) => DoAppend(s, entry)
    case Persist(n) => DoPersist(s, s.mode.e.walSeq, n)
    case Apply => DoApply(s)
    case FreezeCreate => DoFreezeCreate(s)
    case FreezeSwap => DoFreezeSwap(s)
    case FreezeSwitch => DoFreezeSwitch(s)
    case FlushAcquire => DoFlushAcquire(s)
    case FlushBuild => DoFlushBuild(s)
    case FlushCommit => DoFlushCommit(s)
    case FlushDrained => DoFlushDrained(s)
    case FlushManifest => DoFlushManifest(s)
    case FlushDelete => DoFlushDelete(s)
    case FlushRelease => SetFlusher(s, Free)
    case CompactStart => SetFlusher(s, Merging)
    case CompactMerge(out) => DoCompactMerge(s, out)
    case CompactCommit => DoCompactCommit(s)
    case CompactManifest => DoCompactManifest(s)
    case CompactDelete => DoCompactDelete(s)
    case CompactRelease => SetFlusher(s, Free)
    case ReadBegin(tid, key) => DoReadBegin(s, tid, key)
    case ReadEnd(tid) => Run(s, s.mode.e.(readers := s.mode.e.readers - {tid}))
    case Crash(cut) => DoCrash(s, cut)
    case OpenLoad => DoOpenLoad(s)
    case OpenAppend => DoOpenAppend(s)
    case OpenPersist(n) => DoPersist(s, s.mode.o.newSeq, n)
    case OpenSync => DoOpenSync(s)
    case OpenDelete => DoOpenDelete(s)
    case OpenDone => DoOpenDone(s)
  }

  /** An empty directory. */
  const FRESH := Sys(Disk(Levels([], []), map[], map[]), [], 0, Down)

  /** A run: any number of steps, crashes and reopens among them. */
  ghost predicate IsRun(tr: seq<Sys>, steps: seq<Step>) {
    && |tr| == |steps| + 1
    && tr[0] == FRESH
    && forall i :: 0 <= i < |steps| ==> Enabled(tr[i], steps[i]) && tr[i + 1] == After(tr[i], steps[i])
  }
}
