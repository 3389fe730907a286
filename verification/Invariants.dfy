/** What holds of every reachable state of the machine. */
module Invariants {
  import opened Records
  import opened Layers
  import opened Machine
  import opened Overlays

  // ---- Tables, and the order of file numbers ----

  ghost predicate SeqnosAscend(ts: seq<Table>) {
    forall i, j :: 0 <= i < j < |ts| ==> ts[i].meta.seqno < ts[j].meta.seqno
  }

  ghost predicate SeqnosBelow(ts: seq<Table>, bound: nat) {
    forall i :: 0 <= i < |ts| ==> ts[i].meta.seqno < bound
  }

  /** Level 0 ascends, level 1 holds at most one table, and that one is older than all of
      level 0: "largest number" means "newest data". */
  ghost predicate LevelsOk(lv: Levels<Table>, bound: nat) {
    && AllTablesOk(lv.l0) && AllTablesOk(lv.l1)
    && SeqnosBelow(lv.l0, bound) && SeqnosBelow(lv.l1, bound)
    && SeqnosAscend(lv.l0) && |lv.l1| <= 1
    && (forall i :: 0 <= i < |lv.l0| && lv.l1 != [] ==> lv.l1[0].meta.seqno < lv.l0[i].meta.seqno)
  }

  ghost predicate StoredAt(level: nat, ts: seq<Table>, ssts: map<Name, seq<Record>>) {
    forall i :: 0 <= i < |ts| ==>
      Name(level, ts[i].meta.seqno) in ssts && ssts[Name(level, ts[i].meta.seqno)] == ts[i].records
  }

  ghost predicate Stored(lv: Levels<Table>, ssts: map<Name, seq<Record>>) {
    StoredAt(0, lv.l0, ssts) && StoredAt(1, lv.l1, ssts)
  }

  ghost predicate ListedOk(manifest: Levels<Meta>, ssts: map<Name, seq<Record>>, bound: nat) {
    ManifestPresent(manifest, ssts) && LevelsOk(Listed(manifest, ssts), bound)
  }

  /** The layer the tables of the MANIFEST hold. */
  function ListedMem(manifest: Levels<Meta>, ssts: map<Name, seq<Record>>): Mem
    requires ManifestPresent(manifest, ssts)
  {
    OverlayLevels(Listed(manifest, ssts))
  }

  ghost predicate TablesInv(manifest: Levels<Meta>, ssts: map<Name, seq<Record>>, lv: Levels<Table>, bound: nat) {
    LevelsOk(lv, bound) && Stored(lv, ssts) && ListedOk(manifest, ssts, bound)
  }

  // ---- Generations ----

  function FlushedOf(f: FlushPc): seq<nat> {
    match f
    case Draining(flushed, _) => flushed
    case Built(flushed, _, _, _) => flushed
    case Drained(flushed, _, _) => flushed
    case Deleting(flushed, _) => flushed
    case _ => []
  }

  /** The immutables below the memtable that the current log backs. */
  function Frozen(writer: WriterPc, imms: seq<nat>): seq<nat> {
    if writer.Swapped? && imms != [] then imms[..|imms| - 1] else imms
  }

  /** The generations with a memtable whose log is on disk, oldest first. */
  function Owned(f: FlushPc, imms: seq<nat>, activeGen: nat): seq<nat> {
    FlushedOf(f) + imms + [activeGen]
  }

  /** The generation a freeze has created but not put to use. */
  function Unused(writer: WriterPc): seq<nat> {
    if writer.Created? then [writer.newSeq] else []
  }

  ghost predicate WriterGens(writer: WriterPc, imms: seq<nat>, activeGen: nat, walSeq: nat, heap: set<nat>) {
    match writer
    case Created(n) => activeGen == walSeq && n !in heap
    case Swapped(n) => imms != [] && imms[|imms| - 1] == walSeq && activeGen == n
    case _ => activeGen == walSeq
  }

  ghost predicate AllBelow(gs: seq<nat>, bound: nat) {
    forall i :: 0 <= i < |gs| ==> gs[i] < bound
  }

  /** The logs on disk are those of the owned and unused generations, in ascending order, and
      `next_seq` exceeds every number in use. */
  ghost predicate GensInv(owned: seq<nat>, unused: seq<nat>, logged: set<nat>, heap: set<nat>, bound: nat) {
    && Increasing(owned + unused) && Elements(owned + unused) == logged
    && AllBelow(owned + unused, bound)
    && (forall g :: g in heap ==> g < bound)
    && (forall i :: 0 <= i < |owned| ==> owned[i] in heap)
  }

  /** Only memtables that hold something are frozen. */
  ghost predicate NoneEmpty(writer: WriterPc, imms: seq<nat>, activeGen: nat, heap: map<nat, Mem>) {
    && (forall i :: 0 <= i < |imms| ==> MemIn(heap, imms[i]) != map[])
    && (writer.Created? ==> MemIn(heap, activeGen) != map[])
  }

  // ---- Logs ----

  ghost predicate AllAdmissible(es: seq<WalEntry>) {
    forall i :: 0 <= i < |es| ==> Admissible(es[i])
  }

  ghost predicate WalsAdmissible(wals: map<nat, Wal>) {
    forall g :: g in wals ==> AllAdmissible(wals[g].entries)
  }

  /** A log that is completely in the operating system's hands and backs memtable `g`. */
  ghost predicate Backs(wals: map<nat, Wal>, heap: map<nat, Mem>, g: nat) {
    && g in wals && g in heap
    && wals[g].kept == |wals[g].entries|
    && Replay(wals[g].entries) == heap[g]
  }

  ghost predicate LogsInv(wals: map<nat, Wal>, heap: map<nat, Mem>, gs: seq<nat>) {
    forall i :: 0 <= i < |gs| ==> Backs(wals, heap, gs[i])
  }

  ghost predicate LogMatches(w: Wal, hist: seq<WalEntry>, pre: nat, base: nat) {
    && pre <= w.kept <= |w.entries| && base <= |hist|
    && w.entries[pre..] == hist[base..]
  }

  ghost predicate WriterInv(wals: map<nat, Wal>, hist: seq<WalEntry>, heap: map<nat, Mem>, writer: WriterPc,
                            walSeq: nat, pre: nat, base: nat)
    requires walSeq in wals
  {
    && walSeq in heap
    && LogMatches(wals[walSeq], hist, pre, base)
    && var es := wals[walSeq].entries;
       match writer
       case Idle => heap[walSeq] == Replay(es)
       case Appended => |hist| > base && heap[walSeq] == Replay(es[..|es| - 1])
       case Created(n) => heap[walSeq] == Replay(es) && n in wals && wals[n] == Wal([], 0)
       case Swapped(n) => heap[walSeq] == Replay(es) && n in wals && wals[n] == Wal([], 0)
                          && n in heap && heap[n] == map[]
  }

  // ---- Meaning ----

  /** Everything under the memtable that the current log backs. */
  function Below(levels: Levels<Table>, heap: map<nat, Mem>, frozen: seq<nat>): Mem {
    OverlayLevels(levels) + OverlayMems(heap, frozen)
  }

  ghost predicate ShowsPrefix(m: Mem, hist: seq<WalEntry>, n: int) {
    0 <= n <= |hist| && Live(m) == History(hist[..n])
  }

  ghost predicate ChainInv(lower: Mem, log: seq<WalEntry>, hist: seq<WalEntry>, pre: nat, base: nat, below: nat,
                           listedTo: nat) {
    && listedTo <= below <= base <= |hist| && pre <= |log|
    && ShowsPrefix(lower, hist, below)
    && ShowsPrefix(lower + Replay(log[..pre]), hist, base)
    && (pre == 0 ==> base == below)
  }

  /** Generations committed to tables but still logged are absorbed by the tables, and the
      MANIFEST with their logs shows what the tables show. */
  ghost predicate CommittedInv(listed: Mem, levels: Mem, flushed: Mem) {
    && Absorbs(levels, flushed)
    && Live(listed + flushed) == Live(levels)
  }

  ghost predicate NewTable(t: Table, level: nat, ssts: map<Name, seq<Record>>, levels: Levels<Table>, bound: nat) {
    && TableOk(t) && t.meta.seqno < bound
    && SeqnosBelow(levels.l0, t.meta.seqno) && SeqnosBelow(levels.l1, t.meta.seqno)
    && Name(level, t.meta.seqno) in ssts && ssts[Name(level, t.meta.seqno)] == t.records
  }

  ghost predicate NotListed(n: Name, lv: Levels<Table>) {
    n !in NamesOf(0, lv.l0) && n !in NamesOf(1, lv.l1)
  }

  /** What the holder of `flush_lock` may rely on about the files. */
  ghost predicate FilesInv(f: FlushPc, manifest: Levels<Meta>, ssts: map<Name, seq<Record>>, levels: Levels<Table>,
                           bound: nat) {
    match f
    case Free => manifest == MetaLevels(levels)
    case Draining(flushed, _) => flushed == [] ==> manifest == MetaLevels(levels)
    case Built(flushed, _, _, t) =>
      (flushed == [] ==> manifest == MetaLevels(levels)) && NewTable(t, 0, ssts, levels, bound)
    case Drained(flushed, _, _) => flushed != []
    case Deleting(_, _) => manifest == MetaLevels(levels)
    case Merging => manifest == MetaLevels(levels) && levels.l0 != []
    case MergedTo(out) =>
      && manifest == MetaLevels(levels)
      && |out| <= 1 && (forall i :: 0 <= i < |out| ==> NewTable(out[i], 1, ssts, levels, bound))
    case Replaced(stale) => forall i :: 0 <= i < |stale| ==> NotListed(stale[i], levels)
    case Purging(stale) => manifest == MetaLevels(levels) && forall i :: 0 <= i < |stale| ==>
        NotListed(stale[i], levels)
  }

  /** The table being flushed holds the oldest immutable. */
  ghost predicate BuiltInv(f: FlushPc, imms: seq<nat>, heap: map<nat, Mem>) {
    f.Built? ==> imms != [] && imms[0] == f.gen && MemOf(f.table.records) == MemIn(heap, f.gen)
  }

  /** What the holder of `flush_lock` has promised about the history. */
  ghost predicate PromiseInv(f: FlushPc, levels: Mem, hist: seq<WalEntry>, below: nat, listedTo: nat) {
    match f
    case Draining(_, target) => target <= below
    case Built(_, target, _, _) => target <= below
    case Drained(_, target, upto) => target <= upto <= below && listedTo <= upto && ShowsPrefix(levels, hist, upto)
    case Deleting(_, target) => target <= listedTo
    case MergedTo(out) => Live(Overlay(out)) == Live(levels)
    case _ => true
  }

  // ---- Readers ----

  /** The answer the reader is heading for was right at some moment since its snapshot. */
  ghost predicate Fresh(heap: map<nat, Mem>, hist: seq<WalEntry>, applied: nat, r: Read) {
    exists m :: r.since <= m <= applied && m <= |hist| && Answer(heap, r) == Find(History(hist[..m]), r.key)
  }

  ghost predicate ReadInv(heap: map<nat, Mem>, activeGen: nat, hist: seq<WalEntry>, applied: nat, r: Read) {
    && r.gen in heap && r.gen <= activeGen
    && (forall i :: 0 <= i < |r.imms| ==> r.imms[i] in heap && r.imms[i] < r.gen)
    && Fresh(heap, hist, applied, r)
  }

  ghost predicate ReadersInv(readers: map<nat, Read>, heap: map<nat, Mem>, activeGen: nat, hist: seq<WalEntry>,
                             applied: nat) {
    forall tid :: tid in readers ==> ReadInv(heap, activeGen, hist, applied, readers[tid])
  }

  // ---- All together ----

  ghost predicate RunInv(s: Sys) {
    s.mode.Runs? &&
    var e, d := s.mode.e, s.disk;
    && ManifestPresent(d.manifest, d.ssts) && e.walSeq in d.wals
    && TablesInv(d.manifest, d.ssts, e.levels, e.nextSeq)
    && GensInv(Owned(e.flusher, e.imms, e.activeGen), Unused(e.writer), d.wals.Keys, e.heap.Keys, e.nextSeq)
    && WriterGens(e.writer, e.imms, e.activeGen, e.walSeq, e.heap.Keys)
    && NoneEmpty(e.writer, e.imms, e.activeGen, e.heap)
    && WalsAdmissible(d.wals)
    && LogsInv(d.wals, e.heap, FlushedOf(e.flusher) + Frozen(e.writer, e.imms))
    && WriterInv(d.wals, s.hist, e.heap, e.writer, e.walSeq, e.pre, e.base)
    && ChainInv(Below(e.levels, e.heap, Frozen(e.writer, e.imms)), d.wals[e.walSeq].entries, s.hist,
                e.pre, e.base, e.below, s.listedTo)
    && CommittedInv(ListedMem(d.manifest, d.ssts), OverlayLevels(e.levels), OverlayMems(e.heap, FlushedOf(e.flusher)))
    && ShowsPrefix(ListedMem(d.manifest, d.ssts), s.hist, s.listedTo)
    && FilesInv(e.flusher, d.manifest, d.ssts, e.levels, e.nextSeq)
    && BuiltInv(e.flusher, e.imms, e.heap)
    && PromiseInv(e.flusher, OverlayLevels(e.levels), s.hist, e.below, s.listedTo)
    && ReadersInv(e.readers, e.heap, e.activeGen, s.hist, Applied(s))
  }

  ghost predicate AllKept(wals: map<nat, Wal>) {
    forall g :: g in wals ==> wals[g].kept == |wals[g].entries|
  }

  /** At rest, opening the disk shows the history. */
  ghost predicate DownInv(s: Sys) {
    && s.mode.Down?
    && ListedOk(s.disk.manifest, s.disk.ssts, FirstFree(s.disk))
    && WalsAdmissible(s.disk.wals) && AllKept(s.disk.wals)
    && Live(Recovered(s.disk)) == History(s.hist)
    && ShowsPrefix(ListedMem(s.disk.manifest, s.disk.ssts), s.hist, s.listedTo)
  }

  ghost predicate OpenGens(d: Disk, o: Opening) {
    && Increasing(o.older + [o.newSeq])
    && Elements(o.older + [o.newSeq]) == d.wals.Keys
    && (forall g :: g in d.wals && g != o.newSeq ==> d.wals[g].kept == |d.wals[g].entries|)
  }

  /** The fresh log holds a prefix of the recovered memtable, all of it once `backed`. */
  ghost predicate OpenLog(w: Wal, o: Opening) {
    && |w.entries| <= |o.records| && w.kept <= |w.entries|
    && (forall i :: 0 <= i < |w.entries| ==> w.entries[i] == LogEntry(o.records[i]))
    && (o.backed ==> |w.entries| == |o.records| && w.kept == |w.entries|)
  }

  ghost predicate OpenInv(s: Sys) {
    s.mode.Opens? &&
    var o, d := s.mode.o, s.disk;
    && ListedOk(d.manifest, d.ssts, o.newSeq) && o.levels == Listed(d.manifest, d.ssts)
    && OpenGens(d, o) && WalsAdmissible(d.wals)
    && Ascending(o.records) && MemOf(o.records) == o.mem
    && (forall i :: 0 <= i < |o.records| ==> Admissible(LogEntry(o.records[i])))
    && (forall k :: k in o.mem && o.mem[k].deleted ==> o.mem[k].value == [])
    && OpenLog(d.wals[o.newSeq], o)
    && (if o.backed then OverlayMems(Logs(d.wals), o.older) + o.mem == o.mem
        else OverlayMems(Logs(d.wals), o.older) == o.mem)
    && Live(OverlayLevels(o.levels) + o.mem) == History(s.hist)
    && ShowsPrefix(OverlayLevels(o.levels), s.hist, s.listedTo)
  }

  ghost predicate Inv(s: Sys) {
    DownInv(s) || OpenInv(s) || RunInv(s)
  }
}
