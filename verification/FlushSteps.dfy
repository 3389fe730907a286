/** The steps of a flush keep the invariant. */
module FlushSteps {
  import opened Bytes
  import opened Records
  import opened Layers
  import opened Machine
  import opened Overlays
  import opened Invariants
  import opened WriterSteps

  // ---- Files and levels ----

  /** A file under a fresh number is part of no table in use. */
  lemma NewFileKeepsTables(manifest: Levels<Meta>, ssts: map<Name, seq<Record>>, lv: Levels<Table>, bound: nat,
                           level: nat, rs: seq<Record>)
    requires TablesInv(manifest, ssts, lv, bound)
    ensures var ssts' := ssts[Name(level, bound) := rs];
            && TablesInv(manifest, ssts', lv, bound + 1) && ManifestPresent(manifest, ssts')
            && Listed(manifest, ssts') == Listed(manifest, ssts)
  {
    hide AllTablesOk, TableOk, SeqnosAscend;
    var ssts' := ssts[Name(level, bound) := rs];
    var listed := Listed(manifest, ssts);
    assert forall i :: 0 <= i < |manifest.l0| ==> listed.l0[i].meta == manifest.l0[i];
    assert forall i :: 0 <= i < |manifest.l1| ==> listed.l1[i].meta == manifest.l1[i];
    assert Load(0, manifest.l0, ssts') == Load(0, manifest.l0, ssts);
    assert Load(1, manifest.l1, ssts') == Load(1, manifest.l1, ssts);
  }

  lemma ListedIsLevels(ssts: map<Name, seq<Record>>, lv: Levels<Table>)
    requires Stored(lv, ssts)
    ensures ManifestPresent(MetaLevels(lv), ssts) && Listed(MetaLevels(lv), ssts) == lv
  {
    assert Load(0, Metas(lv.l0), ssts) == lv.l0;
    assert Load(1, Metas(lv.l1), ssts) == lv.l1;
  }

  lemma GensMonotone(owned: seq<nat>, unused: seq<nat>, logged: set<nat>, heap: set<nat>, bound: nat, bound': nat)
    requires GensInv(owned, unused, logged, heap, bound) && bound <= bound'
    ensures GensInv(owned, unused, logged, heap, bound')
  {
  }

  // ---- Acquire ----

  lemma FlushAcquireKeepsInv(s: Sys)
    requires RunInv(s) && Enabled(s, FlushAcquire)
    ensures RunInv(After(s, FlushAcquire))
  {
    hide TablesInv, LogsInv, ChainInv, CommittedInv, ShowsPrefix, ReadersInv, GensInv, NoneEmpty;
    hide ListedMem, OverlayLevels, OverlayMems, WriterInv, ManifestPresent, WalsAdmissible, Below, AllBelow;
  }

  // ---- Build ----

  lemma {:induction false} ReplayFits(es: seq<WalEntry>, k: Bytes)
    requires AllAdmissible(es) && k in Replay(es)
    ensures Fits(RecordOf(k, Replay(es)[k])) && (Replay(es)[k].deleted ==> Replay(es)[k].value == [])
  {
    if k != es[|es| - 1].key { ReplayFits(es[..|es| - 1], k); }
  }

  /** What the log admitted, the builder admits: no record of the table is over the caps. */
  lemma SortedFits(es: seq<WalEntry>, m: Mem)
    requires AllAdmissible(es) && m == Replay(es)
    ensures AllFit(SortedRecords(m))
  {
    var rs := SortedRecords(m);
    SortedRecordsCorrect(m);
    forall i | 0 <= i < |rs| ensures Fits(rs[i]) {
      MemOfAt(rs, i);
      ReplayFits(es, rs[i].key);
    }
  }

  lemma BuiltTableOk(es: seq<WalEntry>, m: Mem, seqno: nat)
    requires AllAdmissible(es) && m == Replay(es) && SortedRecords(m) != []
    ensures TableOk(TableFrom(seqno, SortedRecords(m))) && MemOf(SortedRecords(m)) == m
  {
    SortedFits(es, m);
    SortedRecordsCorrect(m);
  }

  /** Every immutable is backed by a log with the same contents. */
  lemma ImmLogged(s: Sys, i: nat) returns (es: seq<WalEntry>)
    requires RunInv(s) && i < |s.mode.e.imms|
    ensures AllAdmissible(es) && MemIn(s.mode.e.heap, s.mode.e.imms[i]) == Replay(es)
  {
    hide TablesInv, ChainInv, CommittedInv, ShowsPrefix, FilesInv, PromiseInv, ReadersInv, GensInv, Replay;
    var e, g := s.mode.e, s.mode.e.imms[i];
    var frozen := Frozen(e.writer, e.imms);
    if i < |frozen| {
      assert (FlushedOf(e.flusher) + frozen)[|FlushedOf(e.flusher)| + i] == g;
      assert Backs(s.disk.wals, e.heap, g);
    }
    es := s.disk.wals[g].entries;
  }

  lemma FlushBuildKeepsInv(s: Sys)
    requires RunInv(s) && Enabled(s, FlushBuild)
    ensures RunInv(After(s, FlushBuild))
  {
    hide TablesInv, LogsInv, ChainInv, CommittedInv, ShowsPrefix, ReadersInv, GensInv, NoneEmpty;
    hide OverlayLevels, OverlayMems, WriterInv, ManifestPresent, WalsAdmissible, Below, AllBelow, TableOk, Listed;
    var e, d := s.mode.e, s.disk;
    var m := MemIn(e.heap, e.imms[0]);
    var es := ImmLogged(s, 0);
    BuiltTableOk(es, m, e.nextSeq);
    NewFileKeepsTables(d.manifest, d.ssts, e.levels, e.nextSeq, 0, SortedRecords(m));
    SeqnosBelowBound(d.manifest, d.ssts, e.levels, e.nextSeq);
    GensMonotone(Owned(e.flusher, e.imms, e.activeGen), Unused(e.writer), d.wals.Keys, e.heap.Keys, e.nextSeq,
        e.nextSeq + 1);
  }

  lemma SeqnosBelowBound(manifest: Levels<Meta>, ssts: map<Name, seq<Record>>, lv: Levels<Table>, bound: nat)
    requires TablesInv(manifest, ssts, lv, bound)
    ensures SeqnosBelow(lv.l0, bound) && SeqnosBelow(lv.l1, bound)
  {
  }

  // ---- Commit ----

  lemma LevelsSnoc(lv: Levels<Table>, bound: nat, t: Table)
    requires LevelsOk(lv, bound) && TableOk(t) && t.meta.seqno < bound
    requires SeqnosBelow(lv.l0, t.meta.seqno) && SeqnosBelow(lv.l1, t.meta.seqno)
    ensures LevelsOk(lv.(l0 := lv.l0 + [t]), bound)
  {
    hide TableOk;
  }

  lemma CommitKeepsTables(manifest: Levels<Meta>, ssts: map<Name, seq<Record>>, lv: Levels<Table>, bound: nat, t: Table)
    requires TablesInv(manifest, ssts, lv, bound) && NewTable(t, 0, ssts, lv, bound)
    ensures InsertBySeq(lv.l0, t) == lv.l0 + [t]
    ensures TablesInv(manifest, ssts, lv.(l0 := lv.l0 + [t]), bound)
    ensures OverlayLevels(lv.(l0 := lv.l0 + [t])) == OverlayLevels(lv) + MemOf(t.records)
  {
    hide TableOk, ListedOk, LevelsOk, Overlay, MemOf;
    InsertAtEnd(lv.l0, t);
    LevelsSnoc(lv, bound, t);
    OverlaySnoc(lv.l0, t);
    OverlayAssoc(Overlay(lv.l1), Overlay(lv.l0), MemOf(t.records));
  }

  /** Moving the oldest immutable into a table leaves what lies below the writer unchanged. */
  lemma CommitKeepsBelow(lv: Levels<Table>, lv': Levels<Table>, heap: map<nat, Mem>, imms: seq<nat>)
    requires imms != [] && OverlayLevels(lv') == OverlayLevels(lv) + MemIn(heap, imms[0])
    ensures Below(lv', heap, imms[1..]) == Below(lv, heap, imms)
  {
    hide OverlayLevels, MemIn, OverlayMems;
    assert imms == [imms[0]] + imms[1..];
    OverlayMemsAppend(heap, [imms[0]], imms[1..]);
    OverlayMemsOne(heap, imms[0]);
    OverlayAssoc(OverlayLevels(lv), MemIn(heap, imms[0]), OverlayMems(heap, imms[1..]));
  }

  lemma CommitKeepsCommitted(listed: Mem, levels: Mem, heap: map<nat, Mem>, flushed: seq<nat>, gen: nat)
    requires CommittedInv(listed, levels, OverlayMems(heap, flushed))
    ensures CommittedInv(listed, levels + MemIn(heap, gen), OverlayMems(heap, flushed + [gen]))
  {
    hide MemIn, OverlayMems, Live;
    var f, g := OverlayMems(heap, flushed), MemIn(heap, gen);
    OverlayMemsAppend(heap, flushed, [gen]);
    OverlayMemsOne(heap, gen);
    AbsorbsNewer(levels, f, g);
    LiveOverlay(listed + f, levels, g);
    OverlayAssoc(listed, f, g);
  }

  lemma CommitKeepsSeqs(flushed: seq<nat>, imms: seq<nat>, activeGen: nat)
    requires imms != [] && Increasing(flushed + imms + [activeGen])
    ensures Without(imms, imms[0]) == imms[1..]
    ensures (flushed + [imms[0]]) + imms[1..] == flushed + imms
  {
    assert forall i :: 0 <= i < |imms| ==> (flushed + imms + [activeGen])[|flushed| + i] == imms[i];
    WithoutFirst(imms);
  }

  lemma CommitKeepsNoneEmpty(writer: WriterPc, imms: seq<nat>, activeGen: nat, heap: map<nat, Mem>)
    requires NoneEmpty(writer, imms, activeGen, heap) && imms != []
    ensures NoneEmpty(writer, imms[1..], activeGen, heap)
  {
  }

  lemma OwnedIncreasing(owned: seq<nat>, unused: seq<nat>, logged: set<nat>, heap: set<nat>, bound: nat)
    requires GensInv(owned, unused, logged, heap, bound)
    ensures Increasing(owned)
  {
    assert forall i :: 0 <= i < |owned| ==> (owned + unused)[i] == owned[i];
  }

  lemma FlushCommitKeepsInv(s: Sys)
    requires RunInv(s) && Enabled(s, FlushCommit)
    ensures RunInv(After(s, FlushCommit))
  {
    hide TablesInv, LogsInv, ChainInv, CommittedInv, ShowsPrefix, ReadersInv, GensInv, NoneEmpty, NewTable;
    hide OverlayLevels, OverlayMems, WriterInv, ManifestPresent, WalsAdmissible, Below, Increasing, ListedMem, MemIn;
    hide Without, InsertBySeq;
    var e, d, t := s.mode.e, s.disk, s.mode.e.flusher.table;
    var flushed := FlushedOf(e.flusher);
    var lv' := e.levels.(l0 := e.levels.l0 + [t]);
    OwnedIncreasing(Owned(e.flusher, e.imms, e.activeGen), Unused(e.writer), d.wals.Keys, e.heap.Keys, e.nextSeq);
    CommitKeepsSeqs(flushed, e.imms, e.activeGen);
    CommitKeepsTables(d.manifest, d.ssts, e.levels, e.nextSeq, t);
    CommitKeepsBelow(e.levels, lv', e.heap, e.imms);
    CommitKeepsCommitted(ListedMem(d.manifest, d.ssts), OverlayLevels(e.levels), e.heap, flushed, e.imms[0]);
    CommitKeepsNoneEmpty(e.writer, e.imms, e.activeGen, e.heap);
  }

  // ---- Drained ----

  lemma DrainedShows(e: Engine, log: seq<WalEntry>, hist: seq<WalEntry>, listedTo: nat)
    requires ChainInv(Below(e.levels, e.heap, []), log, hist, e.pre, e.base, e.below, listedTo)
    ensures ShowsPrefix(OverlayLevels(e.levels), hist, e.below) && listedTo <= e.below
    ensures ChainInv(Below(e.levels, e.heap, []), log, hist, e.pre, e.base, e.below, e.below)
  {
    assert Below(e.levels, e.heap, []) == OverlayLevels(e.levels);
  }

  lemma FlushDrainedKeepsInv(s: Sys)
    requires RunInv(s) && Enabled(s, FlushDrained)
    ensures RunInv(After(s, FlushDrained))
  {
    hide LogsInv, ChainInv, CommittedInv, ShowsPrefix, ReadersInv, GensInv, NoneEmpty, LevelsOk, ListedOk;
    hide OverlayLevels, OverlayMems, WriterInv, ManifestPresent, WalsAdmissible, Below, Stored;
    var e, d := s.mode.e, s.disk;
    assert Frozen(e.writer, e.imms) == [];
    DrainedShows(e, d.wals[e.walSeq].entries, s.hist, s.listedTo);
    if e.flusher.flushed == [] {
      ListedIsLevels(d.ssts, e.levels);
    }
  }

  // ---- Manifest ----

  lemma ManifestKeepsTables(manifest: Levels<Meta>, ssts: map<Name, seq<Record>>, lv: Levels<Table>, bound: nat)
    requires TablesInv(manifest, ssts, lv, bound)
    ensures ManifestPresent(MetaLevels(lv), ssts) && TablesInv(MetaLevels(lv), ssts, lv, bound)
    ensures ListedMem(MetaLevels(lv), ssts) == OverlayLevels(lv)
  {
    hide LevelsOk;
    ListedIsLevels(ssts, lv);
  }

  lemma ManifestKeepsChain(lower: Mem, log: seq<WalEntry>, hist: seq<WalEntry>, pre: nat, base: nat, below: nat,
                           listedTo: nat, upto: nat)
    requires ChainInv(lower, log, hist, pre, base, below, listedTo) && upto <= below
    ensures ChainInv(lower, log, hist, pre, base, below, upto)
  {
  }

  lemma FlushManifestKeepsInv(s: Sys)
    requires RunInv(s) && Enabled(s, FlushManifest)
    ensures RunInv(After(s, FlushManifest))
  {
    hide TablesInv, LogsInv, ChainInv, ShowsPrefix, ReadersInv, GensInv, NoneEmpty, Live;
    hide OverlayLevels, OverlayMems, WriterInv, ManifestPresent, WalsAdmissible, Below, ListedMem;
    var e, d := s.mode.e, s.disk;
    ManifestKeepsTables(d.manifest, d.ssts, e.levels, e.nextSeq);
    ManifestKeepsChain(Below(e.levels, e.heap, Frozen(e.writer, e.imms)), d.wals[e.walSeq].entries, s.hist,
                       e.pre, e.base, e.below, s.listedTo, e.flusher.upto);
  }

  // ---- Delete ----

  lemma DeleteKeepsGens(owned: seq<nat>, unused: seq<nat>, logged: set<nat>, heap: set<nat>, bound: nat)
    requires GensInv(owned, unused, logged, heap, bound) && owned != []
    ensures GensInv(owned[1..], unused, logged - {owned[0]}, heap, bound)
    ensures owned[0] !in (owned + unused)[1..]
  {
    ElementsTail(owned + unused);
    assert (owned + unused)[1..] == owned[1..] + unused;
  }

  lemma DeleteKeepsLogs(wals: map<nat, Wal>, heap: map<nat, Mem>, gs: seq<nat>, g: nat)
    requires LogsInv(wals, heap, gs) && gs != [] && g == gs[0] && g !in gs[1..]
    ensures LogsInv(wals - {g}, heap, gs[1..])
  {
    forall i | 0 <= i < |gs[1..]| ensures Backs(wals - {g}, heap, gs[1..][i]) {
      assert Backs(wals, heap, gs[i + 1]);
    }
  }

  lemma DeleteKeepsLog(wals: map<nat, Wal>, hist: seq<WalEntry>, heap: map<nat, Mem>, writer: WriterPc,
                       walSeq: nat, pre: nat, base: nat, g: nat)
    requires walSeq in wals && WriterInv(wals, hist, heap, writer, walSeq, pre, base)
    requires g != walSeq && (writer.Created? || writer.Swapped? ==> writer.newSeq != g)
    ensures walSeq in wals - {g} && WriterInv(wals - {g}, hist, heap, writer, walSeq, pre, base)
    ensures (wals - {g})[walSeq] == wals[walSeq]
  {
  }

  /** With the MANIFEST current, the logs of any later suffix of the flushed generations are as
      redundant as all of them were. */
  lemma DeleteKeepsCommitted(levels: Mem, heap: map<nat, Mem>, flushed: seq<nat>)
    requires flushed != [] && CommittedInv(levels, levels, OverlayMems(heap, flushed))
    ensures CommittedInv(levels, levels, OverlayMems(heap, flushed[1..]))
  {
    hide OverlayMems, MemIn;
    assert flushed == [flushed[0]] + flushed[1..];
    OverlayMemsAppend(heap, [flushed[0]], flushed[1..]);
    AbsorbsSuffix(levels, OverlayMems(heap, [flushed[0]]), OverlayMems(heap, flushed[1..]));
  }

  lemma AdmissibleLess(wals: map<nat, Wal>, g: nat)
    requires WalsAdmissible(wals)
    ensures WalsAdmissible(wals - {g})
  {
  }

  lemma FlushedApart(e: Engine, logged: set<nat>)
    requires GensInv(Owned(e.flusher, e.imms, e.activeGen), Unused(e.writer), logged, e.heap.Keys, e.nextSeq)
    requires WriterGens(e.writer, e.imms, e.activeGen, e.walSeq, e.heap.Keys) && FlushedOf(e.flusher) != []
    ensures var g := FlushedOf(e.flusher)[0];
            && g != e.walSeq && (e.writer.Created? || e.writer.Swapped? ==> e.writer.newSeq != g)
            && g !in (FlushedOf(e.flusher) + Frozen(e.writer, e.imms))[1..]
  {
    WriterApart(e, logged);
    var gs, flushed := Owned(e.flusher, e.imms, e.activeGen) + Unused(e.writer), FlushedOf(e.flusher);
    var older := flushed + Frozen(e.writer, e.imms);
    assert gs[0] == older[0] == (flushed + e.imms)[0] == flushed[0];
    assert gs[|gs| - 1] == if e.writer.Created? then e.writer.newSeq else e.activeGen;
    assert forall i :: 0 <= i < |older| ==> older[i] == gs[i];
  }

  lemma FlushDeleteKeepsInv(s: Sys)
    requires RunInv(s) && Enabled(s, FlushDelete)
    ensures RunInv(After(s, FlushDelete))
  {
    hide LogsInv, ChainInv, CommittedInv, ShowsPrefix, ReadersInv, GensInv, NoneEmpty, Live, WriterGens, Listed;
    hide OverlayLevels, OverlayMems, WriterInv, ManifestPresent, WalsAdmissible, Below, LevelsOk, ListedOk, Stored;
    var e, d, flushed := s.mode.e, s.disk, s.mode.e.flusher.flushed;
    var g, older := flushed[0], flushed + Frozen(e.writer, e.imms);
    ListedIsLevels(d.ssts, e.levels);
    FlushedApart(e, d.wals.Keys);
    DeleteKeepsGens(Owned(e.flusher, e.imms, e.activeGen), Unused(e.writer), d.wals.Keys, e.heap.Keys, e.nextSeq);
    assert Owned(e.flusher, e.imms, e.activeGen)[1..] == flushed[1..] + e.imms + [e.activeGen];
    assert (d.wals - {g}).Keys == d.wals.Keys - {g};
    DeleteKeepsLogs(d.wals, e.heap, older, g);
    assert older[1..] == flushed[1..] + Frozen(e.writer, e.imms);
    DeleteKeepsLog(d.wals, s.hist, e.heap, e.writer, e.walSeq, e.pre, e.base, g);
    DeleteKeepsCommitted(OverlayLevels(e.levels), e.heap, flushed);
    AdmissibleLess(d.wals, g);
  }

  // ---- Release ----

  lemma FlushReleaseKeepsInv(s: Sys)
    requires RunInv(s) && Enabled(s, FlushRelease)
    ensures RunInv(After(s, FlushRelease))
  {
    hide TablesInv, LogsInv, ChainInv, CommittedInv, ShowsPrefix, ReadersInv, GensInv, NoneEmpty;
    hide ListedMem, OverlayLevels, OverlayMems, WriterInv, ManifestPresent, WalsAdmissible, Below, AllBelow;
  }
}
