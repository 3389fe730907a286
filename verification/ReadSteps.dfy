/** Readers: the layered search shows the history, and every answer was right at some moment of
    the read. */
module ReadSteps {
  import opened Bytes
  import opened Layers
  import opened Machine
  import opened Overlays
  import opened Invariants
  import opened WriterSteps

  /** How much of the writer's log its memtable has applied. */
  function AppliedEntries(writer: WriterPc, log: seq<WalEntry>): nat {
    if writer.Appended? && log != [] then |log| - 1 else |log|
  }

  lemma WriterMemShows(s: Sys)
    requires RunInv(s)
    ensures var e := s.mode.e;
            ShowsPrefix(Below(e.levels, e.heap, Frozen(e.writer, e.imms)) + MemIn(e.heap, e.walSeq), s.hist, Applied(s))
  {
    hide TablesInv, LogsInv, ChainInv, CommittedInv, ShowsPrefix, FilesInv, PromiseInv, ReadersInv, GensInv, NoneEmpty;
    hide ListedMem, ManifestPresent, WalsAdmissible, Below, BuiltInv, Replay;
    var e, log := s.mode.e, s.disk.wals[s.mode.e.walSeq].entries;
    var n := AppliedEntries(e.writer, log);
    assert |log| - e.pre == |log[e.pre..]| == |s.hist[e.base..]| == |s.hist| - e.base by {
      assert LogMatches(s.disk.wals[e.walSeq], s.hist, e.pre, e.base);
    }
    assert log[..|log|] == log;
    LogShowsHistory(Below(e.levels, e.heap, Frozen(e.writer, e.imms)), log, s.hist, e.pre, e.base, e.below,
        s.listedTo, n);
  }

  /** Memory shows the applied history, whatever the writer and the flusher are doing. */
  lemma MemoryShowsHistory(s: Sys)
    requires RunInv(s)
    ensures var e := s.mode.e;
            ShowsPrefix(OverlayLevels(e.levels) + OverlayMems(e.heap, e.imms) + MemIn(e.heap, e.activeGen), s.hist,
                Applied(s))
  {
    hide TablesInv, LogsInv, ChainInv, CommittedInv, ShowsPrefix, FilesInv, PromiseInv, ReadersInv, GensInv, NoneEmpty;
    hide ListedMem, ManifestPresent, WalsAdmissible, BuiltInv, OverlayLevels, OverlayMems, Replay;
    var e := s.mode.e;
    var frozen := Frozen(e.writer, e.imms);
    WriterMemShows(s);
    if e.writer.Swapped? {
      assert e.imms == frozen + [e.walSeq];
      BelowSnoc(e.levels, e.heap, frozen, e.walSeq);
      var shown := Below(e.levels, e.heap, e.imms);
      assert shown + MemIn(e.heap, e.activeGen) == shown;
    }
  }

  /** The layered lookup equals the result of the last put or delete of the key. */
  lemma LookupIsHistory(s: Sys, key: Bytes)
    requires RunInv(s)
    ensures var e := s.mode.e;
            Lookup(e.heap, e.activeGen, e.imms, e.levels, key) == Find(History(s.hist[..Applied(s)]), key)
  {
    hide LogsInv, ChainInv, CommittedInv, FilesInv, PromiseInv, ReadersInv, GensInv, NoneEmpty, WriterInv;
    hide ListedMem, ManifestPresent, WalsAdmissible, BuiltInv, OverlayLevels, OverlayMems, Below, Lookup, Live;
    var e := s.mode.e;
    var m := OverlayLevels(e.levels) + OverlayMems(e.heap, e.imms) + MemIn(e.heap, e.activeGen);
    MemoryShowsHistory(s);
    LookupReadsOverlay(e.heap, e.activeGen, e.imms, e.levels, key);
    VisibleIsFind(m, key);
  }

  lemma ReaderAdded(readers: map<nat, Read>, heap: map<nat, Mem>, activeGen: nat, hist: seq<WalEntry>, applied: nat,
                    tid: nat, r: Read)
    requires ReadersInv(readers, heap, activeGen, hist, applied) && ReadInv(heap, activeGen, hist, applied, r)
    ensures ReadersInv(readers[tid := r], heap, activeGen, hist, applied)
  {
  }

  lemma ReadBeginKeepsInv(s: Sys, tid: nat, key: Bytes)
    requires RunInv(s) && Enabled(s, ReadBegin(tid, key))
    ensures RunInv(After(s, ReadBegin(tid, key)))
  {
    hide TablesInv, LogsInv, ChainInv, CommittedInv, ShowsPrefix, FilesInv, PromiseInv, ReadersInv, GensInv, NoneEmpty;
    hide ListedMem, ManifestPresent, WalsAdmissible, BuiltInv, OverlayLevels;
    hide OverlayMems, Below, Lookup, History, WriterInv;
    var e, n := s.mode.e, Applied(s);
    var r := Read(key, e.activeGen, e.imms, e.levels, n);
    WriterApart(e, s.disk.wals.Keys);
    LookupIsHistory(s, key);
    assert ReadInv(e.heap, e.activeGen, s.hist, n, r) by {
      OwnedInHeap(e, s.disk.wals.Keys);
      assert Answer(e.heap, r) == Find(History(s.hist[..n]), key);
    }
    ReaderAdded(e.readers, e.heap, e.activeGen, s.hist, n, tid, r);
  }

  lemma OwnedInHeap(e: Engine, logged: set<nat>)
    requires GensInv(Owned(e.flusher, e.imms, e.activeGen), Unused(e.writer), logged, e.heap.Keys, e.nextSeq)
    requires AllBelow(FlushedOf(e.flusher) + e.imms, e.activeGen)
    ensures forall i :: 0 <= i < |e.imms| ==> e.imms[i] in e.heap && e.imms[i] < e.activeGen
  {
    var owned, lower := Owned(e.flusher, e.imms, e.activeGen), FlushedOf(e.flusher) + e.imms;
    forall i | 0 <= i < |e.imms| ensures e.imms[i] in e.heap && e.imms[i] < e.activeGen {
      assert owned[|FlushedOf(e.flusher)| + i] == e.imms[i] == lower[|FlushedOf(e.flusher)| + i];
    }
  }

  lemma ReadersFewer(readers: map<nat, Read>, heap: map<nat, Mem>, activeGen: nat, hist: seq<WalEntry>, applied: nat,
                     tid: nat)
    requires ReadersInv(readers, heap, activeGen, hist, applied)
    ensures ReadersInv(readers - {tid}, heap, activeGen, hist, applied)
  {
  }

  lemma ReadEndKeepsInv(s: Sys, tid: nat)
    requires RunInv(s) && Enabled(s, ReadEnd(tid))
    ensures RunInv(After(s, ReadEnd(tid)))
  {
    hide TablesInv, LogsInv, ChainInv, CommittedInv, ShowsPrefix, FilesInv, PromiseInv, ReadersInv, GensInv, NoneEmpty;
    hide ListedMem, ManifestPresent, WalsAdmissible, BuiltInv, OverlayLevels, OverlayMems, Below, WriterInv;
    var e := s.mode.e;
    ReadersFewer(e.readers, e.heap, e.activeGen, s.hist, Applied(s), tid);
  }
}
