/** The writer's steps (append, sync, apply, freeze) keep the invariant. */
module WriterSteps {
  import opened Records
  import opened Layers
  import opened Machine
  import opened Overlays
  import opened Invariants

  // ---- Facts the steps share ----

  lemma WriterApart(e: Engine, logged: set<nat>)
    requires GensInv(Owned(e.flusher, e.imms, e.activeGen), Unused(e.writer), logged, e.heap.Keys, e.nextSeq)
    requires WriterGens(e.writer, e.imms, e.activeGen, e.walSeq, e.heap.Keys)
    ensures AllBelow(FlushedOf(e.flusher) + Frozen(e.writer, e.imms), e.walSeq)
    ensures AllBelow(FlushedOf(e.flusher) + e.imms, e.activeGen)
    ensures e.walSeq in e.heap && e.activeGen in e.heap && e.walSeq <= e.activeGen
  {
    var gs, lower := Owned(e.flusher, e.imms, e.activeGen) + Unused(e.writer), FlushedOf(e.flusher) + e.imms;
    forall i | 0 <= i < |lower| ensures lower[i] < e.activeGen {
      assert gs[i] == lower[i] && gs[|lower|] == e.activeGen;
    }
    assert Owned(e.flusher, e.imms, e.activeGen)[|lower|] == e.activeGen;
    if e.writer.Swapped? {
      var older := FlushedOf(e.flusher) + Frozen(e.writer, e.imms);
      forall i | 0 <= i < |older| ensures older[i] < e.walSeq {
        assert gs[i] == older[i] && gs[|older|] == e.walSeq;
      }
      assert lower[|older|] == e.walSeq == Owned(e.flusher, e.imms, e.activeGen)[|older|];
    }
  }

  lemma ShowsLonger(m: Mem, hist: seq<WalEntry>, more: seq<WalEntry>, n: int)
    requires ShowsPrefix(m, hist, n)
    ensures ShowsPrefix(m, hist + more, n)
  {
    assert (hist + more)[..n] == hist[..n];
  }

  lemma ChainLonger(lower: Mem, log: seq<WalEntry>, hist: seq<WalEntry>, more: seq<WalEntry>, pre: nat, base: nat,
                    below: nat, listedTo: nat)
    requires ChainInv(lower, log, hist, pre, base, below, listedTo)
    ensures ChainInv(lower, log + more, hist + more, pre, base, below, listedTo)
  {
    assert (log + more)[..pre] == log[..pre];
    ShowsLonger(lower, hist, more, below);
    ShowsLonger(lower + Replay(log[..pre]), hist, more, base);
  }

  lemma PromiseLonger(f: FlushPc, levels: Mem, hist: seq<WalEntry>, more: seq<WalEntry>, below: nat, listedTo: nat)
    requires PromiseInv(f, levels, hist, below, listedTo)
    ensures PromiseInv(f, levels, hist + more, below, listedTo)
  {
    if f.Drained? { ShowsLonger(levels, hist, more, f.upto); }
  }

  lemma ReadersLonger(readers: map<nat, Read>, heap: map<nat, Mem>, activeGen: nat, hist: seq<WalEntry>,
                      more: seq<WalEntry>, applied: nat)
    requires ReadersInv(readers, heap, activeGen, hist, applied) && applied <= |hist|
    ensures ReadersInv(readers, heap, activeGen, hist + more, applied)
  {
    forall tid | tid in readers ensures ReadInv(heap, activeGen, hist + more, applied, readers[tid]) {
      var r := readers[tid];
      var m :| r.since <= m <= applied && m <= |hist| && Answer(heap, r) == Find(History(hist[..m]), r.key);
      assert (hist + more)[..m] == hist[..m];
    }
  }

  /** Nothing about the other generations depends on the log of `g`. */
  lemma LogsFrame(wals: map<nat, Wal>, wals': map<nat, Wal>, heap: map<nat, Mem>, heap': map<nat, Mem>, gs: seq<nat>)
    requires LogsInv(wals, heap, gs)
    requires forall i :: 0 <= i < |gs| && gs[i] in wals ==> gs[i] in wals' && wals'[gs[i]] == wals[gs[i]]
    requires forall i :: 0 <= i < |gs| && gs[i] in heap ==> gs[i] in heap' && heap'[gs[i]] == heap[gs[i]]
    ensures LogsInv(wals', heap', gs)
  {
    forall i | 0 <= i < |gs| ensures Backs(wals', heap', gs[i]) {
      assert Backs(wals, heap, gs[i]);
    }
  }

  // ---- Append ----

  lemma AppendKeepsLog(wals: map<nat, Wal>, hist: seq<WalEntry>, heap: map<nat, Mem>, walSeq: nat, pre: nat, base: nat,
                       entry: WalEntry)
    requires walSeq in wals && WriterInv(wals, hist, heap, Idle, walSeq, pre, base)
    ensures WriterInv(wals[walSeq := AppendTo(wals[walSeq], entry)], hist + [entry], heap, Appended, walSeq, pre, base)
  {
    var es := wals[walSeq].entries;
    assert (es + [entry])[pre..] == es[pre..] + [entry];
    assert (hist + [entry])[base..] == hist[base..] + [entry];
    assert (es + [entry])[..|es|] == es;
  }

  lemma AppendKeepsInv(s: Sys, entry: WalEntry)
    requires RunInv(s) && Enabled(s, Append(entry))
    ensures RunInv(After(s, Append(entry)))
  {
    hide TablesInv, LogsInv, ChainInv, CommittedInv, ShowsPrefix, FilesInv, PromiseInv, ReadersInv, GensInv;
    hide Below, ListedMem, OverlayLevels, OverlayMems, WriterInv, ManifestPresent;
    var e, s' := s.mode.e, DoAppend(s, entry);
    var e', w, w' := s'.mode.e, s.disk.wals, s'.disk.wals;
    WriterApart(e, w.Keys);
    AppendKeepsLog(w, s.hist, e.heap, e.walSeq, e.pre, e.base, entry);
    LogsFrame(w, w', e.heap, e.heap, FlushedOf(e.flusher) + Frozen(e.writer, e.imms));
    ChainLonger(Below(e.levels, e.heap, Frozen(e.writer, e.imms)), w[e.walSeq].entries, s.hist, [entry], e.pre,
        e.base, e.below, s.listedTo);
    ShowsLonger(ListedMem(s.disk.manifest, s.disk.ssts), s.hist, [entry], s.listedTo);
    PromiseLonger(e.flusher, OverlayLevels(e.levels), s.hist, [entry], e.below, s.listedTo);
    ReadersLonger(e.readers, e.heap, e.activeGen, s.hist, [entry], Applied(s));
    assert w'.Keys == w.Keys;
  }

  // ---- Sync, or bytes spilling from the writer's buffer ----

  lemma PersistKeepsInv(s: Sys, n: nat)
    requires RunInv(s) && Enabled(s, Persist(n))
    ensures RunInv(After(s, Persist(n)))
  {
    hide TablesInv, LogsInv, ChainInv, CommittedInv, ShowsPrefix, FilesInv, PromiseInv, ReadersInv, GensInv;
    hide Below, ListedMem, OverlayLevels, OverlayMems, ManifestPresent, Replay;
    var e, s' := s.mode.e, DoPersist(s, s.mode.e.walSeq, n);
    var w, w' := s.disk.wals, s'.disk.wals;
    WriterApart(e, w.Keys);
    LogsFrame(w, w', e.heap, e.heap, FlushedOf(e.flusher) + Frozen(e.writer, e.imms));
    assert w'.Keys == w.Keys;
  }

  // ---- Apply ----

  lemma ApplyKeepsLog(wals: map<nat, Wal>, hist: seq<WalEntry>, heap: map<nat, Mem>, walSeq: nat, pre: nat, base: nat)
    requires walSeq in wals && WriterInv(wals, hist, heap, Appended, walSeq, pre, base)
    ensures var entry := hist[|hist| - 1];
            WriterInv(wals, hist, heap[walSeq := heap[walSeq][entry.key := EntryOf(entry)]], Idle, walSeq, pre, base)
  {
    var es := wals[walSeq].entries;
    assert es[pre..][|es| - pre - 1] == hist[base..][|hist| - base - 1];
  }

  lemma ApplyKeepsReader(heap: map<nat, Mem>, gen: nat, hist: seq<WalEntry>, r: Read)
    requires hist != [] && gen in heap
    requires ReadInv(heap, gen, hist, |hist| - 1, r)
    ensures var entry := hist[|hist| - 1];
            ReadInv(heap[gen := heap[gen][entry.key := EntryOf(entry)]], gen, hist, |hist|, r)
  {
    hide Answer;
    var entry := hist[|hist| - 1];
    var heap' := heap[gen := heap[gen][entry.key := EntryOf(entry)]];
    if r.gen == gen && r.key == entry.key {
      AnswerFromActive(heap', r);
      assert hist[..|hist|] == hist;
      assert Answer(heap', r) == Find(History(hist[..|hist|]), r.key);
    } else {
      AnswerFrame(heap, heap', r);
    }
  }

  lemma AnswerFromActive(heap: map<nat, Mem>, r: Read)
    requires r.gen in heap && r.key in heap[r.gen]
    ensures Answer(heap, r) == Visible(heap[r.gen], r.key)
  {
  }

  lemma AnswerFrame(heap: map<nat, Mem>, heap': map<nat, Mem>, r: Read)
    requires SearchMem(heap, r.gen, r.key) == SearchMem(heap', r.gen, r.key)
    requires forall i :: 0 <= i < |r.imms| ==> MemIn(heap, r.imms[i]) == MemIn(heap', r.imms[i])
    ensures Answer(heap, r) == Answer(heap', r)
  {
    LookupFrame(heap, heap', r.gen, r.imms, r.levels, r.key);
  }

  lemma ApplyKeepsReaders(readers: map<nat, Read>, heap: map<nat, Mem>, gen: nat, hist: seq<WalEntry>)
    requires hist != [] && gen in heap && ReadersInv(readers, heap, gen, hist, |hist| - 1)
    ensures var entry := hist[|hist| - 1];
            ReadersInv(readers, heap[gen := heap[gen][entry.key := EntryOf(entry)]], gen, hist, |hist|)
  {
    hide ReadInv;
    forall tid | tid in readers { ApplyKeepsReader(heap, gen, hist, readers[tid]); }
  }

  /** The active memtable takes part in no overlay of frozen or flushed ones. */
  lemma ApplyKeepsOverlays(e: Engine, wals: map<nat, Wal>, mem: Mem)
    requires e.activeGen in e.heap && AllBelow(FlushedOf(e.flusher) + e.imms, e.activeGen)
    requires LogsInv(wals, e.heap, FlushedOf(e.flusher) + e.imms) && BuiltInv(e.flusher, e.imms, e.heap)
    requires NoneEmpty(Appended, e.imms, e.activeGen, e.heap)
    ensures var heap' := e.heap[e.activeGen := mem];
            && Below(e.levels, heap', e.imms) == Below(e.levels, e.heap, e.imms)
            && OverlayMems(heap', FlushedOf(e.flusher)) == OverlayMems(e.heap, FlushedOf(e.flusher))
            && LogsInv(wals, heap', FlushedOf(e.flusher) + e.imms)
            && BuiltInv(e.flusher, e.imms, heap') && NoneEmpty(Idle, e.imms, e.activeGen, heap')
  {
    hide LogsInv, Backs, OverlayMems, OverlayLevels;
    var heap', lower := e.heap[e.activeGen := mem], FlushedOf(e.flusher) + e.imms;
    assert forall i :: 0 <= i < |e.imms| ==> e.imms[i] == lower[|FlushedOf(e.flusher)| + i];
    assert forall i :: 0 <= i < |FlushedOf(e.flusher)| ==> FlushedOf(e.flusher)[i] == lower[i];
    OverlayMemsFrame(e.heap, heap', e.imms);
    OverlayMemsFrame(e.heap, heap', FlushedOf(e.flusher));
    LogsFrame(wals, wals, e.heap, heap', lower);
  }

  lemma ApplyKeepsInv(s: Sys)
    requires RunInv(s) && Enabled(s, Apply)
    ensures RunInv(After(s, Apply))
  {
    hide TablesInv, LogsInv, ChainInv, CommittedInv, ShowsPrefix, FilesInv, PromiseInv, ReadersInv, GensInv, NoneEmpty;
    hide ListedMem, OverlayLevels, OverlayMems, WriterInv, ManifestPresent, WalsAdmissible, Below, BuiltInv, AllBelow;
    var e, entry := s.mode.e, s.hist[|s.hist| - 1];
    WriterApart(e, s.disk.wals.Keys);
    var mem := e.heap[e.activeGen][entry.key := EntryOf(entry)];
    assert e.heap[e.activeGen := mem].Keys == e.heap.Keys;
    ApplyKeepsLog(s.disk.wals, s.hist, e.heap, e.walSeq, e.pre, e.base);
    ApplyKeepsReaders(e.readers, e.heap, e.activeGen, s.hist);
    ApplyKeepsOverlays(e, s.disk.wals, mem);
  }

  // ---- Freeze ----

  lemma LevelsOkMonotone(manifest: Levels<Meta>, ssts: map<Name, seq<Record>>, lv: Levels<Table>, bound: nat,
                         bound': nat)
    requires TablesInv(manifest, ssts, lv, bound) && bound <= bound'
    ensures TablesInv(manifest, ssts, lv, bound')
  {
  }

  lemma FilesMonotone(f: FlushPc, manifest: Levels<Meta>, ssts: map<Name, seq<Record>>, lv: Levels<Table>, bound: nat,
                      bound': nat)
    requires FilesInv(f, manifest, ssts, lv, bound) && bound <= bound'
    ensures FilesInv(f, manifest, ssts, lv, bound')
  {
  }

  lemma NewGeneration(owned: seq<nat>, logged: set<nat>, heap: set<nat>, bound: nat)
    requires GensInv(owned, [], logged, heap, bound)
    ensures GensInv(owned, [bound], logged + {bound}, heap, bound + 1) && bound !in heap && bound !in logged
    ensures AllBelow(owned, bound)
  {
    assert owned + [] == owned;
    ElementsSnoc(owned, bound);
  }

  lemma FreezeCreateKeepsInv(s: Sys)
    requires RunInv(s) && Enabled(s, FreezeCreate)
    ensures RunInv(After(s, FreezeCreate))
  {
    hide TablesInv, LogsInv, ChainInv, CommittedInv, ShowsPrefix, FilesInv, PromiseInv, ReadersInv, GensInv;
    hide Below, ListedMem, OverlayLevels, OverlayMems, ManifestPresent, Replay;
    var e, s' := s.mode.e, DoFreezeCreate(s);
    var w, w' := s.disk.wals, s'.disk.wals;
    NewGeneration(Owned(e.flusher, e.imms, e.activeGen), w.Keys, e.heap.Keys, e.nextSeq);
    assert w'.Keys == w.Keys + {e.nextSeq};
    LevelsOkMonotone(s.disk.manifest, s.disk.ssts, e.levels, e.nextSeq, e.nextSeq + 1);
    FilesMonotone(e.flusher, s.disk.manifest, s.disk.ssts, e.levels, e.nextSeq, e.nextSeq + 1);
    LogsFrame(w, w', e.heap, e.heap, FlushedOf(e.flusher) + Frozen(e.writer, e.imms));
  }

  lemma SwapGenerations(owned: seq<nat>, n: nat, logged: set<nat>, heap: set<nat>, bound: nat)
    requires GensInv(owned, [n], logged, heap, bound)
    ensures GensInv(owned + [n], [], logged, heap + {n}, bound)
  {
    assert owned + [n] + [] == owned + [n];
    assert (owned + [n])[|owned|] == n;
  }

  lemma SwapKeepsReaders(readers: map<nat, Read>, heap: map<nat, Mem>, gen: nat, n: nat, hist: seq<WalEntry>,
                         applied: nat)
    requires ReadersInv(readers, heap, gen, hist, applied) && gen <= n && n !in heap
    ensures ReadersInv(readers, heap[n := map[]], n, hist, applied)
  {
    hide Answer;
    forall tid | tid in readers ensures ReadInv(heap[n := map[]], n, hist, applied, readers[tid]) {
      AnswerFrame(heap, heap[n := map[]], readers[tid]);
    }
  }

  /** A new, unused memtable disturbs no overlay of older ones. */
  lemma SwapKeepsOverlays(e: Engine, wals: map<nat, Wal>, n: nat)
    requires n !in e.heap && AllBelow(Owned(e.flusher, e.imms, e.activeGen), n)
    requires LogsInv(wals, e.heap, FlushedOf(e.flusher) + e.imms) && BuiltInv(e.flusher, e.imms, e.heap)
    ensures var heap' := e.heap[n := map[]];
            && Below(e.levels, heap', e.imms) == Below(e.levels, e.heap, e.imms)
            && OverlayMems(heap', FlushedOf(e.flusher)) == OverlayMems(e.heap, FlushedOf(e.flusher))
            && LogsInv(wals, heap', FlushedOf(e.flusher) + e.imms)
            && BuiltInv(e.flusher, e.imms + [e.walSeq], heap')
  {
    hide LogsInv, Backs, OverlayMems, OverlayLevels;
    var heap', owned := e.heap[n := map[]], Owned(e.flusher, e.imms, e.activeGen);
    assert forall i :: 0 <= i < |e.imms| ==> e.imms[i] == owned[|FlushedOf(e.flusher)| + i];
    assert forall i :: 0 <= i < |FlushedOf(e.flusher)| ==> FlushedOf(e.flusher)[i] == owned[i];
    OverlayMemsFrame(e.heap, heap', e.imms);
    OverlayMemsFrame(e.heap, heap', FlushedOf(e.flusher));
    LogsFrame(wals, wals, e.heap, heap', FlushedOf(e.flusher) + e.imms);
  }

  lemma SwapKeepsGens(e: Engine, logged: set<nat>, n: nat)
    requires e.writer == Created(n)
    requires GensInv(Owned(e.flusher, e.imms, e.activeGen), [n], logged, e.heap.Keys, e.nextSeq)
    requires WriterGens(e.writer, e.imms, e.activeGen, e.walSeq, e.heap.Keys)
    ensures GensInv(Owned(e.flusher, e.imms + [e.walSeq], n), [], logged, e.heap[n := map[]].Keys, e.nextSeq)
    ensures AllBelow(Owned(e.flusher, e.imms, e.activeGen), n) && e.activeGen < n
  {
    var owned := Owned(e.flusher, e.imms, e.activeGen);
    UnusedIsLater(owned, n, logged, e.heap.Keys, e.nextSeq);
    SwapGenerations(owned, n, logged, e.heap.Keys, e.nextSeq);
    assert owned[|owned| - 1] == e.activeGen;
    assert Owned(e.flusher, e.imms + [e.walSeq], n) == owned + [n];
    assert e.heap[n := map[]].Keys == e.heap.Keys + {n};
  }

  lemma SwapKeepsLog(wals: map<nat, Wal>, hist: seq<WalEntry>, heap: map<nat, Mem>, n: nat, walSeq: nat, pre: nat,
                     base: nat)
    requires walSeq in wals && WriterInv(wals, hist, heap, Created(n), walSeq, pre, base) && n !in heap
    ensures WriterInv(wals, hist, heap[n := map[]], Swapped(n), walSeq, pre, base)
  {
  }

  lemma FreezeSwapKeepsInv(s: Sys)
    requires RunInv(s) && Enabled(s, FreezeSwap)
    ensures RunInv(After(s, FreezeSwap))
  {
    hide TablesInv, LogsInv, ChainInv, CommittedInv, ShowsPrefix, FilesInv, PromiseInv, ReadersInv, GensInv, NoneEmpty;
    hide ListedMem, OverlayLevels, OverlayMems, ManifestPresent, WriterInv, WalsAdmissible, Below, BuiltInv, AllBelow;
    var e, n := s.mode.e, s.mode.e.writer.newSeq;
    SwapKeepsGens(e, s.disk.wals.Keys, n);
    SwapKeepsOverlays(e, s.disk.wals, n);
    SwapKeepsLog(s.disk.wals, s.hist, e.heap, n, e.walSeq, e.pre, e.base);
    SwapKeepsReaders(e.readers, e.heap, e.activeGen, n, s.hist, Applied(s));
    SwapKeepsNoneEmpty(e.imms, e.heap, e.walSeq, n);
    assert (e.imms + [e.walSeq])[..|e.imms|] == e.imms;
  }

  lemma SwapKeepsNoneEmpty(imms: seq<nat>, heap: map<nat, Mem>, gen: nat, n: nat)
    requires NoneEmpty(Created(n), imms, gen, heap) && n !in heap
    ensures NoneEmpty(Swapped(n), imms + [gen], n, heap[n := map[]])
  {
  }

  lemma UnusedIsLater(owned: seq<nat>, n: nat, logged: set<nat>, heap: set<nat>, bound: nat)
    requires GensInv(owned, [n], logged, heap, bound)
    ensures AllBelow(owned, n)
  {
    var gs := owned + [n];
    forall i | 0 <= i < |owned| ensures owned[i] < n {
      assert gs[i] == owned[i] && gs[|owned|] == n;
    }
  }

  /** The writer's log over everything below it shows the history up to any point of the log
      past the re-appended part: what a crash leaves, and what a freeze hands down. */
  lemma LogShowsHistory(lower: Mem, log: seq<WalEntry>, hist: seq<WalEntry>, pre: nat, base: nat, below: nat,
                        listedTo: nat, n: nat)
    requires ChainInv(lower, log, hist, pre, base, below, listedTo)
    requires pre <= n <= |log| && log[pre..] == hist[base..]
    ensures ShowsPrefix(lower + Replay(log[..n]), hist, base + n - pre)
  {
    hide Replay, History, Live;
    var more := log[pre..n];
    assert log[..n] == log[..pre] + more;
    ReplayAppend(log[..pre], more);
    OverlayAssoc(lower, Replay(log[..pre]), Replay(more));
    HistoryStep(lower + Replay(log[..pre]), hist[..base], more);
    assert hist[..base] + more == hist[..base + n - pre] by {
      assert more == log[pre..][..n - pre] == hist[base..][..n - pre] == hist[base..base + n - pre];
    }
  }

  lemma BelowSnoc(levels: Levels<Table>, heap: map<nat, Mem>, frozen: seq<nat>, gen: nat)
    ensures Below(levels, heap, frozen + [gen]) == Below(levels, heap, frozen) + MemIn(heap, gen)
  {
    hide OverlayLevels, OverlayMems, MemIn;
    OverlayMemsAppend(heap, frozen, [gen]);
    OverlayMemsOne(heap, gen);
    OverlayAssoc(OverlayLevels(levels), OverlayMems(heap, frozen), MemIn(heap, gen));
  }

  lemma SwitchKeepsChain(lower: Mem, log: seq<WalEntry>, hist: seq<WalEntry>, pre: nat, base: nat, below: nat,
                         listedTo: nat)
    requires ChainInv(lower, log, hist, pre, base, below, listedTo) && log[pre..] == hist[base..]
    ensures ChainInv(lower + Replay(log), [], hist, 0, |hist|, |hist|, listedTo)
  {
    hide History, Live, Replay;
    assert |log| - pre == |log[pre..]| == |hist[base..]| == |hist| - base;
    LogShowsHistory(lower, log, hist, pre, base, below, listedTo, |log|);
    assert log[..|log|] == log;
    ReplayNothing(lower + Replay(log));
  }

  lemma ReplayNothing(m: Mem)
    ensures var none: seq<WalEntry> := []; m + Replay(none[..0]) == m
  {
    var none: seq<WalEntry> := [];
    assert none[..0] == [];
  }

  lemma SwitchKeepsLog(wals: map<nat, Wal>, hist: seq<WalEntry>, heap: map<nat, Mem>, n: nat, walSeq: nat, pre: nat,
                       base: nat)
    requires walSeq in wals && WriterInv(wals, hist, heap, Swapped(n), walSeq, pre, base) && n != walSeq
    ensures var w' := wals[walSeq := wals[walSeq].(kept := |wals[walSeq].entries|)];
            n in w' && WriterInv(w', hist, heap, Idle, n, 0, |hist|) && Backs(w', heap, walSeq)
            && w'[n].entries == []
    ensures MemIn(heap, walSeq) == Replay(wals[walSeq].entries)
    ensures wals[walSeq].entries[pre..] == hist[base..]
  {
  }

  lemma SwitchKeepsBacked(e: Engine, w: map<nat, Wal>, w': map<nat, Wal>)
    requires e.writer.Swapped? && WriterGens(e.writer, e.imms, e.activeGen, e.walSeq, e.heap.Keys)
    requires AllBelow(FlushedOf(e.flusher) + Frozen(e.writer, e.imms), e.walSeq)
    requires e.walSeq in w && w' == w[e.walSeq := w[e.walSeq].(kept := |w[e.walSeq].entries|)]
    requires LogsInv(w, e.heap, FlushedOf(e.flusher) + Frozen(e.writer, e.imms)) && Backs(w', e.heap, e.walSeq)
    ensures LogsInv(w', e.heap, FlushedOf(e.flusher) + e.imms)
    ensures e.imms == Frozen(e.writer, e.imms) + [e.walSeq]
  {
    hide LogsInv, Backs;
    var older := FlushedOf(e.flusher) + Frozen(e.writer, e.imms);
    LogsFrame(w, w', e.heap, e.heap, older);
    LogsSnoc(w', e.heap, older, e.walSeq);
    assert older + [e.walSeq] == FlushedOf(e.flusher) + e.imms;
  }

  lemma PromiseMonotone(f: FlushPc, levels: Mem, hist: seq<WalEntry>, below: nat, below': nat, listedTo: nat)
    requires PromiseInv(f, levels, hist, below, listedTo) && below <= below'
    ensures PromiseInv(f, levels, hist, below', listedTo)
  {
  }

  lemma AdmissibleFrame(wals: map<nat, Wal>, g: nat, kept: nat)
    requires WalsAdmissible(wals) && g in wals
    ensures WalsAdmissible(wals[g := wals[g].(kept := kept)])
  {
  }

  lemma FreezeSwitchKeepsInv(s: Sys)
    requires RunInv(s) && Enabled(s, FreezeSwitch)
    ensures RunInv(After(s, FreezeSwitch))
  {
    hide TablesInv, LogsInv, ChainInv, CommittedInv, ShowsPrefix, FilesInv, ReadersInv, GensInv, Backs, NoneEmpty;
    hide Below, ListedMem, OverlayLevels, OverlayMems, ManifestPresent, Replay, PromiseInv, WalsAdmissible, WriterInv;
    hide AllBelow, MemIn;
    var e, s' := s.mode.e, DoFreezeSwitch(s);
    var w, w' := s.disk.wals, s'.disk.wals;
    var frozen, log := Frozen(e.writer, e.imms), w[e.walSeq].entries;
    WriterApart(e, w.Keys);
    assert w'.Keys == w.Keys;
    OldBelowActive(e);
    SwitchKeepsLog(w, s.hist, e.heap, e.activeGen, e.walSeq, e.pre, e.base);
    SwitchKeepsBacked(e, w, w');
    BelowSnoc(e.levels, e.heap, frozen, e.walSeq);
    SwitchKeepsChain(Below(e.levels, e.heap, frozen), log, s.hist, e.pre, e.base, e.below, s.listedTo);
    SwitchBounds(Below(e.levels, e.heap, frozen), log, s.hist, e.pre, e.base, e.below, s.listedTo);
    SwitchKeepsNoneEmpty(e.writer, e.imms, e.activeGen, e.heap);
    PromiseMonotone(e.flusher, OverlayLevels(e.levels), s.hist, e.below, |s.hist|, s.listedTo);
    AdmissibleFrame(w, e.walSeq, |log|);
  }

  lemma OldBelowActive(e: Engine)
    requires e.writer.Swapped? && WriterGens(e.writer, e.imms, e.activeGen, e.walSeq, e.heap.Keys)
    requires AllBelow(FlushedOf(e.flusher) + e.imms, e.activeGen)
    ensures e.walSeq < e.activeGen
  {
    var lower := FlushedOf(e.flusher) + e.imms;
    assert lower[|lower| - 1] == e.walSeq;
  }

  lemma SwitchKeepsNoneEmpty(writer: WriterPc, imms: seq<nat>, gen: nat, heap: map<nat, Mem>)
    requires NoneEmpty(writer, imms, gen, heap)
    ensures NoneEmpty(Idle, imms, gen, heap)
  {
  }

  lemma SwitchBounds(lower: Mem, log: seq<WalEntry>, hist: seq<WalEntry>, pre: nat, base: nat, below: nat,
                     listedTo: nat)
    requires ChainInv(lower, log, hist, pre, base, below, listedTo)
    ensures below <= |hist|
  {
  }

  lemma LogsSnoc(wals: map<nat, Wal>, heap: map<nat, Mem>, gs: seq<nat>, g: nat)
    requires LogsInv(wals, heap, gs) && Backs(wals, heap, g)
    ensures LogsInv(wals, heap, gs + [g])
  {
  }
}
