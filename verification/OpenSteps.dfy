/** Crashes, and opening a directory: what a crash leaves is a prefix of the history, and no
    crash inside `open` loses any of it again. */
module OpenSteps {
  import opened Bytes
  import opened Records
  import opened Layers
  import opened Machine
  import opened Overlays
  import opened Invariants
  import opened WriterSteps
  import opened FlushSteps

  // ---- File numbers ----

  lemma FirstFreeIsFree(d: Disk)
    ensures forall i :: 0 <= i < |d.manifest.l0| ==> d.manifest.l0[i].seqno < FirstFree(d)
    ensures forall i :: 0 <= i < |d.manifest.l1| ==> d.manifest.l1[i].seqno < FirstFree(d)
    ensures forall g :: g in d.wals ==> g < FirstFree(d)
  {
    InOrderCorrect(d.wals.Keys);
    var a, b, gs := SeqsOf(d.manifest.l0), SeqsOf(d.manifest.l1), InOrder(d.wals.Keys);
    var all := a + b + gs;
    assert forall i :: 0 <= i < |a| ==> all[i] == a[i];
    assert forall i :: 0 <= i < |b| ==> all[|a| + i] == b[i];
    forall g | g in d.wals ensures g < FirstFree(d) {
      assert g in Elements(gs);
      var i :| 0 <= i < |gs| && gs[i] == g;
      assert all[|a| + |b| + i] == g;
    }
  }

  lemma ListedOkAtRest(d: Disk, bound: nat)
    requires ListedOk(d.manifest, d.ssts, bound)
    ensures ListedOk(d.manifest, d.ssts, FirstFree(d))
  {
    hide AllTablesOk, SeqnosAscend, FirstFree;
    FirstFreeIsFree(d);
  }

  // ---- Cutting logs ----

  lemma CutLog(wals: map<nat, Wal>, cut: map<nat, nat>, g: nat)
    requires ValidCut(wals, cut) && g in wals
    ensures Logs(CutWals(wals, cut))[g] == Replay(wals[g].entries[..cut[g]])
    ensures wals[g].kept == |wals[g].entries| ==> MemIn(Logs(CutWals(wals, cut)), g) == MemIn(Logs(wals), g)
  {
    if wals[g].kept == |wals[g].entries| {
      assert wals[g].entries[..cut[g]] == wals[g].entries;
    }
  }

  lemma CutSound(wals: map<nat, Wal>, cut: map<nat, nat>)
    requires ValidCut(wals, cut) && WalsAdmissible(wals)
    ensures WalsAdmissible(CutWals(wals, cut)) && AllKept(CutWals(wals, cut))
    ensures CutWals(wals, cut).Keys == wals.Keys
  {
  }

  lemma CutBacked(wals: map<nat, Wal>, cut: map<nat, nat>, heap: map<nat, Mem>, gs: seq<nat>)
    requires ValidCut(wals, cut) && LogsInv(wals, heap, gs)
    ensures OverlayMems(Logs(CutWals(wals, cut)), gs) == OverlayMems(heap, gs)
  {
    forall i | 0 <= i < |gs| ensures MemIn(Logs(CutWals(wals, cut)), gs[i]) == MemIn(heap, gs[i]) {
      assert Backs(wals, heap, gs[i]);
      CutLog(wals, cut, gs[i]);
    }
    OverlayMemsFrame(Logs(CutWals(wals, cut)), heap, gs);
  }

  // ---- Crash of a running engine ----

  /** The generation past the writer's log, if a freeze has created one: its log is empty. */
  function Later(writer: WriterPc): seq<nat> {
    match writer
    case Created(n) => [n]
    case Swapped(n) => [n]
    case _ => []
  }

  lemma GenerationsAroundWriter(e: Engine)
    requires WriterGens(e.writer, e.imms, e.activeGen, e.walSeq, e.heap.Keys)
    ensures Owned(e.flusher, e.imms, e.activeGen) + Unused(e.writer)
         == (FlushedOf(e.flusher) + Frozen(e.writer, e.imms)) + ([e.walSeq] + Later(e.writer))
  {
    if e.writer.Swapped? {
      assert e.imms == Frozen(e.writer, e.imms) + [e.walSeq];
    }
  }

  lemma LaterIsEmpty(wals: map<nat, Wal>, cut: map<nat, nat>, hist: seq<WalEntry>, e: Engine)
    requires ValidCut(wals, cut) && e.walSeq in wals
    requires WriterInv(wals, hist, e.heap, e.writer, e.walSeq, e.pre, e.base)
    ensures OverlayMems(Logs(CutWals(wals, cut)), [e.walSeq] + Later(e.writer)) ==
              Replay(wals[e.walSeq].entries[..cut[e.walSeq]])
  {
    hide OverlayMems, LogMatches;
    var logs := Logs(CutWals(wals, cut));
    CutLog(wals, cut, e.walSeq);
    OverlayMemsOne(logs, e.walSeq);
    if Later(e.writer) != [] {
      var n := e.writer.newSeq;
      CutLog(wals, cut, n);
      assert wals[n].entries[..cut[n]] == [];
      OverlayMemsAppend(logs, [e.walSeq], [n]);
      OverlayMemsOne(logs, n);
    } else {
      assert [e.walSeq] + Later(e.writer) == [e.walSeq];
    }
  }

  /** What replaying the cut logs gives. */
  lemma CutReplays(s: Sys, cut: map<nat, nat>)
    requires RunInv(s) && ValidCut(s.disk.wals, cut)
    ensures var e, wals' := s.mode.e, CutWals(s.disk.wals, cut);
            OverlayMems(Logs(wals'), InOrder(wals'.Keys)) ==
            OverlayMems(e.heap, FlushedOf(e.flusher)) + OverlayMems(e.heap, Frozen(e.writer, e.imms))
            + Replay(s.disk.wals[e.walSeq].entries[..cut[e.walSeq]])
  {
    hide TablesInv, LogsInv, ChainInv, CommittedInv, ShowsPrefix, FilesInv;
    hide PromiseInv, ReadersInv, NoneEmpty, CutWals, Logs;
    hide ListedMem, ManifestPresent, BuiltInv, OverlayLevels, OverlayMems;
    hide Below, WriterInv, WriterGens, Replay, ValidCut;
    var e, wals := s.mode.e, s.disk.wals;
    var wals' := CutWals(wals, cut);
    var flushed, frozen := FlushedOf(e.flusher), Frozen(e.writer, e.imms);
    CutSound(wals, cut);
    InOrderUnique(wals.Keys, Owned(e.flusher, e.imms, e.activeGen) + Unused(e.writer));
    GenerationsAroundWriter(e);
    OverlayMemsAppend(Logs(wals'), flushed + frozen, [e.walSeq] + Later(e.writer));
    CutBacked(wals, cut, e.heap, flushed + frozen);
    OverlayMemsAppend(e.heap, flushed, frozen);
    LaterIsEmpty(wals, cut, s.hist, e);
  }

  lemma RecoveredShows(listed: Mem, levels: Mem, flushed: Mem, frozen: Mem, log: Mem)
    requires CommittedInv(listed, levels, flushed)
    ensures Live(listed + (flushed + frozen + log)) == Live(levels + frozen + log)
  {
    hide Live;
    LiveOverlay(listed + flushed, levels, frozen);
    LiveOverlay(listed + flushed + frozen, levels + frozen, log);
    OverlayAssoc(listed, flushed, frozen);
    OverlayAssoc(listed, flushed + frozen, log);
  }

  lemma LogLengths(s: Sys)
    requires RunInv(s)
    ensures var e, w := s.mode.e, s.disk.wals[s.mode.e.walSeq];
            && s.listedTo <= e.below <= e.base && e.pre <= w.kept <= |w.entries|
            && e.base + |w.entries| - e.pre == |s.hist|
            && w.entries[e.pre..] == s.hist[e.base..]
  {
    hide TablesInv, LogsInv, CommittedInv, ShowsPrefix, FilesInv, PromiseInv, ReadersInv, GensInv, NoneEmpty;
    hide ListedMem, ManifestPresent, WalsAdmissible, BuiltInv, OverlayLevels, OverlayMems, Below, Replay;
    var e, log := s.mode.e, s.disk.wals[s.mode.e.walSeq].entries;
    assert LogMatches(s.disk.wals[e.walSeq], s.hist, e.pre, e.base);
    assert |log| - e.pre == |log[e.pre..]| == |s.hist[e.base..]| == |s.hist| - e.base;
  }

  /** A crash at any point leaves a prefix of the history, no shorter than what was durable. */
  lemma CrashRecoversPrefix(s: Sys, cut: map<nat, nat>)
    requires RunInv(s) && ValidCut(s.disk.wals, cut)
    ensures s.listedTo <= s.mode.e.base <= Durable(s) <= Surviving(s, cut) <= |s.hist|
    ensures ShowsPrefix(Recovered(s.disk.(wals := CutWals(s.disk.wals, cut))), s.hist, Surviving(s, cut))
  {
    hide TablesInv, LogsInv, ChainInv, CommittedInv, FilesInv, PromiseInv;
    hide ReadersInv, NoneEmpty, CutWals, Logs, GensInv;
    hide ManifestPresent, BuiltInv, OverlayLevels, OverlayMems, WriterInv, WriterGens, Replay, History, Live;
    var e, d := s.mode.e, s.disk;
    var log, n := d.wals[e.walSeq].entries, cut[e.walSeq];
    LogLengths(s);
    CutReplays(s, cut);
    LogShowsHistory(Below(e.levels, e.heap, Frozen(e.writer, e.imms)), log, s.hist, e.pre, e.base, e.below,
        s.listedTo, n);
    RecoveredShows(ListedMem(d.manifest, d.ssts), OverlayLevels(e.levels), OverlayMems(e.heap, FlushedOf(e.flusher)),
                   OverlayMems(e.heap, Frozen(e.writer, e.imms)), Replay(log[..n]));
  }

  lemma ShowsShorter(m: Mem, hist: seq<WalEntry>, n: nat, cut: nat)
    requires ShowsPrefix(m, hist, n) && n <= cut <= |hist|
    ensures ShowsPrefix(m, hist[..cut], n)
  {
    assert hist[..cut][..n] == hist[..n];
  }

  lemma RunCrashKeepsInv(s: Sys, cut: map<nat, nat>)
    requires RunInv(s) && Enabled(s, Crash(cut))
    ensures DownInv(After(s, Crash(cut)))
  {
    hide LogsInv, ChainInv, CommittedInv, FilesInv, PromiseInv, ReadersInv, NoneEmpty, GensInv, LevelsOk, Stored;
    hide ManifestPresent, BuiltInv, OverlayLevels, OverlayMems, WriterInv;
    hide WriterGens, History, Live, ListedMem, CutWals;
    hide WalsAdmissible, ValidCut, Surviving, FirstFree, Recovered;
    var e, d := s.mode.e, s.disk;
    var d' := d.(wals := CutWals(d.wals, cut));
    CrashRecoversPrefix(s, cut);
    CutSound(d.wals, cut);
    assert ListedOk(d'.manifest, d'.ssts, e.nextSeq);
    ListedOkAtRest(d', e.nextSeq);
    ShowsShorter(ListedMem(d.manifest, d.ssts), s.hist, s.listedTo, Surviving(s, cut));
  }

  // ---- Opening ----

  lemma {:induction false} LogsFit(wals: map<nat, Wal>, gs: seq<nat>, k: Bytes)
    requires WalsAdmissible(wals) && k in OverlayMems(Logs(wals), gs)
    ensures var e := OverlayMems(Logs(wals), gs)[k];
            Fits(RecordOf(k, e)) && (e.deleted ==> e.value == [])
  {
    var g := gs[|gs| - 1];
    if k in MemIn(Logs(wals), g) {
      ReplayFits(wals[g].entries, k);
    } else {
      LogsFit(wals, gs[..|gs| - 1], k);
    }
  }

  lemma RecoveredAdmissible(wals: map<nat, Wal>, gs: seq<nat>)
    requires WalsAdmissible(wals)
    ensures var mem := OverlayMems(Logs(wals), gs);
            && (forall k :: k in mem && mem[k].deleted ==> mem[k].value == [])
            && (forall i :: 0 <= i < |SortedRecords(mem)| ==> Admissible(LogEntry(SortedRecords(mem)[i])))
  {
    var mem := OverlayMems(Logs(wals), gs);
    var rs := SortedRecords(mem);
    SortedRecordsCorrect(mem);
    forall k | k in mem && mem[k].deleted ensures mem[k].value == [] {
      LogsFit(wals, gs, k);
    }
    forall i | 0 <= i < |rs| ensures Admissible(LogEntry(rs[i])) {
      MemOfAt(rs, i);
      LogsFit(wals, gs, rs[i].key);
    }
  }

  lemma FreshLogKeepsOverlay(wals: map<nat, Wal>, gs: seq<nat>, n: nat, w: Wal)
    requires n !in gs
    ensures OverlayMems(Logs(wals[n := w]), gs) == OverlayMems(Logs(wals), gs)
  {
    OverlayMemsFrame(Logs(wals[n := w]), Logs(wals), gs);
  }

  lemma OpenLoadGens(wals: map<nat, Wal>, gs: seq<nat>, n: nat)
    requires AllKept(wals) && Increasing(gs) && Elements(gs) == wals.Keys && forall g :: g in wals ==> g < n
    ensures Increasing(gs + [n]) && Elements(gs + [n]) == wals[n := Wal([], 0)].Keys && n !in gs
    ensures var wals' := wals[n := Wal([], 0)];
            forall g :: g in wals' && g != n ==> wals'[g].kept == |wals'[g].entries|
  {
    ElementsSnoc(gs, n);
    assert forall i :: 0 <= i < |gs| ==> gs[i] in Elements(gs);
  }

  lemma AdmissibleFresh(wals: map<nat, Wal>, n: nat)
    requires WalsAdmissible(wals)
    ensures WalsAdmissible(wals[n := Wal([], 0)])
  {
  }

  lemma OpenLoadKeepsInv(s: Sys)
    requires DownInv(s) && Enabled(s, OpenLoad)
    ensures OpenInv(After(s, OpenLoad))
  {
    hide LevelsOk, History, Live, OverlayLevels, SortedRecords, MemOf;
    hide FirstFree, OverlayMems, Listed, Increasing, InOrder;
    hide ManifestPresent, Logs, Elements, WalsAdmissible, AllKept, Ascending, ShowsPrefix, ListedOk, Admissible;
    var d, n, gs := s.disk, FirstFree(s.disk), InOrder(s.disk.wals.Keys);
    var mem := OverlayMems(Logs(d.wals), gs);
    assert WalsAdmissible(d.wals[n := Wal([], 0)]) by { AdmissibleFresh(d.wals, n); }
    InOrderCorrect(d.wals.Keys);
    FirstFreeIsFree(d);
    OpenLoadGens(d.wals, gs, n);
    RecoveredAdmissible(d.wals, gs);
    SortedRecordsCorrect(mem);
    FreshLogKeepsOverlay(d.wals, gs, n, Wal([], 0));
  }

  /** The re-appended entries replay to the records they came from. */
  lemma {:induction false} ReappendReplays(es: seq<WalEntry>, rs: seq<Record>)
    requires |es| <= |rs| && forall i :: 0 <= i < |es| ==> es[i] == LogEntry(rs[i])
    requires forall i :: 0 <= i < |rs| && rs[i].deleted ==> rs[i].value == []
    ensures Replay(es) == MemOf(rs[..|es|])
    decreases |es|
  {
    if es != [] {
      var n := |es| - 1;
      ReappendReplays(es[..n], rs);
      assert rs[..|es|] == rs[..n] + [rs[n]];
      MemOfSnoc(rs[..n], rs[n]);
    }
  }

  /** Any prefix of the re-appended memtable is part of it. */
  lemma PrefixOfRecords(rs: seq<Record>, n: nat)
    requires Ascending(rs) && n <= |rs|
    ensures MemOf(rs) + MemOf(rs[..n]) == MemOf(rs)
  {
    forall k | k in MemOf(rs[..n]) ensures k in MemOf(rs) && MemOf(rs)[k] == MemOf(rs[..n])[k] {
      MemOfKey(rs[..n], k);
      var i :| 0 <= i < n && rs[..n][i].key == k;
      MemOfAt(rs[..n], i);
      MemOfAt(rs, i);
    }
  }

  lemma RecordValues(rs: seq<Record>, mem: Mem)
    requires Ascending(rs) && MemOf(rs) == mem && forall k :: k in mem && mem[k].deleted ==> mem[k].value == []
    ensures forall i :: 0 <= i < |rs| && rs[i].deleted ==> rs[i].value == []
  {
    forall i | 0 <= i < |rs| && rs[i].deleted ensures rs[i].value == [] {
      MemOfAt(rs, i);
    }
  }

  /** A crash inside `open` loses nothing: the surviving logs still replay to what was
      recovered, whichever generations are left and however much was re-appended. */
  lemma CutReopenReplays(s: Sys, cut: map<nat, nat>)
    requires OpenInv(s) && ValidCut(s.disk.wals, cut)
    ensures var wals' := CutWals(s.disk.wals, cut);
            OverlayMems(Logs(wals'), InOrder(wals'.Keys)) == s.mode.o.mem
  {
    hide ListedOk, History, Live, OverlayLevels, MemOf, OverlayMems;
    hide Listed, ShowsPrefix, Replay, Increasing, Elements, InOrder;
    var o, wals := s.mode.o, s.disk.wals;
    var wals' := CutWals(wals, cut);
    assert o.newSeq in wals by { NewestLogged(o, wals.Keys); }
    var es, n := wals[o.newSeq].entries, cut[o.newSeq];
    CutSound(wals, cut);
    InOrderUnique(wals.Keys, o.older + [o.newSeq]);
    OverlayMemsAppend(Logs(wals'), o.older, [o.newSeq]);
    OverlayMemsOne(Logs(wals'), o.newSeq);
    CutOlder(wals, cut, o);
    CutLog(wals, cut, o.newSeq);
    RecordValues(o.records, o.mem);
    ReappendReplays(es[..n], o.records);
    PrefixOfRecords(o.records, n);
    if o.backed { assert o.records[..n] == o.records; }
  }

  lemma NewestLogged(o: Opening, logged: set<nat>)
    requires Elements(o.older + [o.newSeq]) == logged
    ensures o.newSeq in logged
  {
    assert o.newSeq in o.older + [o.newSeq];
  }

  lemma CutOlder(wals: map<nat, Wal>, cut: map<nat, nat>, o: Opening)
    requires ValidCut(wals, cut) && Increasing(o.older + [o.newSeq]) && Elements(o.older + [o.newSeq]) == wals.Keys
    requires forall g :: g in wals && g != o.newSeq ==> wals[g].kept == |wals[g].entries|
    ensures OverlayMems(Logs(CutWals(wals, cut)), o.older) == OverlayMems(Logs(wals), o.older)
  {
    hide Logs, CutWals;
    var gs := o.older + [o.newSeq];
    forall i | 0 <= i < |o.older|
      ensures MemIn(Logs(CutWals(wals, cut)), o.older[i]) == MemIn(Logs(wals), o.older[i])
    {
      assert gs[i] == o.older[i] && gs[i] in Elements(gs) && gs[|o.older|] == o.newSeq;
      CutLog(wals, cut, o.older[i]);
    }
    OverlayMemsFrame(Logs(CutWals(wals, cut)), Logs(wals), o.older);
  }

  lemma OpenCrashKeepsInv(s: Sys, cut: map<nat, nat>)
    requires OpenInv(s) && Enabled(s, Crash(cut))
    ensures DownInv(After(s, Crash(cut)))
  {
    hide LevelsOk, History, Live, OverlayLevels, MemOf, OverlayMems, Listed, FirstFree, Logs, ManifestPresent, OpenGens;
    hide WalsAdmissible, Ascending, CutWals, InOrder;
    var d := s.disk;
    CutSound(d.wals, cut);
    CutReopenReplays(s, cut);
    ListedOkAtRest(d.(wals := CutWals(d.wals, cut)), s.mode.o.newSeq);
    assert s.hist[..|s.hist|] == s.hist;
  }

  lemma OpenAppendKeepsInv(s: Sys)
    requires OpenInv(s) && Enabled(s, OpenAppend)
    ensures OpenInv(After(s, OpenAppend))
  {
    hide ListedOk, History, Live, OverlayLevels, MemOf, OverlayMems;
    hide Listed, Logs, ManifestPresent, Ascending, ShowsPrefix;
    var o, w := s.mode.o, s.disk.wals[s.mode.o.newSeq];
    var w' := AppendTo(w, LogEntry(o.records[|w.entries|]));
    NewestApart(o.older, o.newSeq);
    FreshLogKeepsOverlay(s.disk.wals, o.older, o.newSeq, w');
  }

  lemma NewestApart(gs: seq<nat>, n: nat)
    requires Increasing(gs + [n])
    ensures n !in gs
  {
    forall i | 0 <= i < |gs| ensures gs[i] < n {
      assert (gs + [n])[i] == gs[i] && (gs + [n])[|gs|] == n;
    }
  }

  lemma OpenPersistKeepsInv(s: Sys, n: nat)
    requires OpenInv(s) && Enabled(s, OpenPersist(n))
    ensures OpenInv(After(s, OpenPersist(n)))
  {
    hide ListedOk, History, Live, OverlayLevels, MemOf, OverlayMems;
    hide Listed, Logs, ManifestPresent, Ascending, ShowsPrefix;
    var o, w := s.mode.o, s.disk.wals[s.mode.o.newSeq];
    NewestApart(o.older, o.newSeq);
    FreshLogKeepsOverlay(s.disk.wals, o.older, o.newSeq, w.(kept := n));
  }

  lemma OpenSyncKeepsInv(s: Sys)
    requires OpenInv(s) && Enabled(s, OpenSync)
    ensures OpenInv(After(s, OpenSync))
  {
    hide ListedOk, History, Live, OverlayLevels, MemOf, OverlayMems;
    hide Listed, Logs, ManifestPresent, Ascending, ShowsPrefix;
    var o, w := s.mode.o, s.disk.wals[s.mode.o.newSeq];
    NewestApart(o.older, o.newSeq);
    FreshLogKeepsOverlay(s.disk.wals, o.older, o.newSeq, w.(kept := |w.entries|));
  }

  lemma DeleteOlder(wals: map<nat, Wal>, older: seq<nat>, mem: Mem)
    requires older != [] && older[0] !in older[1..] && OverlayMems(Logs(wals), older) + mem == mem
    ensures OverlayMems(Logs(wals - {older[0]}), older[1..]) + mem == mem
  {
    hide MemIn, OverlayMems;
    var logs := Logs(wals);
    assert older == [older[0]] + older[1..];
    OverlayMemsAppend(logs, [older[0]], older[1..]);
    var x, y := OverlayMems(logs, [older[0]]), OverlayMems(logs, older[1..]);
    forall k | k in y ensures k in mem {
      assert k in x + y && k in (x + y) + mem;
    }
    LogsWithout(wals, older[0], older[1..]);
  }

  lemma LogsWithout(wals: map<nat, Wal>, g: nat, gs: seq<nat>)
    requires g !in gs
    ensures OverlayMems(Logs(wals - {g}), gs) == OverlayMems(Logs(wals), gs)
  {
    OverlayMemsFrame(Logs(wals - {g}), Logs(wals), gs);
  }

  lemma OpenDeleteKeepsInv(s: Sys)
    requires OpenInv(s) && Enabled(s, OpenDelete)
    ensures OpenInv(After(s, OpenDelete))
  {
    hide ListedOk, History, Live, OverlayLevels, MemOf, OverlayMems;
    hide Listed, Logs, ManifestPresent, Ascending, ShowsPrefix;
    hide Increasing, Elements;
    var o, wals := s.mode.o, s.disk.wals;
    var gs := o.older + [o.newSeq];
    ElementsTail(gs);
    assert gs[1..] == o.older[1..] + [o.newSeq];
    assert o.older[0] !in o.older[1..] && o.older[0] != o.newSeq by {
      assert forall i :: 0 <= i < |o.older[1..]| ==> gs[1..][i] == o.older[1..][i];
      assert gs[1..][|o.older| - 1] == o.newSeq;
    }
    assert (wals - {o.older[0]}).Keys == wals.Keys - {o.older[0]};
    DeleteOlder(wals, o.older, o.mem);
    AdmissibleLess(wals, o.older[0]);
  }

  // ---- The engine starts ----

  lemma LoadedIsStored(manifest: Levels<Meta>, ssts: map<Name, seq<Record>>)
    requires ManifestPresent(manifest, ssts)
    ensures Stored(Listed(manifest, ssts), ssts) && MetaLevels(Listed(manifest, ssts)) == manifest
  {
  }

  lemma StartTables(manifest: Levels<Meta>, ssts: map<Name, seq<Record>>, n: nat)
    requires ListedOk(manifest, ssts, n)
    ensures var lv := Listed(manifest, ssts);
            TablesInv(manifest, ssts, lv, n + 1) && MetaLevels(lv) == manifest
  {
    hide AllTablesOk, SeqnosAscend;
    LoadedIsStored(manifest, ssts);
  }

  lemma StartChain(levels: Mem, mem: Mem, log: seq<WalEntry>, hist: seq<WalEntry>, listedTo: nat)
    requires Replay(log) == mem && Live(levels + mem) == History(hist) && ShowsPrefix(levels, hist, listedTo)
    ensures ChainInv(levels, log, hist, |log|, |hist|, if log == [] then |hist| else listedTo, listedTo)
  {
    assert log[..|log|] == log && hist[..|hist|] == hist;
    if log == [] { assert levels + mem == levels; }
  }

  lemma StartLog(w: Wal, o: Opening, hist: seq<WalEntry>)
    requires OpenLog(w, o) && o.backed && Ascending(o.records) && MemOf(o.records) == o.mem
    requires forall k :: k in o.mem && o.mem[k].deleted ==> o.mem[k].value == []
    ensures Replay(w.entries) == o.mem && LogMatches(w, hist, |o.records|, |hist|)
  {
    RecordValues(o.records, o.mem);
    ReappendReplays(w.entries, o.records);
    assert o.records[..|o.records|] == o.records;
  }

  lemma StartGens(newSeq: nat, logged: set<nat>, mem: Mem)
    requires Elements([] + [newSeq]) == logged
    ensures GensInv(Owned(Free, [], newSeq), Unused(Idle), logged, (map[newSeq := mem]).Keys, newSeq + 1)
  {
    assert [] + [newSeq] == Owned(Free, [], newSeq) == Owned(Free, [], newSeq) + Unused(Idle) == [newSeq];
  }

  lemma OpenDoneKeepsInv(s: Sys)
    requires OpenInv(s) && Enabled(s, OpenDone)
    ensures RunInv(After(s, OpenDone))
  {
    hide ListedOk, History, Live, OverlayLevels, MemOf, Listed;
    hide Logs, ManifestPresent, Ascending, ShowsPrefix, Elements, Replay;
    hide Increasing, TablesInv, ChainInv, GensInv, WalsAdmissible, LogMatches;
    var o, d := s.mode.o, s.disk;
    var w := d.wals[o.newSeq];
    StartTables(d.manifest, d.ssts, o.newSeq);
    StartGens(o.newSeq, d.wals.Keys, o.mem);
    StartLog(w, o, s.hist);
    StartChain(OverlayLevels(o.levels), o.mem, w.entries, s.hist, s.listedTo);
    assert OverlayLevels(o.levels) + map[] == OverlayLevels(o.levels);
    assert ManifestPresent(d.manifest, d.ssts) by { ListedPresent(d.manifest, d.ssts, o.newSeq); }
  }

  lemma ListedPresent(manifest: Levels<Meta>, ssts: map<Name, seq<Record>>, n: nat)
    requires ListedOk(manifest, ssts, n)
    ensures ManifestPresent(manifest, ssts)
  {
  }
}
