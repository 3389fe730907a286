/** The steps of a compaction keep the invariant: replacing the whole live set by its merge
    changes nothing a reader can see. */
module CompactSteps {
  import opened Bytes
  import opened Records
  import opened Layers
  import opened Merge
  import opened Machine
  import opened Overlays
  import opened Invariants
  import opened FlushSteps

  // ---- The merge of the live set ----

  lemma {:induction false} ReplayRunsIsOverlay(ts: seq<Table>)
    ensures ReplayRuns(RunsOf(ts)) == Overlay(ts)
  {
    if ts != [] {
      ReplayRunsIsOverlay(ts[..|ts| - 1]);
      assert RunsOf(ts)[..|ts| - 1] == RunsOf(ts[..|ts| - 1]);
    }
  }

  lemma {:induction false} OverlayAppend(a: seq<Table>, b: seq<Table>)
    ensures Overlay(a + b) == Overlay(a) + Overlay(b)
    decreases |b|
  {
    if b == [] {
      assert a + b == a;
    } else {
      hide MemOf;
      OverlayAppend(a, b[..|b| - 1]);
      assert (a + b)[..|a + b| - 1] == a + b[..|b| - 1];
      OverlayAssoc(Overlay(a), Overlay(b[..|b| - 1]), MemOf(b[|b| - 1].records));
    }
  }

  lemma LevelsMergeable(lv: Levels<Table>, bound: nat)
    requires LevelsOk(lv, bound)
    ensures Mergeable(RunsOf(lv.l0 + lv.l1)) && OldestFirst(RunsOf(lv.l1 + lv.l0))
    ensures SameRuns(RunsOf(lv.l0 + lv.l1), RunsOf(lv.l1 + lv.l0))
  {
    hide Ascending, AllFit, SameRuns, OldestFirst;
    SameRunsSwapped(lv.l0, lv.l1);
    LevelsOldestFirst(lv, bound);
  }

  lemma LevelsOldestFirst(lv: Levels<Table>, bound: nat)
    requires LevelsOk(lv, bound)
    ensures OldestFirst(RunsOf(lv.l1 + lv.l0))
  {
    hide AllTablesOk, SeqnosBelow;
  }

  lemma SameRunsSwapped(l0: seq<Table>, l1: seq<Table>)
    ensures SameRuns(RunsOf(l0 + l1), RunsOf(l1 + l0))
  {
    var a, b := l0 + l1, l1 + l0;
    forall i | 0 <= i < |a| ensures RunsOf(a)[i] in RunsOf(b) {
      var j := if i < |l0| then |l1| + i else i - |l0|;
      assert b[j] == a[i] && RunsOf(b)[j] == RunsOf(a)[i];
    }
    forall i | 0 <= i < |b| ensures RunsOf(b)[i] in RunsOf(a) {
      var j := if i < |l1| then |l0| + i else i - |l1|;
      assert a[j] == b[i] && RunsOf(a)[j] == RunsOf(b)[i];
    }
  }

  /** Compaction preserves meaning: the merged table shows what both levels showed together. */
  lemma MergeShowsLevels(lv: Levels<Table>, bound: nat, out: seq<Record>)
    requires LevelsOk(lv, bound) && IsMerge(RunsOf(lv.l0 + lv.l1), out)
    ensures Live(MemOf(out)) == Live(OverlayLevels(lv))
  {
    hide LevelsOk, IsMerge, Live, MemOf, Overlay;
    var sorted := RunsOf(lv.l1 + lv.l0);
    LevelsMergeable(lv, bound);
    MergeIsReplay(RunsOf(lv.l0 + lv.l1), sorted, out);
    ReplayRunsIsOverlay(lv.l1 + lv.l0);
    OverlayAppend(lv.l1, lv.l0);
  }

  /** Merged records are source records, so the builder's caps hold for them. */
  lemma MergeFits(ts: seq<Table>, out: seq<Record>, sorted: seq<Table>)
    requires AllTablesOk(ts) && IsMerge(RunsOf(ts), out)
    requires SameRuns(RunsOf(ts), RunsOf(sorted)) && OldestFirst(RunsOf(sorted))
    ensures AllFit(out)
  {
    forall j | 0 <= j < |out| ensures Fits(out[j]) {
      hide IsMerge;
      var k := out[j].key;
      MergeIsReplay(RunsOf(ts), RunsOf(sorted), out);
      MergedEntry(out, j, ReplayRuns(RunsOf(sorted)));
      var i := ReplayFindsNewest(RunsOf(sorted), k);
      var t :| 0 <= t < |RunsOf(ts)| && RunsOf(ts)[t] == RunsOf(sorted)[i];
      TableEntryFits(ts[t], k);
    }
  }

  lemma MergedEntry(out: seq<Record>, j: nat, m: Mem)
    requires Ascending(out) && j < |out| && MemOf(out) == Stripped(m)
    ensures out[j].key in m && m[out[j].key] == EntryOfRecord(out[j])
  {
    MemOfAt(out, j);
  }

  lemma TableEntryFits(t: Table, k: Bytes)
    requires TableOk(t) && k in MemOf(t.records)
    ensures Fits(RecordOf(k, MemOf(t.records)[k]))
  {
    MemOfKey(t.records, k);
    var i :| 0 <= i < |t.records| && t.records[i].key == k;
    MemOfAt(t.records, i);
  }

  lemma MergedTableOk(lv: Levels<Table>, bound: nat, out: seq<Record>)
    requires LevelsOk(lv, bound) && IsMerge(RunsOf(lv.l0 + lv.l1), out) && out != []
    ensures TableOk(TableFrom(bound, out))
  {
    LevelsMergeable(lv, bound);
    assert AllTablesOk(lv.l0 + lv.l1) by { hide TableOk; }
    MergeFits(lv.l0 + lv.l1, out, lv.l1 + lv.l0);
  }

  // ---- Steps ----

  lemma CompactStartKeepsInv(s: Sys)
    requires RunInv(s) && Enabled(s, CompactStart)
    ensures RunInv(After(s, CompactStart))
  {
    hide TablesInv, LogsInv, ChainInv, CommittedInv, ShowsPrefix, ReadersInv, GensInv, NoneEmpty;
    hide ListedMem, OverlayLevels, OverlayMems, WriterInv, ManifestPresent, WalsAdmissible, Below, AllBelow;
  }

  lemma OverlayOne(t: Table)
    ensures Overlay([t]) == MemOf(t.records)
  {
    assert [t][..0] == [];
  }

  lemma CompactMergeKeepsInv(s: Sys, out: seq<Record>)
    requires RunInv(s) && Enabled(s, CompactMerge(out))
    ensures RunInv(After(s, CompactMerge(out)))
  {
    hide LogsInv, ChainInv, CommittedInv, ShowsPrefix, ReadersInv, GensInv, NoneEmpty, LevelsOk, ListedOk, Stored, Live;
    hide OverlayLevels, OverlayMems, WriterInv, ManifestPresent, WalsAdmissible;
    hide Below, AllBelow, TableOk, Listed, IsMerge;
    var e, d := s.mode.e, s.disk;
    MergeShowsLevels(e.levels, e.nextSeq, out);
    if out != [] {
      var t := TableFrom(e.nextSeq, out);
      MergedTableOk(e.levels, e.nextSeq, out);
      OverlayOne(t);
      NewFileKeepsTables(d.manifest, d.ssts, e.levels, e.nextSeq, 1, out);
      SeqnosBelowBound(d.manifest, d.ssts, e.levels, e.nextSeq);
      GensMonotone(Owned(e.flusher, e.imms, e.activeGen), Unused(e.writer), d.wals.Keys, e.heap.Keys, e.nextSeq,
          e.nextSeq + 1);
    }
  }

  /** Only what the layers show matters to the history. */
  lemma ChainSameLive(lower: Mem, lower': Mem, log: seq<WalEntry>, hist: seq<WalEntry>, pre: nat, base: nat, below: nat,
                      listedTo: nat)
    requires ChainInv(lower, log, hist, pre, base, below, listedTo) && Live(lower) == Live(lower')
    ensures ChainInv(lower', log, hist, pre, base, below, listedTo)
  {
    hide Live, Replay, History;
    LiveOverlay(lower, lower', Replay(log[..pre]));
  }

  lemma ReplaceKeepsTables(manifest: Levels<Meta>, ssts: map<Name, seq<Record>>, lv: Levels<Table>, bound: nat,
                           out: seq<Table>)
    requires TablesInv(manifest, ssts, lv, bound) && |out| <= 1
    requires forall i :: 0 <= i < |out| ==> NewTable(out[i], 1, ssts, lv, bound)
    ensures TablesInv(manifest, ssts, Levels([], out), bound)
    ensures OverlayLevels(Levels([], out)) == Overlay(out)
    ensures var stale := NamesOf(0, lv.l0) + NamesOf(1, lv.l1);
            forall i :: 0 <= i < |stale| ==> NotListed(stale[i], Levels([], out))
  {
    hide TableOk, ListedOk, NotListed;
    OldNotListed(ssts, lv, bound, out);
  }

  lemma OldNotListed(ssts: map<Name, seq<Record>>, lv: Levels<Table>, bound: nat, out: seq<Table>)
    requires |out| <= 1 && forall i :: 0 <= i < |out| ==> NewTable(out[i], 1, ssts, lv, bound)
    ensures var stale := NamesOf(0, lv.l0) + NamesOf(1, lv.l1);
            forall i :: 0 <= i < |stale| ==> NotListed(stale[i], Levels([], out))
  {
    hide TableOk;
    var stale := NamesOf(0, lv.l0) + NamesOf(1, lv.l1);
    forall i | 0 <= i < |stale| ensures NotListed(stale[i], Levels([], out)) {
      if out != [] {
        assert NewTable(out[0], 1, ssts, lv, bound);
        assert stale[i] == if i < |lv.l0| then Name(0, lv.l0[i].meta.seqno) else Name(1, lv.l1[i - |lv.l0|].meta.seqno);
      }
    }
  }

  lemma CommittedSameLive(listed: Mem, levels: Mem, levels': Mem, heap: map<nat, Mem>)
    requires CommittedInv(listed, levels, OverlayMems(heap, [])) && Live(levels') == Live(levels)
    ensures CommittedInv(listed, levels', OverlayMems(heap, []))
  {
  }

  lemma CompactCommitKeepsInv(s: Sys)
    requires RunInv(s) && Enabled(s, CompactCommit)
    ensures RunInv(After(s, CompactCommit))
  {
    hide TablesInv, LogsInv, ChainInv, CommittedInv, ShowsPrefix, ReadersInv;
    hide GensInv, NoneEmpty, Live, NewTable, NotListed;
    hide OverlayLevels, OverlayMems, Overlay, WriterInv, ManifestPresent, WalsAdmissible, AllBelow, ListedMem;
    var e, d, out := s.mode.e, s.disk, s.mode.e.flusher.out;
    var frozen := Frozen(e.writer, e.imms);
    var lv' := Levels([], out);
    ReplaceKeepsTables(d.manifest, d.ssts, e.levels, e.nextSeq, out);
    LiveOverlay(OverlayLevels(e.levels), OverlayLevels(lv'), OverlayMems(e.heap, frozen));
    ChainSameLive(Below(e.levels, e.heap, frozen), Below(lv', e.heap, frozen), d.wals[e.walSeq].entries, s.hist,
                  e.pre, e.base, e.below, s.listedTo);
    CommittedSameLive(ListedMem(d.manifest, d.ssts), OverlayLevels(e.levels), OverlayLevels(lv'), e.heap);
  }

  lemma CurrentManifestShows(listed: Mem, levels: Mem, heap: map<nat, Mem>, hist: seq<WalEntry>, listedTo: nat)
    requires CommittedInv(listed, levels, OverlayMems(heap, [])) && ShowsPrefix(listed, hist, listedTo)
    ensures CommittedInv(levels, levels, OverlayMems(heap, [])) && ShowsPrefix(levels, hist, listedTo)
  {
    assert listed + map[] == listed && levels + map[] == levels;
  }

  lemma CompactManifestKeepsInv(s: Sys)
    requires RunInv(s) && Enabled(s, CompactManifest)
    ensures RunInv(After(s, CompactManifest))
  {
    hide TablesInv, LogsInv, ChainInv, CommittedInv, ShowsPrefix, ReadersInv, GensInv, NoneEmpty, Live, NotListed;
    hide OverlayLevels, OverlayMems, WriterInv, ManifestPresent, WalsAdmissible, Below, AllBelow, ListedMem;
    var e, d := s.mode.e, s.disk;
    ManifestKeepsTables(d.manifest, d.ssts, e.levels, e.nextSeq);
    CurrentManifestShows(ListedMem(d.manifest, d.ssts), OverlayLevels(e.levels), e.heap, s.hist, s.listedTo);
  }

  lemma PurgeKeepsTables(ssts: map<Name, seq<Record>>, lv: Levels<Table>, bound: nat, n: Name)
    requires TablesInv(MetaLevels(lv), ssts, lv, bound) && NotListed(n, lv)
    ensures TablesInv(MetaLevels(lv), ssts - {n}, lv, bound) && ManifestPresent(MetaLevels(lv), ssts - {n})
    ensures ManifestPresent(MetaLevels(lv), ssts)
    ensures ListedMem(MetaLevels(lv), ssts - {n}) == ListedMem(MetaLevels(lv), ssts)
  {
    hide LevelsOk, OverlayLevels;
    assert forall i :: 0 <= i < |lv.l0| ==> NamesOf(0, lv.l0)[i] != n;
    assert forall i :: 0 <= i < |lv.l1| ==> NamesOf(1, lv.l1)[i] != n;
    ListedIsLevels(ssts, lv);
    ListedIsLevels(ssts - {n}, lv);
  }

  lemma CompactDeleteKeepsInv(s: Sys)
    requires RunInv(s) && Enabled(s, CompactDelete)
    ensures RunInv(After(s, CompactDelete))
  {
    hide TablesInv, LogsInv, ChainInv, CommittedInv, ShowsPrefix, ReadersInv, GensInv, NoneEmpty, Live, NotListed;
    hide OverlayLevels, OverlayMems, WriterInv, ManifestPresent, WalsAdmissible, Below, AllBelow, ListedMem;
    var e, d := s.mode.e, s.disk;
    PurgeKeepsTables(d.ssts, e.levels, e.nextSeq, e.flusher.stale[0]);
  }

  lemma CompactReleaseKeepsInv(s: Sys)
    requires RunInv(s) && Enabled(s, CompactRelease)
    ensures RunInv(After(s, CompactRelease))
  {
    hide TablesInv, LogsInv, ChainInv, CommittedInv, ShowsPrefix, ReadersInv, GensInv, NoneEmpty;
    hide ListedMem, OverlayLevels, OverlayMems, WriterInv, ManifestPresent, WalsAdmissible, Below, AllBelow;
  }
}
