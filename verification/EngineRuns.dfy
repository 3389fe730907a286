/** Stretches of machine steps that one engine call takes, and what each does to the state. */
module EngineRuns {
  import opened Records
  import opened Layers
  import opened Merge
  import opened Machine
  import opened Overlays
  import opened Invariants
  import opened WriterSteps
  import opened FlushSteps
  import opened CompactSteps
  import opened OpenSteps
  import opened Guarantees

  /** `steps` lead from `s` to `t`. */
  ghost predicate Leads(s: Sys, steps: seq<Step>, t: Sys)
    decreases |steps|
  {
    if steps == [] then s == t
    else
      var n := |steps| - 1;
      exists mid :: Leads(s, steps[..n], mid) && Enabled(mid, steps[n]) && t == After(mid, steps[n])
  }

  lemma LeadsOn(s: Sys, steps: seq<Step>, mid: Sys, step: Step)
    requires Leads(s, steps, mid) && Enabled(mid, step)
    ensures Leads(s, steps + [step], After(mid, step))
  {
    hide Enabled, After;
    assert (steps + [step])[..|steps|] == steps;
  }

  lemma {:induction false} LeadsKeepsInv(s: Sys, steps: seq<Step>, t: Sys)
    requires Inv(s) && Leads(s, steps, t)
    ensures Inv(t)
    decreases |steps|
  {
    hide Inv, Enabled, After;
    if steps != [] {
      var n := |steps| - 1;
      var mid :| Leads(s, steps[..n], mid) && Enabled(mid, steps[n]) && t == After(mid, steps[n]);
      LeadsKeepsInv(s, steps[..n], mid);
      StepKeepsInv(mid, steps[n]);
    }
  }

  lemma {:induction false} LeadsFurther(a: Sys, first: seq<Step>, b: Sys, second: seq<Step>, c: Sys)
    requires Leads(a, first, b) && Leads(b, second, c)
    ensures Leads(a, first + second, c)
    decreases |second|
  {
    hide Enabled, After;
    if second == [] {
      assert first + second == first;
    } else {
      var n := |second| - 1;
      var mid :| Leads(b, second[..n], mid) && Enabled(mid, second[n]) && c == After(mid, second[n]);
      LeadsFurther(a, first, b, second[..n], mid);
      LeadsOn(a, first + second[..n], mid, second[n]);
      assert (first + second[..n]) + [second[n]] == first + second;
    }
  }

  /** Whatever steps lead to from an empty directory is a state of a run: all that is proved of
      runs holds of what engine objects do, over any series of crashes and reopens. */
  lemma {:induction false} LeadsIsRun(steps: seq<Step>, t: Sys) returns (tr: seq<Sys>)
    requires Leads(FRESH, steps, t)
    ensures IsRun(tr, steps) && tr[|steps|] == t
    decreases |steps|
  {
    hide Enabled, After;
    if steps == [] {
      tr := [FRESH];
    } else {
      var n := |steps| - 1;
      var mid :| Leads(FRESH, steps[..n], mid) && Enabled(mid, steps[n]) && t == After(mid, steps[n]);
      var shorter := LeadsIsRun(steps[..n], mid);
      tr := shorter + [t];
      forall i | 0 <= i < |steps| ensures Enabled(tr[i], steps[i]) && tr[i + 1] == After(tr[i], steps[i]) {
        if i < n { assert steps[..n][i] == steps[i] && tr[i] == shorter[i] && tr[i + 1] == shorter[i + 1]; }
      }
    }
  }

  /** From `origin`, a directory at rest or any other state with the invariant, `steps` have led to
      `s`, where the engine is up. */
  ghost predicate Reached(origin: Sys, steps: seq<Step>, s: Sys) {
    Inv(origin) && Leads(origin, steps, s) && s.mode.Runs?
  }

  lemma Running(origin: Sys, steps: seq<Step>, s: Sys)
    requires Reached(origin, steps, s)
    ensures RunInv(s)
  {
    hide RunInv, DownInv, Inv, OpenInv, Leads;
    LeadsKeepsInv(origin, steps, s);
    InvByMode(s);
  }

  lemma InvOfRunning(s: Sys)
    requires RunInv(s)
    ensures Inv(s) && s.mode.Runs?
  {
    RunsMode(s);
    hide RunInv, OpenInv, DownInv;
  }

  lemma InvOfDown(s: Sys)
    requires DownInv(s)
    ensures Inv(s) && s.mode.Down?
  {
  }

  /** One more step of a running engine. */
  lemma Step1(origin: Sys, steps: seq<Step>, s: Sys, step: Step)
    requires Reached(origin, steps, s) && Enabled(s, step) && !step.Crash?
    ensures Reached(origin, steps + [step], After(s, step))
  {
    hide DownInv, Inv, Enabled, After, Leads;
    LeadsOn(origin, steps, s, step);
    RunsOn(s, step);
  }

  lemma RunsOn(s: Sys, step: Step)
    requires s.mode.Runs? && Enabled(s, step) && !step.Crash?
    ensures After(s, step).mode.Runs?
  {
  }

  // ---- Writer ----

  lemma Up(s: Sys)
    requires RunInv(s)
    ensures s.mode.Runs? && s.mode.e.walSeq in s.disk.wals && s.mode.e.activeGen in s.mode.e.heap
  {
    hide TablesInv, ChainInv, CommittedInv, ShowsPrefix, FilesInv;
    hide PromiseInv, ReadersInv, WalsAdmissible, LogsInv, WriterInv;
    hide GensInv;
    WriterApart(s.mode.e, s.disk.wals.Keys);
  }

  lemma AppendRuns(origin: Sys, steps: seq<Step>, s: Sys, entry: WalEntry)
    requires Reached(origin, steps, s) && s.mode.e.writer.Idle? && Admissible(entry)
    ensures s.mode.e.walSeq in s.disk.wals
    ensures Reached(origin, steps + [Append(entry)], DoAppend(s, entry))
  {
    hide RunInv, DownInv, Inv, Leads;
    Running(origin, steps, s);
    Up(s);
    Step1(origin, steps, s, Append(entry));
  }

  lemma ApplyRuns(origin: Sys, steps: seq<Step>, s: Sys)
    requires Reached(origin, steps, s) && s.mode.e.writer.Appended? && s.hist != []
    ensures Reached(origin, steps + [Apply], DoApply(s))
  {
    hide RunInv, DownInv, Inv, Leads;
    Running(origin, steps, s);
    Up(s);
    Step1(origin, steps, s, Apply);
  }

  function SyncState(s: Sys): Sys
    requires s.mode.Runs? && s.mode.e.walSeq in s.disk.wals
  {
    DoPersist(s, s.mode.e.walSeq, |s.disk.wals[s.mode.e.walSeq].entries|)
  }

  lemma SyncRuns(origin: Sys, steps: seq<Step>, s: Sys)
    requires Reached(origin, steps, s)
    ensures s.mode.e.walSeq in s.disk.wals
    ensures Reached(origin, steps + [Persist(|s.disk.wals[s.mode.e.walSeq].entries|)], SyncState(s))
    ensures Durable(SyncState(s)) == |s.hist|
  {
    hide RunInv, DownInv, Inv, Leads;
    Running(origin, steps, s);
    Up(s);
    SyncMakesDurable(s);
    Step1(origin, steps, s, Persist(|s.disk.wals[s.mode.e.walSeq].entries|));
  }

  function FreezeState(s: Sys): Sys
    requires s.mode.Runs? && s.mode.e.walSeq in s.disk.wals
  {
    var e, w := s.mode.e, s.disk.wals[s.mode.e.walSeq];
    var n := e.nextSeq;
    Sys(s.disk.(wals := s.disk.wals[n := Wal([], 0)][e.walSeq := w.(kept := |w.entries|)]), s.hist, s.listedTo,
        Runs(e.(heap := e.heap[n := map[]], activeGen := n, imms := e.imms + [e.walSeq], walSeq := n,
                nextSeq := n + 1, pre := 0, base := |s.hist|, below := |s.hist|)))
  }

  lemma FreezeSteps(s: Sys)
    requires s.mode.Runs? && Enabled(s, FreezeCreate) && s.mode.e.walSeq != s.mode.e.nextSeq
    ensures var s1 := After(s, FreezeCreate);
            && Enabled(s1, FreezeSwap) && Enabled(After(s1, FreezeSwap), FreezeSwitch)
            && After(After(s1, FreezeSwap), FreezeSwitch) == FreezeState(s)
  {
  }

  lemma FreezeRuns(origin: Sys, steps: seq<Step>, s: Sys)
    requires Reached(origin, steps, s) && s.mode.e.writer.Idle? && MemIn(s.mode.e.heap, s.mode.e.activeGen) != map[]
    ensures s.mode.e.walSeq in s.disk.wals && s.mode.e.walSeq != s.mode.e.nextSeq
    ensures Reached(origin, steps + [FreezeCreate] + [FreezeSwap] + [FreezeSwitch], FreezeState(s))
  {
    hide RunInv, DownInv, Inv, After, Leads, Enabled;
    Running(origin, steps, s);
    Up(s);
    assert Enabled(s, FreezeCreate) by { FreezeEnabled(s); }
    FreezeCreateApart(s);
    FreezeSteps(s);
    Step1(origin, steps, s, FreezeCreate);
    Step1(origin, steps + [FreezeCreate], After(s, FreezeCreate), FreezeSwap);
    Step1(origin, steps + [FreezeCreate] + [FreezeSwap], After(After(s, FreezeCreate), FreezeSwap), FreezeSwitch);
  }

  lemma FreezeEnabled(s: Sys)
    requires s.mode.Runs? && s.mode.e.walSeq in s.disk.wals && s.mode.e.writer.Idle?
    requires MemIn(s.mode.e.heap, s.mode.e.activeGen) != map[]
    ensures Enabled(s, FreezeCreate)
  {
  }

  // ---- Flush ----

  lemma AcquireRuns(origin: Sys, steps: seq<Step>, s: Sys)
    requires Reached(origin, steps, s) && s.mode.e.flusher.Free?
    ensures Reached(origin, steps + [FlushAcquire], DoFlushAcquire(s))
  {
    hide RunInv, DownInv, Inv, Leads;
    Running(origin, steps, s);
    Up(s);
    Step1(origin, steps, s, FlushAcquire);
  }

  function FlushOneState(s: Sys): Sys
    requires s.mode.Runs? && s.mode.e.flusher.Draining? && s.mode.e.imms != []
    requires SortedRecords(MemIn(s.mode.e.heap, s.mode.e.imms[0])) != []
  {
    var e := s.mode.e;
    var t := TableFrom(e.nextSeq, SortedRecords(MemIn(e.heap, e.imms[0])));
    Sys(s.disk.(ssts := s.disk.ssts[Name(0, e.nextSeq) := t.records]), s.hist, s.listedTo,
        Runs(e.(levels := e.levels.(l0 := e.levels.l0 + [t]), imms := e.imms[1..], nextSeq := e.nextSeq + 1,
                flusher := Draining(e.flusher.flushed + [e.imms[0]], e.flusher.target))))
  }

  lemma FlushOneSteps(s: Sys)
    requires s.mode.Runs? && Enabled(s, FlushBuild) && !s.mode.e.writer.Swapped?
    requires SeqnosBelow(s.mode.e.levels.l0, s.mode.e.nextSeq)
             && Without(s.mode.e.imms, s.mode.e.imms[0]) == s.mode.e.imms[1..]
    ensures Enabled(After(s, FlushBuild), FlushCommit)
    ensures After(After(s, FlushBuild), FlushCommit) == FlushOneState(s)
  {
    hide SortedRecords;
    var e := s.mode.e;
    InsertAtEnd(e.levels.l0, TableFrom(e.nextSeq, SortedRecords(MemIn(e.heap, e.imms[0]))));
  }

  lemma FlushFacts(s: Sys)
    requires RunInv(s) && s.mode.e.imms != []
    ensures SeqnosBelow(s.mode.e.levels.l0, s.mode.e.nextSeq)
            && Without(s.mode.e.imms, s.mode.e.imms[0]) == s.mode.e.imms[1..]
  {
    hide ChainInv, CommittedInv, ShowsPrefix, FilesInv, PromiseInv;
    hide ReadersInv, WalsAdmissible, LogsInv, WriterInv, GensInv;
    hide AllTablesOk, Stored, ListedOk, NoneEmpty, Without, OverlayLevels, OverlayMems;
    var e := s.mode.e;
    OwnedIncreasing(Owned(e.flusher, e.imms, e.activeGen), Unused(e.writer), s.disk.wals.Keys, e.heap.Keys, e.nextSeq);
    CommitKeepsSeqs(FlushedOf(e.flusher), e.imms, e.activeGen);
  }

  /** Build and commit the table of the oldest immutable. */
  lemma FlushOneRuns(origin: Sys, steps: seq<Step>, s: Sys)
    requires Reached(origin, steps, s) && !s.mode.e.writer.Swapped? && s.mode.e.flusher.Draining? && s.mode.e.imms != []
    ensures SortedRecords(MemIn(s.mode.e.heap, s.mode.e.imms[0])) != []
    ensures Reached(origin, steps + [FlushBuild] + [FlushCommit], FlushOneState(s))
  {
    hide RunInv, DownInv, Inv, After, Leads, SortedRecords, MemIn;
    Running(origin, steps, s);
    FlushNeverStuck(s);
    FlushFacts(s);
    FlushOneSteps(s);
    hide Enabled;
    Step1(origin, steps, s, FlushBuild);
    Step1(origin, steps + [FlushBuild], After(s, FlushBuild), FlushCommit);
  }

  lemma NothingDrainedRuns(origin: Sys, steps: seq<Step>, s: Sys)
    requires Reached(origin, steps, s) && s.mode.e.flusher.Draining? && s.mode.e.imms == []
             && s.mode.e.flusher.flushed == []
    ensures Reached(origin, steps + [FlushDrained],
              s.(listedTo := s.mode.e.below, mode := Runs(s.mode.e.(flusher := Free))))
  {
    hide RunInv, DownInv, Inv, Leads;
    Running(origin, steps, s);
    Up(s);
    Step1(origin, steps, s, FlushDrained);
  }

  function ListState(s: Sys): Sys
    requires s.mode.Runs? && s.mode.e.flusher.Draining?
  {
    var e := s.mode.e;
    Sys(s.disk.(manifest := MetaLevels(e.levels)), s.hist, e.below,
        Runs(e.(flusher := Deleting(e.flusher.flushed, e.flusher.target))))
  }

  lemma ListSteps(s: Sys)
    requires s.mode.Runs? && Enabled(s, FlushDrained) && s.mode.e.flusher.flushed != []
    ensures Enabled(After(s, FlushDrained), FlushManifest)
    ensures After(After(s, FlushDrained), FlushManifest) == ListState(s)
  {
  }

  /** Every immutable is flushed: list the new tables. */
  lemma ListRuns(origin: Sys, steps: seq<Step>, s: Sys)
    requires Reached(origin, steps, s) && s.mode.e.flusher.Draining? && s.mode.e.imms == []
             && s.mode.e.flusher.flushed != []
    ensures Reached(origin, steps + [FlushDrained] + [FlushManifest], ListState(s))
  {
    hide RunInv, DownInv, Inv, After, Leads;
    Running(origin, steps, s);
    Up(s);
    ListSteps(s);
    Step1(origin, steps, s, FlushDrained);
    Step1(origin, steps + [FlushDrained], After(s, FlushDrained), FlushManifest);
  }

  lemma DeleteRuns(origin: Sys, steps: seq<Step>, s: Sys)
    requires Reached(origin, steps, s) && s.mode.e.flusher.Deleting? && s.mode.e.flusher.flushed != []
    ensures Reached(origin, steps + [FlushDelete], DoFlushDelete(s))
    ensures s.mode.e.flusher.flushed[0] != s.mode.e.walSeq && s.mode.e.walSeq in s.disk.wals
  {
    hide RunInv, DownInv, Inv, Leads;
    Running(origin, steps, s);
    Up(s);
    DeletedApart(s);
    Step1(origin, steps, s, FlushDelete);
  }

  lemma DeletedApart(s: Sys)
    requires s.mode.Runs? && RunInv(s) && s.mode.e.flusher.Deleting? && s.mode.e.flusher.flushed != []
    ensures s.mode.e.flusher.flushed[0] != s.mode.e.walSeq
  {
    hide TablesInv, ChainInv, CommittedInv, ShowsPrefix, FilesInv, PromiseInv;
    hide ReadersInv, WalsAdmissible, LogsInv, GensInv, WriterInv;
    FlushedApart(s.mode.e, s.disk.wals.Keys);
  }

  lemma ReleaseRuns(origin: Sys, steps: seq<Step>, s: Sys)
    requires Reached(origin, steps, s) && s.mode.e.flusher.Deleting? && s.mode.e.flusher.flushed == []
    ensures Reached(origin, steps + [FlushRelease], SetFlusher(s, Free))
  {
    hide RunInv, DownInv, Inv, Leads;
    Running(origin, steps, s);
    Up(s);
    Step1(origin, steps, s, FlushRelease);
  }

  // ---- Compaction ----

  lemma MergeSteps(s: Sys, out: seq<Record>)
    requires s.mode.Runs? && Enabled(s, CompactStart) && IsMerge(RunsOf(s.mode.e.levels.l0 + s.mode.e.levels.l1), out)
    ensures Enabled(After(s, CompactStart), CompactMerge(out))
    ensures After(After(s, CompactStart), CompactMerge(out)) == DoCompactMerge(s, out)
  {
    hide IsMerge;
  }

  lemma MergeRunsOn(origin: Sys, steps: seq<Step>, s: Sys, out: seq<Record>)
    requires Reached(origin, steps, s) && s.mode.e.flusher.Free? && s.mode.e.levels.l0 != []
    requires IsMerge(RunsOf(s.mode.e.levels.l0 + s.mode.e.levels.l1), out)
    ensures Reached(origin, steps + [CompactStart] + [CompactMerge(out)], DoCompactMerge(s, out))
  {
    hide RunInv, DownInv, Inv, After, Leads, IsMerge;
    Running(origin, steps, s);
    Up(s);
    MergeSteps(s, out);
    Step1(origin, steps, s, CompactStart);
    Step1(origin, steps + [CompactStart], After(s, CompactStart), CompactMerge(out));
  }

  function ReplaceState(s: Sys): Sys
    requires s.mode.Runs? && s.mode.e.flusher.MergedTo?
  {
    var e := s.mode.e;
    var lv := Levels([], e.flusher.out);
    Sys(s.disk.(manifest := MetaLevels(lv)), s.hist, s.listedTo,
        Runs(e.(levels := lv, flusher := Purging(NamesOf(0, e.levels.l0) + NamesOf(1, e.levels.l1)))))
  }

  lemma ReplaceSteps(s: Sys)
    requires s.mode.Runs? && Enabled(s, CompactCommit)
    ensures Enabled(After(s, CompactCommit), CompactManifest)
    ensures After(After(s, CompactCommit), CompactManifest) == ReplaceState(s)
  {
  }

  lemma ReplaceRuns(origin: Sys, steps: seq<Step>, s: Sys)
    requires Reached(origin, steps, s) && s.mode.e.flusher.MergedTo? && !s.mode.e.writer.Swapped?
    ensures Reached(origin, steps + [CompactCommit] + [CompactManifest], ReplaceState(s))
  {
    hide RunInv, DownInv, Inv, After, Leads;
    Running(origin, steps, s);
    Up(s);
    ReplaceSteps(s);
    Step1(origin, steps, s, CompactCommit);
    Step1(origin, steps + [CompactCommit], After(s, CompactCommit), CompactManifest);
  }

  lemma PurgeRuns(origin: Sys, steps: seq<Step>, s: Sys)
    requires Reached(origin, steps, s) && s.mode.e.flusher.Purging? && s.mode.e.flusher.stale != []
    ensures Reached(origin, steps + [CompactDelete], DoCompactDelete(s))
  {
    hide RunInv, DownInv, Inv, Leads;
    Running(origin, steps, s);
    Up(s);
    Step1(origin, steps, s, CompactDelete);
  }

  lemma PurgedRuns(origin: Sys, steps: seq<Step>, s: Sys)
    requires Reached(origin, steps, s) && s.mode.e.flusher.Purging? && s.mode.e.flusher.stale == []
    ensures Reached(origin, steps + [CompactRelease], SetFlusher(s, Free))
  {
    hide RunInv, DownInv, Inv, Leads;
    Running(origin, steps, s);
    Up(s);
    Step1(origin, steps, s, CompactRelease);
  }

  /** The live set can be merged as it stands. */
  lemma InputsMergeable(s: Sys)
    requires RunInv(s)
    ensures Mergeable(RunsOf(s.mode.e.levels.l0 + s.mode.e.levels.l1))
  {
    hide ChainInv, CommittedInv, ShowsPrefix, FilesInv, PromiseInv;
    hide ReadersInv, WalsAdmissible, LogsInv, WriterInv, GensInv;
    hide LevelsOk, Stored, ListedOk, NoneEmpty, OverlayLevels, OverlayMems, Mergeable;
    LevelsMergeable(s.mode.e.levels, s.mode.e.nextSeq);
  }

  // ---- Opening ----

  function LogEntries(rs: seq<Record>): (es: seq<WalEntry>)
    ensures |es| == |rs| && forall i :: 0 <= i < |rs| ==> es[i] == LogEntry(rs[i])
  {
    seq(|rs|, i requires 0 <= i < |rs| => LogEntry(rs[i]))
  }

  /** What replaying every generation of the disk gives. */
  function ReplayedMem(d: Disk): Mem {
    OverlayMems(Logs(d.wals), InOrder(d.wals.Keys))
  }

  function ReplayedRecords(d: Disk): seq<Record> {
    SortedRecords(ReplayedMem(d))
  }

  /** The step of `open` that is number `i` in order. */
  function OpenStepAt(i: nat, appends: nat, deletes: nat): Step {
    if i == 0 then OpenLoad
    else if i <= appends then OpenAppend
    else if i == appends + 1 then OpenSync
    else if i <= appends + 1 + deletes then OpenDelete
    else OpenDone
  }

  /** The steps `open` takes from a directory at rest. */
  ghost function StepsOfOpen(s: Sys): (steps: seq<Step>)
    ensures var appends, deletes := |ReplayedRecords(s.disk)|, |InOrder(s.disk.wals.Keys)|;
            |steps| == appends + deletes + 3 && forall i :: 0 <= i < |steps| ==>
                steps[i] == OpenStepAt(i, appends, deletes)
  {
    var appends, deletes := |ReplayedRecords(s.disk)|, |InOrder(s.disk.wals.Keys)|;
    seq(appends + deletes + 3, i requires i >= 0 => OpenStepAt(i, appends, deletes))
  }

  /** Loaded, and `k` records re-appended. */
  ghost function ReappendedState(s: Sys, k: nat): Sys
    requires ManifestPresent(s.disk.manifest, s.disk.ssts) && k <= |ReplayedRecords(s.disk)|
  {
    var d, rs := s.disk, ReplayedRecords(s.disk);
    s.(disk := d.(wals := d.wals[FirstFree(d) := Wal(LogEntries(rs[..k]), 0)]),
       mode := Opens(Opening(Listed(d.manifest, d.ssts), ReplayedMem(d), rs, FirstFree(d), InOrder(d.wals.Keys),
           false)))
  }

  /** Backed by the fresh log, and the oldest `k` generations deleted. */
  ghost function BackedState(s: Sys, k: nat): Sys
    requires ManifestPresent(s.disk.manifest, s.disk.ssts) && k <= |InOrder(s.disk.wals.Keys)|
  {
    var d, rs, gs := s.disk, ReplayedRecords(s.disk), InOrder(s.disk.wals.Keys);
    s.(disk := d.(wals := d.wals[FirstFree(d) := Wal(LogEntries(rs), |rs|)] - Elements(gs[..k])),
       mode := Opens(Opening(Listed(d.manifest, d.ssts), ReplayedMem(d), rs, FirstFree(d), gs[k..], true)))
  }

  /** Where the steps of `open` lead: the recovered memtable, completely backed by the one log. */
  ghost function OpenedState(s: Sys): Sys {
    if !ManifestPresent(s.disk.manifest, s.disk.ssts) then s
    else
      var d, mem, rs, n := s.disk, ReplayedMem(s.disk), ReplayedRecords(s.disk), FirstFree(s.disk);
      Sys(d.(wals := map[n := Wal(LogEntries(rs), |rs|)]), s.hist, s.listedTo,
          Runs(Engine(map[n := mem], n, [], Listed(d.manifest, d.ssts), n, n + 1, Idle, Free, map[],
                      |rs|, |s.hist|, if rs == [] then |s.hist| else s.listedTo)))
  }

  lemma LoadStep(s: Sys)
    requires s.mode.Down? && ManifestPresent(s.disk.manifest, s.disk.ssts)
    ensures Enabled(s, OpenLoad) && After(s, OpenLoad) == ReappendedState(s, 0)
  {
    hide InOrder, OverlayMems, Logs, SortedRecords, FirstFree, Listed, ManifestPresent;
    assert LogEntries(ReplayedRecords(s.disk)[..0]) == [];
  }

  lemma ReappendStep(s: Sys, k: nat)
    requires ManifestPresent(s.disk.manifest, s.disk.ssts) && k < |ReplayedRecords(s.disk)|
    ensures Enabled(ReappendedState(s, k), OpenAppend)
            && After(ReappendedState(s, k), OpenAppend) == ReappendedState(s, k + 1)
  {
    hide InOrder, OverlayMems, Logs, SortedRecords, FirstFree, Listed, ManifestPresent, ReplayedMem, ReplayedRecords;
    var rs := ReplayedRecords(s.disk);
    assert LogEntries(rs[..k + 1]) == LogEntries(rs[..k]) + [LogEntry(rs[k])];
  }

  lemma BackStep(s: Sys)
    requires ManifestPresent(s.disk.manifest, s.disk.ssts)
    ensures var s1 := ReappendedState(s, |ReplayedRecords(s.disk)|);
            Enabled(s1, OpenSync) && After(s1, OpenSync) == BackedState(s, 0)
  {
    hide InOrder, OverlayMems, Logs, SortedRecords, FirstFree, Listed, ManifestPresent, ReplayedMem, ReplayedRecords;
    var rs, gs := ReplayedRecords(s.disk), InOrder(s.disk.wals.Keys);
    assert rs[..|rs|] == rs && gs[0..] == gs && Elements(gs[..0]) == {};
    var d := s.disk;
    assert d.wals[FirstFree(d) := Wal(LogEntries(rs), |rs|)] - {} == d.wals[FirstFree(d) := Wal(LogEntries(rs), |rs|)];
  }

  lemma DropStep(s: Sys, k: nat)
    requires ManifestPresent(s.disk.manifest, s.disk.ssts) && k < |InOrder(s.disk.wals.Keys)|
    ensures Enabled(BackedState(s, k), OpenDelete) && After(BackedState(s, k), OpenDelete) == BackedState(s, k + 1)
  {
    hide InOrder, OverlayMems, Logs, SortedRecords, FirstFree;
    hide Listed, ManifestPresent, ReplayedMem, ReplayedRecords, Elements;
    var gs, rs, d := InOrder(s.disk.wals.Keys), ReplayedRecords(s.disk), s.disk;
    FreshStays(d, k);
    assert gs[..k + 1] == gs[..k] + [gs[k]] && gs[k..][1..] == gs[k + 1..] && gs[k..][0] == gs[k];
    ElementsSnoc(gs[..k], gs[k]);
    DropOneMore(d.wals[FirstFree(d) := Wal(LogEntries(rs), |rs|)], Elements(gs[..k]), gs[k]);
  }

  lemma DropOneMore(wals: map<nat, Wal>, gone: set<nat>, g: nat)
    ensures wals - (gone + {g}) == (wals - gone) - {g}
  {
  }

  /** The fresh log is none of those deleted. */
  lemma FreshStays(d: Disk, k: nat)
    requires k <= |InOrder(d.wals.Keys)|
    ensures FirstFree(d) !in Elements(InOrder(d.wals.Keys)[..k])
  {
    hide FirstFree, InOrder, Increasing;
    FirstFreeIsFree(d);
    InOrderCorrect(d.wals.Keys);
    var gs := InOrder(d.wals.Keys);
    forall i | 0 <= i < k ensures gs[..k][i] != FirstFree(d) {
      assert gs[i] in Elements(gs);
    }
  }

  lemma StartStep(s: Sys)
    requires ManifestPresent(s.disk.manifest, s.disk.ssts)
    ensures var s1 := BackedState(s, |InOrder(s.disk.wals.Keys)|);
            Enabled(s1, OpenDone) && After(s1, OpenDone) == OpenedState(s)
  {
    hide InOrder, OverlayMems, Logs, SortedRecords, FirstFree, Listed;
    hide ManifestPresent, ReplayedMem, ReplayedRecords, Elements, Increasing;
    var gs, rs, d := InOrder(s.disk.wals.Keys), ReplayedRecords(s.disk), s.disk;
    InOrderCorrect(d.wals.Keys);
    FreshStays(d, |gs|);
    assert gs[..|gs|] == gs;
    OnlyFresh(d.wals, FirstFree(d), Wal(LogEntries(rs), |rs|), Elements(gs));
  }

  lemma OnlyFresh(wals: map<nat, Wal>, n: nat, w: Wal, gone: set<nat>)
    requires gone == wals.Keys && n !in gone
    ensures wals[n := w] - gone == map[n := w]
  {
  }

  lemma OpenedEffect(s: Sys)
    requires ManifestPresent(s.disk.manifest, s.disk.ssts)
    ensures OpenedState(s).mode.Runs? && OpenedState(s).hist == s.hist
    ensures OpenedState(s).mode.e.writer.Idle? && OpenedState(s).mode.e.flusher.Free?
  {
    hide InOrder, OverlayMems, Logs, SortedRecords, FirstFree, Listed, ManifestPresent, ReplayedMem, ReplayedRecords;
  }

  lemma {:induction false} ReappendLeads(s: Sys, k: nat)
    requires s.mode.Down? && ManifestPresent(s.disk.manifest, s.disk.ssts) && k <= |ReplayedRecords(s.disk)|
    ensures Leads(s, StepsOfOpen(s)[..k + 1], ReappendedState(s, k))
  {
    hide Enabled, After, ManifestPresent, ReappendedState, InOrder, ReplayedRecords, StepsOfOpen;
    var steps := StepsOfOpen(s);
    if k == 0 {
      LoadStep(s);
      assert steps[..1] == [] + [OpenLoad];
      LeadsOn(s, [], s, OpenLoad);
    } else {
      ReappendLeads(s, k - 1);
      ReappendStep(s, k - 1);
      assert steps[..k + 1] == steps[..k] + [OpenAppend];
      LeadsOn(s, steps[..k], ReappendedState(s, k - 1), OpenAppend);
    }
  }

  lemma {:induction false} BackedLeads(s: Sys, k: nat)
    requires s.mode.Down? && ManifestPresent(s.disk.manifest, s.disk.ssts) && k <= |InOrder(s.disk.wals.Keys)|
    ensures Leads(s, StepsOfOpen(s)[..|ReplayedRecords(s.disk)| + 2 + k], BackedState(s, k))
  {
    hide Enabled, After, ManifestPresent, ReappendedState, BackedState, InOrder, ReplayedRecords, StepsOfOpen, Leads;
    var steps, n := StepsOfOpen(s), |ReplayedRecords(s.disk)|;
    if k == 0 {
      ReappendLeads(s, n);
      BackStep(s);
      assert steps[..n + 2] == steps[..n + 1] + [OpenSync];
      LeadsOn(s, steps[..n + 1], ReappendedState(s, n), OpenSync);
    } else {
      BackedLeads(s, k - 1);
      DropStep(s, k - 1);
      assert steps[..n + 2 + k] == steps[..n + 1 + k] + [OpenDelete];
      LeadsOn(s, steps[..n + 1 + k], BackedState(s, k - 1), OpenDelete);
    }
  }

  /** Opening a directory at rest runs the machine to a state in which the engine is up. */
  lemma OpenRuns(s: Sys)
    requires DownInv(s)
    ensures Reached(s, StepsOfOpen(s), OpenedState(s))
    ensures OpenedState(s).hist == s.hist && OpenedState(s).mode.Runs?
    ensures OpenedState(s).mode.e.writer.Idle? && OpenedState(s).mode.e.flusher.Free?
  {
    hide Enabled, After, BackedState, InOrder, ReplayedRecords, StepsOfOpen, Leads;
    hide Inv, RunInv, DownInv, ReplayedMem, FirstFree, Listed;
    hide OpenedState, ManifestPresent;
    InvOfDown(s);
    DownHasFiles(s);
    OpenNeedsFiles(s);
    OpenedEffect(s);
    var steps, k := StepsOfOpen(s), |InOrder(s.disk.wals.Keys)|;
    var n := |steps| - 1;
    BackedLeads(s, k);
    StartStep(s);
    assert steps == steps[..n] + [OpenDone];
    LeadsOn(s, steps[..n], BackedState(s, k), OpenDone);
    LeadsKeepsInv(s, steps, OpenedState(s));
    InvByMode(OpenedState(s));
  }

  lemma OpenNeedsFiles(s: Sys)
    requires s.mode.Down? && Enabled(s, OpenLoad)
    ensures ManifestPresent(s.disk.manifest, s.disk.ssts)
  {
  }
}
