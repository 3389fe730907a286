/** Nothing waits for what it need not wait for: reads for nobody, the writer for no flush and no
    reader, a flush or compaction only for the moment between a freeze's swap and its end. */
module Progress {
  import opened Bytes
  import opened Records
  import opened Layers
  import opened Merge
  import opened Machine
  import opened Overlays
  import opened Invariants
  import opened CompactSteps
  import opened ReadSteps
  import opened Guarantees
  import opened EngineRuns

  // ---- Reads ----

  /** A read can start and end at any moment, whatever the writer and the flush lock's holder are
      doing; it leaves no trace, and meanwhile its answer is the map's value of that moment. */
  lemma ReadsAreFree(s: Sys, tid: nat, key: Bytes)
    requires RunInv(s) && s.mode.Runs? && tid !in s.mode.e.readers
    ensures Leads(s, [ReadBegin(tid, key), ReadEnd(tid)], s)
    ensures var e := DoReadBegin(s, tid, key).mode.e;
            Answer(e.heap, e.readers[tid]) == Find(History(s.hist[..Applied(s)]), key)
  {
    hide RunInv, Lookup, History;
    LookupIsHistory(s, key);
    Up(s);
    ReadSteps2(s, tid, key);
    hide Enabled, After;
    LeadsOn(s, [], s, ReadBegin(tid, key));
    assert [] + [ReadBegin(tid, key)] == [ReadBegin(tid, key)];
    LeadsOn(s, [ReadBegin(tid, key)], DoReadBegin(s, tid, key), ReadEnd(tid));
    assert [ReadBegin(tid, key)] + [ReadEnd(tid)] == [ReadBegin(tid, key), ReadEnd(tid)];
  }

  lemma ReadSteps2(s: Sys, tid: nat, key: Bytes)
    requires s.mode.Runs? && s.mode.e.walSeq in s.disk.wals && tid !in s.mode.e.readers
    ensures Enabled(s, ReadBegin(tid, key)) && After(s, ReadBegin(tid, key)) == DoReadBegin(s, tid, key)
    ensures Enabled(DoReadBegin(s, tid, key), ReadEnd(tid)) && After(DoReadBegin(s, tid, key), ReadEnd(tid)) == s
  {
    var e := s.mode.e;
    var r := Read(key, e.activeGen, e.imms, e.levels, Applied(s));
    assert e.readers[tid := r] - {tid} == e.readers;
  }

  /** A read once started can end at any moment. */
  lemma ReadsCanEnd(s: Sys, tid: nat)
    requires RunInv(s) && s.mode.Runs? && tid in s.mode.e.readers
    ensures Enabled(s, ReadEnd(tid))
  {
    hide RunInv;
    Up(s);
  }

  // ---- The writer ----

  /** What a thread's steps leave alone: `t` differs from `s` neither in the history nor in what the
      other threads are doing. */
  ghost predicate SameFor(s: Sys, t: Sys, writer: bool, flusher: bool) {
    && s.mode.Runs? && t.mode.Runs? && t.mode.e.readers == s.mode.e.readers
    && (writer ==> t.mode.e.writer == s.mode.e.writer && t.mode.e.activeGen == s.mode.e.activeGen)
    && (flusher ==> t.mode.e.flusher == s.mode.e.flusher && t.mode.e.levels == s.mode.e.levels)
  }

  /** A write that may start can be logged and applied at once, whatever else is going on. */
  lemma WritesAreFree(s: Sys, entry: WalEntry) returns (t: Sys)
    requires RunInv(s) && s.mode.Runs? && s.mode.e.writer.Idle? && Admissible(entry)
    ensures Leads(s, [Append(entry), Apply], t)
    ensures t.hist == s.hist + [entry] && SameFor(s, t, true, true) && t.mode.e.imms == s.mode.e.imms
  {
    hide RunInv, Inv, Leads, DoAppend, DoApply, SameFor;
    InvOfRunning(s);
    Up(s);
    StartHere(s);
    AppendRuns(s, [], s, entry);
    WriteEffect(s, entry);
    ApplyRuns(s, [] + [Append(entry)], DoAppend(s, entry));
    assert [] + [Append(entry)] + [Apply] == [Append(entry), Apply];
    t := DoApply(DoAppend(s, entry));
  }

  lemma WriteEffect(s: Sys, entry: WalEntry)
    requires s.mode.Runs? && s.mode.e.writer.Idle? && s.mode.e.walSeq in s.disk.wals
    ensures var s1 := DoAppend(s, entry);
            && s1.mode.Runs? && s1.mode.e.writer.Appended? && s1.hist != []
            && DoApply(s1).hist == s.hist + [entry] && SameFor(s, DoApply(s1), true, true)
            && DoApply(s1).mode.e.imms == s.mode.e.imms
  {
  }

  lemma StartHere(s: Sys)
    requires Inv(s) && s.mode.Runs?
    ensures Reached(s, [], s)
  {
    hide Inv;
  }

  ghost predicate ByWriter(steps: seq<Step>) {
    forall i :: 0 <= i < |steps| ==> steps[i].Apply? || steps[i].FreezeSwap? || steps[i].FreezeSwitch?
  }

  /** Whatever it is in the middle of, the holder of the log lock can go on to its end alone. */
  lemma WriterFinishes(s: Sys) returns (steps: seq<Step>, t: Sys)
    requires RunInv(s) && s.mode.Runs?
    ensures Leads(s, steps, t) && ByWriter(steps) && |steps| <= 2
    ensures t.mode.Runs? && t.mode.e.writer.Idle? && t.hist == s.hist && SameFor(s, t, false, true)
  {
    hide RunInv, Leads, Enabled, After;
    Up(s);
    AppendedHasHistory(s);
    steps, t := [], s;
    LeadsNowhere(s);
    if s.mode.e.writer.Appended? {
      WriterStep(s, Apply);
      LeadsOn(s, [], s, Apply);
      steps, t := [] + [Apply], After(s, Apply);
    } else if s.mode.e.writer.Swapped? {
      WriterStep(s, FreezeSwitch);
      LeadsOn(s, [], s, FreezeSwitch);
      steps, t := [] + [FreezeSwitch], After(s, FreezeSwitch);
    } else if s.mode.e.writer.Created? {
      WriterStep(s, FreezeSwap);
      LeadsOn(s, [], s, FreezeSwap);
      WriterStep(After(s, FreezeSwap), FreezeSwitch);
      LeadsOn(s, [] + [FreezeSwap], After(s, FreezeSwap), FreezeSwitch);
      steps, t := [] + [FreezeSwap] + [FreezeSwitch], After(After(s, FreezeSwap), FreezeSwitch);
    }
  }

  lemma LeadsNowhere(s: Sys)
    ensures Leads(s, [], s)
  {
  }

  lemma WriterStep(s: Sys, step: Step)
    requires s.mode.Runs? && s.mode.e.walSeq in s.disk.wals
    requires match s.mode.e.writer
      case Idle => false
      case Appended => step == Apply && s.hist != []
      case Created(_) => step == FreezeSwap
      case Swapped(_) => step == FreezeSwitch
    ensures Enabled(s, step)
    ensures var t := After(s, step);
            && t.hist == s.hist && SameFor(s, t, false, true)
            && if step == FreezeSwap then t.mode.e.writer.Swapped? && t.mode.e.walSeq in t.disk.wals
               else t.mode.e.writer.Idle?
  {
  }

  /** Whenever anything is in the active memtable and the log lock is free, it can be frozen. */
  lemma FreezesAreFree(s: Sys)
    requires RunInv(s) && s.mode.Runs? && s.mode.e.writer.Idle? && MemIn(s.mode.e.heap, s.mode.e.activeGen) != map[]
    ensures s.mode.e.walSeq in s.disk.wals
    ensures Leads(s, [FreezeCreate, FreezeSwap, FreezeSwitch], FreezeState(s))
  {
    hide RunInv, Inv, Leads, FreezeState;
    InvOfRunning(s);
    StartHere(s);
    FreezeRuns(s, [], s);
    assert [] + [FreezeCreate] + [FreezeSwap] + [FreezeSwitch] == [FreezeCreate, FreezeSwap, FreezeSwitch];
  }

  /** The buffer of the log being written can go to the operating system up to any entry at any
      moment. */
  lemma BufferDrainsAnytime(s: Sys, n: nat)
    requires RunInv(s) && s.mode.Runs?
    ensures var g := s.mode.e.walSeq;
            && g in s.disk.wals
            && (s.disk.wals[g].kept <= n <= |s.disk.wals[g].entries| ==> Leads(s, [Persist(n)], DoPersist(s, g, n)))
  {
    hide RunInv;
    Up(s);
    PersistStep(s, n);
    hide Enabled, After;
    if s.disk.wals[s.mode.e.walSeq].kept <= n <= |s.disk.wals[s.mode.e.walSeq].entries| {
      LeadsOn(s, [], s, Persist(n));
      assert [] + [Persist(n)] == [Persist(n)];
    }
  }

  lemma PersistStep(s: Sys, n: nat)
    requires s.mode.Runs? && s.mode.e.walSeq in s.disk.wals
    ensures var g := s.mode.e.walSeq;
            s.disk.wals[g].kept <= n <= |s.disk.wals[g].entries| ==>
              Enabled(s, Persist(n)) && After(s, Persist(n)) == DoPersist(s, g, n)
  {
  }

  // ---- Flushes and compactions ----

  /** Between any two of its steps, a flush or compaction can commit unless a freeze is between its
      swap and its end. */
  lemma CommitsAreFree(s: Sys)
    requires RunInv(s) && s.mode.Runs? && !s.mode.e.writer.Swapped?
    ensures s.mode.e.flusher.Built? ==> Enabled(s, FlushCommit)
    ensures s.mode.e.flusher.MergedTo? ==> Enabled(s, CompactCommit)
  {
    hide RunInv;
    Up(s);
  }

  predicate ByFlusher(step: Step) {
    step.FlushAcquire? || step.FlushBuild? || step.FlushCommit? || step.FlushDrained? || step.FlushManifest?
    || step.FlushDelete? || step.FlushRelease? || step.CompactStart? || step.CompactMerge? || step.CompactCommit?
    || step.CompactManifest? || step.CompactDelete? || step.CompactRelease?
  }

  /** Steps of the holder of the flush lock have led from `s` on to `t`. */
  ghost predicate Onward(origin: Sys, steps: seq<Step>, s: Sys, more: seq<Step>, t: Sys) {
    && Reached(origin, more, t) && steps <= more && (forall i :: |steps| <= i < |more| ==> ByFlusher(more[i]))
    && SameFor(s, t, true, false) && t.hist == s.hist
  }

  lemma OnwardStep(origin: Sys, steps: seq<Step>, s: Sys, done: seq<Step>, u: Sys, step: Step, t: Sys)
    requires Onward(origin, steps, s, done, u) && Reached(origin, done + [step], t) && ByFlusher(step)
    requires SameFor(u, t, true, false) && t.hist == u.hist
    ensures Onward(origin, steps, s, done + [step], t)
  {
    hide Reached, ByFlusher;
  }

  lemma OnwardFrom(origin: Sys, steps: seq<Step>, s: Sys)
    requires Reached(origin, steps, s)
    ensures Onward(origin, steps, s, steps, s)
  {
    hide Inv, Leads;
  }

  /** With only log files to delete, the lock is released. */
  lemma {:induction false} FinishDelete(origin: Sys, steps: seq<Step>, s: Sys, done: seq<Step>, u: Sys)
    returns (more: seq<Step>, t: Sys)
    requires Onward(origin, steps, s, done, u) && u.mode.e.flusher.Deleting?
    ensures Onward(origin, steps, s, more, t) && t.mode.e.flusher.Free? && t.mode.e.imms == u.mode.e.imms
    decreases |u.mode.e.flusher.flushed|
  {
    hide Leads, Inv, SameFor, DoFlushDelete, SetFlusher;
    if u.mode.e.flusher.flushed == [] {
      ReleaseRuns(origin, done, u);
      more, t := done + [FlushRelease], SetFlusher(u, Free);
      ReleaseEffect(u);
      OnwardStep(origin, steps, s, done, u, FlushRelease, t);
    } else {
      DeleteRuns(origin, done, u);
      DeleteEffect(u);
      OnwardStep(origin, steps, s, done, u, FlushDelete, DoFlushDelete(u));
      more, t := FinishDelete(origin, steps, s, done + [FlushDelete], DoFlushDelete(u));
    }
  }

  lemma ReleaseEffect(u: Sys)
    requires u.mode.Runs?
    ensures var t := SetFlusher(u, Free);
            SameFor(u, t, true, false) && t.hist == u.hist && t.mode.e.flusher.Free? && t.mode.e.imms == u.mode.e.imms
  {
  }

  lemma DeleteEffect(u: Sys)
    requires u.mode.Runs? && u.mode.e.flusher.Deleting? && u.mode.e.flusher.flushed != []
    ensures var t := DoFlushDelete(u);
            && SameFor(u, t, true, false) && t.hist == u.hist && t.mode.e.imms == u.mode.e.imms
            && t.mode.e.flusher.Deleting? && |t.mode.e.flusher.flushed| == |u.mode.e.flusher.flushed| - 1
  {
  }

  /** A flush under way drains everything and releases the lock. */
  lemma {:induction false} FinishDrain(origin: Sys, steps: seq<Step>, s: Sys, done: seq<Step>, u: Sys)
    returns (more: seq<Step>, t: Sys)
    requires Onward(origin, steps, s, done, u) && u.mode.e.flusher.Draining? && !u.mode.e.writer.Swapped?
    ensures Onward(origin, steps, s, more, t) && t.mode.e.flusher.Free? && t.mode.e.imms == []
    decreases |u.mode.e.imms|
  {
    hide Leads, Inv, SameFor, FlushOneState, SortedRecords, ListState;
    if u.mode.e.imms != [] {
      FlushOneRuns(origin, done, u);
      FlushOneOnward(origin, steps, s, done, u);
      more, t := FinishDrain(origin, steps, s, done + [FlushBuild] + [FlushCommit], FlushOneState(u));
    } else if u.mode.e.flusher.flushed == [] {
      NothingDrainedRuns(origin, done, u);
      more, t := done + [FlushDrained], u.(listedTo := u.mode.e.below, mode := Runs(u.mode.e.(flusher := Free)));
      DrainedEffect(u);
      OnwardStep(origin, steps, s, done, u, FlushDrained, t);
    } else {
      ListRuns(origin, done, u);
      ListOnward(origin, steps, s, done, u);
      more, t := FinishDelete(origin, steps, s, done + [FlushDrained] + [FlushManifest], ListState(u));
    }
  }

  lemma FlushOneOnward(origin: Sys, steps: seq<Step>, s: Sys, done: seq<Step>, u: Sys)
    requires Onward(origin, steps, s, done, u) && u.mode.e.flusher.Draining? && u.mode.e.imms != []
    requires SortedRecords(MemIn(u.mode.e.heap, u.mode.e.imms[0])) != []
    requires Reached(origin, done + [FlushBuild] + [FlushCommit], FlushOneState(u))
    ensures Onward(origin, steps, s, done + [FlushBuild] + [FlushCommit], FlushOneState(u))
    ensures FlushOneState(u).mode.e.flusher.Draining? && |FlushOneState(u).mode.e.imms| == |u.mode.e.imms| - 1
            && FlushOneState(u).mode.e.writer == u.mode.e.writer
  {
    hide Reached, SortedRecords, TableFrom;
  }

  lemma DrainedEffect(u: Sys)
    requires u.mode.Runs?
    ensures SameFor(u, u.(listedTo := u.mode.e.below, mode := Runs(u.mode.e.(flusher := Free))), true, false)
  {
  }

  lemma ListOnward(origin: Sys, steps: seq<Step>, s: Sys, done: seq<Step>, u: Sys)
    requires Onward(origin, steps, s, done, u) && u.mode.e.flusher.Draining?
    requires Reached(origin, done + [FlushDrained] + [FlushManifest], ListState(u))
    ensures Onward(origin, steps, s, done + [FlushDrained] + [FlushManifest], ListState(u))
    ensures ListState(u).mode.e.flusher.Deleting? && ListState(u).mode.e.imms == u.mode.e.imms
  {
    hide Reached;
  }

  /** With only replaced tables to delete, the lock is released. */
  lemma {:induction false} FinishPurge(origin: Sys, steps: seq<Step>, s: Sys, done: seq<Step>, u: Sys)
    returns (more: seq<Step>, t: Sys)
    requires Onward(origin, steps, s, done, u) && u.mode.e.flusher.Purging?
    ensures Onward(origin, steps, s, more, t) && t.mode.e.flusher.Free? && t.mode.e.levels == u.mode.e.levels
    decreases |u.mode.e.flusher.stale|
  {
    hide Leads, Inv, SameFor, DoCompactDelete, SetFlusher;
    if u.mode.e.flusher.stale == [] {
      PurgedRuns(origin, done, u);
      more, t := done + [CompactRelease], SetFlusher(u, Free);
      ReleaseEffect(u);
      ReleaseKeepsLevels(u);
      OnwardStep(origin, steps, s, done, u, CompactRelease, t);
    } else {
      PurgeRuns(origin, done, u);
      PurgeEffect(u);
      OnwardStep(origin, steps, s, done, u, CompactDelete, DoCompactDelete(u));
      more, t := FinishPurge(origin, steps, s, done + [CompactDelete], DoCompactDelete(u));
    }
  }

  lemma ReleaseKeepsLevels(u: Sys)
    requires u.mode.Runs?
    ensures SetFlusher(u, Free).mode.e.levels == u.mode.e.levels
  {
  }

  lemma PurgeEffect(u: Sys)
    requires u.mode.Runs? && u.mode.e.flusher.Purging? && u.mode.e.flusher.stale != []
    ensures var t := DoCompactDelete(u);
            && SameFor(u, t, true, false) && t.hist == u.hist && t.mode.e.levels == u.mode.e.levels
            && t.mode.e.flusher.Purging? && |t.mode.e.flusher.stale| == |u.mode.e.flusher.stale| - 1
  {
  }

  /** A merged table is put in place and listed, and the lock is released. */
  lemma FinishMerged(origin: Sys, steps: seq<Step>, s: Sys, done: seq<Step>, u: Sys) returns (more: seq<Step>, t: Sys)
    requires Onward(origin, steps, s, done, u) && u.mode.e.flusher.MergedTo? && !u.mode.e.writer.Swapped?
    ensures Onward(origin, steps, s, more, t) && t.mode.e.flusher.Free? && t.mode.e.levels.l0 == []
  {
    hide Leads, Inv, SameFor, ReplaceState;
    ReplaceRuns(origin, done, u);
    ReplaceOnward(origin, steps, s, done, u);
    more, t := FinishPurge(origin, steps, s, done + [CompactCommit] + [CompactManifest], ReplaceState(u));
  }

  lemma ReplaceOnward(origin: Sys, steps: seq<Step>, s: Sys, done: seq<Step>, u: Sys)
    requires Onward(origin, steps, s, done, u) && u.mode.e.flusher.MergedTo?
    requires Reached(origin, done + [CompactCommit] + [CompactManifest], ReplaceState(u))
    ensures Onward(origin, steps, s, done + [CompactCommit] + [CompactManifest], ReplaceState(u))
    ensures ReplaceState(u).mode.e.flusher.Purging? && ReplaceState(u).mode.e.levels.l0 == []
  {
    hide Reached;
  }

  /** The tables in the levels can always be merged. */
  lemma MergeAtHand(s: Sys) returns (out: seq<Record>)
    requires RunInv(s) && s.mode.Runs?
    ensures IsMerge(RunsOf(s.mode.e.levels.l0 + s.mode.e.levels.l1), out)
  {
    hide ChainInv, CommittedInv, ShowsPrefix, FilesInv, PromiseInv;
    hide ReadersInv, WalsAdmissible, LogsInv, WriterInv, GensInv;
    hide LevelsOk, Stored, ListedOk, NoneEmpty, OverlayLevels, OverlayMems, Mergeable, OldestFirst, SameRuns, IsMerge;
    LevelsMergeable(s.mode.e.levels, s.mode.e.nextSeq);
    out := MergeExists(RunsOf(s.mode.e.levels.l0 + s.mode.e.levels.l1),
        RunsOf(s.mode.e.levels.l1 + s.mode.e.levels.l0));
  }

  /** Steps that need no more than the program counter, and tables to merge. */
  ghost predicate MayTake(u: Sys, step: Step) {
    u.mode.Runs? &&
    var e := u.mode.e;
    || (step.FlushCommit? && e.flusher.Built? && !e.writer.Swapped?)
    || (step.FlushManifest? && e.flusher.Drained?)
    || (step.CompactManifest? && e.flusher.Replaced?)
    || (step.CompactMerge? && e.flusher.Merging? && IsMerge(RunsOf(e.levels.l0 + e.levels.l1), step.out))
    || (step.FlushAcquire? && e.flusher.Free?)
    || (step.CompactStart? && e.flusher.Free? && e.levels.l0 != [])
  }

  lemma PlainStep(origin: Sys, steps: seq<Step>, s: Sys, done: seq<Step>, u: Sys, step: Step) returns (t: Sys)
    requires Onward(origin, steps, s, done, u)
    requires MayTake(u, step)
    ensures Onward(origin, steps, s, done + [step], t) && t.mode.e.writer == u.mode.e.writer
    ensures step.FlushCommit? || step.FlushAcquire? ==> t.mode.e.flusher.Draining?
    ensures step.FlushManifest? ==> t.mode.e.flusher.Deleting?
    ensures step.CompactManifest? ==> t.mode.e.flusher.Purging?
    ensures step.CompactMerge? ==> t.mode.e.flusher.MergedTo?
    ensures step.CompactStart? ==> t.mode.e.flusher.Merging? && t.mode.e.levels == u.mode.e.levels
  {
    hide Leads, Inv, RunInv, IsMerge, SortedRecords;
    Running(origin, done, u);
    Up(u);
    Step1(origin, done, u, step);
    t := After(u, step);
    OnwardStep(origin, steps, s, done, u, step, t);
  }

  /** Whatever it is in the middle of, the holder of the flush lock can go on to its end and release
      it, for every state of the writer but one: the end of the freeze under way. */
  lemma FlusherFinishes(s: Sys) returns (steps: seq<Step>, t: Sys)
    requires RunInv(s) && s.mode.Runs? && !s.mode.e.writer.Swapped?
    ensures Leads(s, steps, t) && (forall i :: 0 <= i < |steps| ==> ByFlusher(steps[i]))
    ensures t.mode.Runs? && t.mode.e.flusher.Free? && t.hist == s.hist && SameFor(s, t, true, false)
  {
    hide RunInv, Inv, Leads, IsMerge, SameFor, ByFlusher;
    InvOfRunning(s);
    StartHere(s);
    OnwardFrom(s, [], s);
    var out := MergeAtHand(s);
    steps, t := FinishFrom(s, [], s, [], s, out);
  }

  lemma FinishFrom(origin: Sys, steps: seq<Step>, s: Sys, done: seq<Step>, u: Sys, out: seq<Record>)
    returns (more: seq<Step>, t: Sys)
    requires Onward(origin, steps, s, done, u) && !u.mode.e.writer.Swapped?
    requires IsMerge(RunsOf(u.mode.e.levels.l0 + u.mode.e.levels.l1), out)
    ensures Onward(origin, steps, s, more, t) && t.mode.e.flusher.Free?
  {
    hide Leads, Inv, IsMerge, ByFlusher;
    match u.mode.e.flusher
    case Free => more, t := done, u;
    case Draining(_, _) => more, t := FinishDrain(origin, steps, s, done, u);
    case Built(_, _, _, _) =>
      var v := PlainStep(origin, steps, s, done, u, FlushCommit);
      more, t := FinishDrain(origin, steps, s, done + [FlushCommit], v);
    case Drained(_, _, _) =>
      var v := PlainStep(origin, steps, s, done, u, FlushManifest);
      more, t := FinishDelete(origin, steps, s, done + [FlushManifest], v);
    case Deleting(_, _) => more, t := FinishDelete(origin, steps, s, done, u);
    case Merging =>
      var v := PlainStep(origin, steps, s, done, u, CompactMerge(out));
      more, t := FinishMerged(origin, steps, s, done + [CompactMerge(out)], v);
    case MergedTo(_) => more, t := FinishMerged(origin, steps, s, done, u);
    case Replaced(_) =>
      var v := PlainStep(origin, steps, s, done, u, CompactManifest);
      more, t := FinishPurge(origin, steps, s, done + [CompactManifest], v);
    case Purging(_) => more, t := FinishPurge(origin, steps, s, done, u);
  }

  /** A free flush lock can be taken and everything frozen flushed, whatever readers and the writer
      do, unless a freeze is between its swap and its end. */
  lemma FlushesAreFree(s: Sys) returns (steps: seq<Step>, t: Sys)
    requires RunInv(s) && s.mode.Runs? && s.mode.e.flusher.Free? && !s.mode.e.writer.Swapped?
    ensures Leads(s, steps, t) && (forall i :: 0 <= i < |steps| ==> ByFlusher(steps[i]))
    ensures t.mode.Runs? && t.mode.e.flusher.Free? && t.mode.e.imms == [] && t.hist == s.hist
    ensures SameFor(s, t, true, false)
  {
    hide RunInv, Inv, Leads, IsMerge, SameFor, ByFlusher;
    InvOfRunning(s);
    StartHere(s);
    OnwardFrom(s, [], s);
    var v := PlainStep(s, [], s, [], s, FlushAcquire);
    steps, t := FinishDrain(s, [], s, [] + [FlushAcquire], v);
  }

  /** Likewise a compaction, whenever there is anything in level 0. */
  lemma CompactionsAreFree(s: Sys) returns (steps: seq<Step>, t: Sys)
    requires RunInv(s) && s.mode.Runs? && s.mode.e.flusher.Free? && !s.mode.e.writer.Swapped?
             && s.mode.e.levels.l0 != []
    ensures Leads(s, steps, t) && (forall i :: 0 <= i < |steps| ==> ByFlusher(steps[i]))
    ensures t.mode.Runs? && t.mode.e.flusher.Free? && t.mode.e.levels.l0 == [] && t.hist == s.hist
    ensures SameFor(s, t, true, false)
  {
    hide RunInv, Inv, Leads, IsMerge, SameFor, ByFlusher;
    InvOfRunning(s);
    StartHere(s);
    OnwardFrom(s, [], s);
    var out := MergeAtHand(s);
    var v := PlainStep(s, [], s, [], s, CompactStart);
    var w := PlainStep(s, [], s, [] + [CompactStart], v, CompactMerge(out));
    steps, t := FinishMerged(s, [], s, [] + [CompactStart] + [CompactMerge(out)], w);
  }

  /** No state of a run is a dead end: without any crash, everything under way can come to its end. */
  lemma NoDeadEnd(s: Sys) returns (steps: seq<Step>, t: Sys)
    requires RunInv(s) && s.mode.Runs?
    ensures Leads(s, steps, t) && (forall i :: 0 <= i < |steps| ==> !steps[i].Crash?)
    ensures t.mode.Runs? && t.mode.e.writer.Idle? && t.mode.e.flusher.Free? && t.hist == s.hist
    ensures t.mode.e.readers == s.mode.e.readers
  {
    hide RunInv, Inv, Leads;
    InvOfRunning(s);
    var first, mid := WriterFinishes(s);
    LeadsKeepsInv(s, first, mid);
    InvByMode(mid);
    var second;
    second, t := FlusherFinishes(mid);
    LeadsFurther(s, first, mid, second, t);
    steps := first + second;
  }
}
