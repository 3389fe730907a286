/** What every run of the engine keeps, across any interleaving of writers, flushes, compactions
    and readers, any crash, and any number of reopens that may crash themselves. */
module Guarantees {
  import opened Bytes
  import opened Layers
  import opened Machine
  import opened Overlays
  import opened Invariants
  import opened WriterSteps
  import opened FlushSteps
  import opened CompactSteps
  import opened ReadSteps
  import opened OpenSteps

  // ---- The invariant holds of every reachable state ----

  lemma RunStepKeepsInv(s: Sys, step: Step)
    requires RunInv(s) && Enabled(s, step)
    ensures Inv(After(s, step))
  {
    hide RunInv, DownInv, OpenInv, After;
    RunsMode(s);
    match step
    case Append(entry) => AppendKeepsInv(s, entry);
    case Persist(n) => PersistKeepsInv(s, n);
    case Apply => ApplyKeepsInv(s);
    case FreezeCreate => FreezeCreateKeepsInv(s);
    case FreezeSwap => FreezeSwapKeepsInv(s);
    case FreezeSwitch => FreezeSwitchKeepsInv(s);
    case FlushAcquire => FlushAcquireKeepsInv(s);
    case FlushBuild => FlushBuildKeepsInv(s);
    case FlushCommit => FlushCommitKeepsInv(s);
    case FlushDrained => FlushDrainedKeepsInv(s);
    case FlushManifest => FlushManifestKeepsInv(s);
    case FlushDelete => FlushDeleteKeepsInv(s);
    case FlushRelease => FlushReleaseKeepsInv(s);
    case CompactStart => CompactStartKeepsInv(s);
    case CompactMerge(out) => CompactMergeKeepsInv(s, out);
    case CompactCommit => CompactCommitKeepsInv(s);
    case CompactManifest => CompactManifestKeepsInv(s);
    case CompactDelete => CompactDeleteKeepsInv(s);
    case CompactRelease => CompactReleaseKeepsInv(s);
    case ReadBegin(tid, key) => ReadBeginKeepsInv(s, tid, key);
    case ReadEnd(tid) => ReadEndKeepsInv(s, tid);
    case Crash(cut) => RunCrashKeepsInv(s, cut);
    case _ => RunsOnly(s, step);
  }

  /** The opening steps are not enabled once the engine runs. */
  lemma RunsOnly(s: Sys, step: Step)
    requires s.mode.Runs? && Enabled(s, step)
    ensures !(step.OpenLoad? || step.OpenAppend? || step.OpenPersist? || step.OpenSync? || step.OpenDelete?
              || step.OpenDone?)
  {
  }

  lemma RunsMode(s: Sys)
    requires RunInv(s)
    ensures s.mode.Runs?
  {
    hide TablesInv, ChainInv, CommittedInv, ShowsPrefix, FilesInv, PromiseInv;
    hide ReadersInv, WalsAdmissible, LogsInv, GensInv, WriterInv;
  }

  lemma OpenStepKeepsInv(s: Sys, step: Step)
    requires OpenInv(s) && Enabled(s, step)
    ensures Inv(After(s, step))
  {
    assert s.mode.Opens?;
    hide RunInv, DownInv, OpenInv, After;
    match step
    case OpenAppend => OpenAppendKeepsInv(s);
    case OpenPersist(n) => OpenPersistKeepsInv(s, n);
    case OpenSync => OpenSyncKeepsInv(s);
    case OpenDelete => OpenDeleteKeepsInv(s);
    case OpenDone => OpenDoneKeepsInv(s);
    case Crash(cut) => OpenCrashKeepsInv(s, cut);
    case _ =>
  }

  /** Every step of every thread, and every crash, keeps the invariant. */
  lemma StepKeepsInv(s: Sys, step: Step)
    requires Inv(s) && Enabled(s, step)
    ensures Inv(After(s, step))
  {
    if RunInv(s) {
      RunStepKeepsInv(s, step);
    } else if OpenInv(s) {
      OpenStepKeepsInv(s, step);
    } else {
      assert s.mode.Down?;
      hide RunInv, DownInv, OpenInv, After;
      OpenLoadKeepsInv(s);
    }
  }

  lemma FreshHolds()
    ensures Inv(FRESH)
  {
    hide RunInv, OpenInv, Recovered, ListedMem, FirstFree, ListedOk, Live, History, ShowsPrefix;
    FreshShowsNothing();
    FreshListsNothing();
    assert DownInv(FRESH);
  }

  lemma FreshListsNothing()
    ensures ListedOk(FRESH.disk.manifest, FRESH.disk.ssts, FirstFree(FRESH.disk))
    ensures ManifestPresent(FRESH.disk.manifest, FRESH.disk.ssts)
    ensures OverlayLevels(Listed(FRESH.disk.manifest, FRESH.disk.ssts)) == map[]
  {
    hide FirstFree;
  }

  lemma FreshShowsNothing()
    ensures ManifestPresent(FRESH.disk.manifest, FRESH.disk.ssts)
    ensures Live(Recovered(FRESH.disk)) == History(FRESH.hist)
    ensures ShowsPrefix(ListedMem(FRESH.disk.manifest, FRESH.disk.ssts), FRESH.hist, FRESH.listedTo)
  {
    hide FirstFree, ListedOk, InOrder, OverlayLevels, Listed;
    FreshListsNothing();
    var none: seq<WalEntry> := [];
    assert none[..0] == [];
    InOrderUnique({}, []);
    assert FRESH.disk.wals.Keys == {};
    assert OverlayMems(Logs(FRESH.disk.wals), []) == map[];
    assert Recovered(FRESH.disk) == map[];
    assert Live(map[]) == map[];
  }

  lemma {:induction false} RunKeepsInv(tr: seq<Sys>, steps: seq<Step>, i: nat)
    requires IsRun(tr, steps) && i < |tr|
    ensures Inv(tr[i])
  {
    hide Inv, After, Enabled;
    if i == 0 {
      FreshHolds();
    } else {
      RunKeepsInv(tr, steps, i - 1);
      StepKeepsInv(tr[i - 1], steps[i - 1]);
    }
  }

  /** A running state satisfies the running part of the invariant, and so on. */
  lemma InvByMode(s: Sys)
    requires Inv(s)
    ensures s.mode.Runs? ==> RunInv(s)
    ensures s.mode.Opens? ==> OpenInv(s)
    ensures s.mode.Down? ==> DownInv(s)
  {
  }

  // ---- File numbers ----

  /** "Largest number" always means "newest data", across all runs and reopens. */
  lemma NumbersOrderData(tr: seq<Sys>, steps: seq<Step>, i: nat)
    requires IsRun(tr, steps) && i < |tr| && tr[i].mode.Runs?
    ensures var e := tr[i].mode.e;
            && SeqnosAscend(e.levels.l0) && |e.levels.l1| <= 1
            && (forall j :: 0 <= j < |e.levels.l0| && e.levels.l1 != [] ==>
                e.levels.l1[0].meta.seqno < e.levels.l0[j].meta.seqno)
            && SeqnosBelow(e.levels.l0, e.nextSeq) && SeqnosBelow(e.levels.l1, e.nextSeq)
            && Increasing(Owned(e.flusher, e.imms, e.activeGen) + Unused(e.writer))
            && AllBelow(Owned(e.flusher, e.imms, e.activeGen) + Unused(e.writer), e.nextSeq)
            && Elements(Owned(e.flusher, e.imms, e.activeGen) + Unused(e.writer)) == tr[i].disk.wals.Keys
  {
    hide IsRun;
    RunKeepsInv(tr, steps, i);
    InvByMode(tr[i]);
    hide WriterInv, ChainInv, CommittedInv, ShowsPrefix, FilesInv, PromiseInv, ReadersInv, WalsAdmissible, LogsInv;
  }

  // ---- Reads ----

  /** The simple object the engine stands for, at one moment. */
  function AbstractMap(s: Sys): UserMap
    requires s.mode.Runs?
  {
    History(s.hist[..Applied(s)])
  }

  /** In every reachable state the layered lookup gives what the last operation on the key left. */
  lemma EveryLookupIsLastWrite(tr: seq<Sys>, steps: seq<Step>, i: nat, key: Bytes)
    requires IsRun(tr, steps) && i < |tr| && tr[i].mode.Runs?
    ensures var e := tr[i].mode.e;
            Lookup(e.heap, e.activeGen, e.imms, e.levels, key) == Find(AbstractMap(tr[i]), key)
  {
    hide IsRun, Lookup, History, RunInv;
    RunKeepsInv(tr, steps, i);
    InvByMode(tr[i]);
    LookupIsHistory(tr[i], key);
  }

  /** Steps of a running engine only extend the history, and apply at most one operation. */
  lemma RunStepGrows(s: Sys, step: Step)
    requires s.mode.Runs? && Enabled(s, step) && !step.Crash? && (s.mode.e.writer.Appended? ==> s.hist != [])
    ensures After(s, step).mode.Runs?
    ensures s.hist <= After(s, step).hist
    ensures Applied(s) <= Applied(After(s, step)) <= Applied(s) + 1
    ensures Applied(s) <= |s.hist|
  {
  }

  lemma AppendedHasHistory(s: Sys)
    requires RunInv(s)
    ensures s.mode.e.writer.Appended? ==> s.hist != []
  {
    hide TablesInv, ChainInv, CommittedInv, ShowsPrefix, FilesInv;
    hide PromiseInv, ReadersInv, WalsAdmissible, LogsInv, GensInv;
  }

  ghost predicate NoCrash(steps: seq<Step>, i: nat, j: nat) {
    j <= |steps| && forall t :: i <= t < j ==> !steps[t].Crash?
  }

  lemma OneStepGrows(tr: seq<Sys>, steps: seq<Step>, i: nat)
    requires IsRun(tr, steps) && i < |steps| && tr[i].mode.Runs? && !steps[i].Crash?
    ensures tr[i + 1].mode.Runs? && tr[i].hist <= tr[i + 1].hist
    ensures Applied(tr[i]) <= Applied(tr[i + 1]) <= Applied(tr[i]) + 1 && Applied(tr[i]) <= |tr[i].hist|
  {
    hide After, Enabled, Inv, RunInv;
    RunKeepsInv(tr, steps, i);
    InvByMode(tr[i]);
    AppendedHasHistory(tr[i]);
    RunStepGrows(tr[i], steps[i]);
  }

  lemma {:induction false} RunGrows(tr: seq<Sys>, steps: seq<Step>, i: nat, j: nat)
    requires IsRun(tr, steps) && i <= j < |tr| && tr[i].mode.Runs? && NoCrash(steps, i, j)
    ensures tr[j].mode.Runs? && tr[i].hist <= tr[j].hist && Applied(tr[i]) <= Applied(tr[j]) <= |tr[j].hist|
    decreases j
  {
    hide After, Enabled;
    if j > i {
      RunGrows(tr, steps, i, j - 1);
      OneStepGrows(tr, steps, j - 1);
    }
  }

  /** Every prefix length between two moments' applied histories was the applied history of some
      moment between them. */
  lemma {:induction false} MomentOf(tr: seq<Sys>, steps: seq<Step>, i: nat, j: nat, m: nat) returns (t: nat)
    requires IsRun(tr, steps) && i <= j < |tr| && tr[i].mode.Runs? && NoCrash(steps, i, j)
    requires tr[j].mode.Runs? && Applied(tr[i]) <= m <= Applied(tr[j])
    ensures i <= t <= j && tr[t].mode.Runs? && Applied(tr[t]) == m && m <= |tr[t].hist|
    decreases j
  {
    hide IsRun, Applied;
    RunGrows(tr, steps, i, j);
    if Applied(tr[j]) == m {
      t := j;
    } else {
      RunGrows(tr, steps, i, j - 1);
      RunLength(tr, steps);
      OneStepGrows(tr, steps, j - 1);
      t := MomentOf(tr, steps, i, j - 1, m);
    }
  }

  lemma RunLength(tr: seq<Sys>, steps: seq<Step>)
    requires IsRun(tr, steps)
    ensures |tr| == |steps| + 1
  {
  }

  ghost predicate Reading(tr: seq<Sys>, i: nat, j: nat, tid: nat, r: Read) {
    j < |tr| && forall t :: i < t <= j ==> tr[t].mode.Runs? && tid in tr[t].mode.e.readers
                                           && tr[t].mode.e.readers[tid] == r
  }

  lemma ReaderStays(s: Sys, step: Step, tid: nat)
    requires s.mode.Runs? && Enabled(s, step) && !step.Crash? && tid in s.mode.e.readers && step != ReadEnd(tid)
    ensures var s' := After(s, step); s'.mode.Runs? && tid in s'.mode.e.readers
                                      && s'.mode.e.readers[tid] == s.mode.e.readers[tid]
  {
    hide ValidCut, CutWals, Surviving, Listed, SortedRecords, InOrder, InsertBySeq, Without, MemIn, FirstFree;
  }

  lemma {:induction false} ReadLasts(tr: seq<Sys>, steps: seq<Step>, i: nat, j: nat, tid: nat, key: Bytes)
    returns (r: Read)
    requires IsRun(tr, steps) && i < j < |tr| && steps[i] == ReadBegin(tid, key) && NoCrash(steps, i, j)
    requires forall t :: i < t < j ==> steps[t] != ReadEnd(tid)
    ensures Reading(tr, i, j, tid, r) && r.key == key && tr[i].mode.Runs? && r.since == Applied(tr[i])
    decreases j
  {
    if j == i + 1 {
      r := tr[j].mode.e.readers[tid];
    } else {
      r := ReadLasts(tr, steps, i, j - 1, tid, key);
      hide After, Enabled;
      ReaderStays(tr[j - 1], steps[j - 1], tid);
    }
  }

  /** Reads are linearizable: with writers, freezes, flush commits and compaction commits
      interleaving freely, the answer of every read is the abstract map's value at some moment
      between the read's snapshot and its return. */
  lemma ReadsAreLinearizable(tr: seq<Sys>, steps: seq<Step>, i: nat, j: nat, tid: nat, key: Bytes) returns (t: nat)
    requires IsRun(tr, steps) && i < j < |steps|
    requires steps[i] == ReadBegin(tid, key) && steps[j] == ReadEnd(tid) && NoCrash(steps, i, j)
    requires forall k :: i < k < j ==> steps[k] != ReadEnd(tid)
    ensures i <= t <= j && tr[t].mode.Runs? && tr[j].mode.Runs? && tid in tr[j].mode.e.readers
    ensures Answer(tr[j].mode.e.heap, tr[j].mode.e.readers[tid]) == Find(AbstractMap(tr[t]), key)
  {
    hide After, Enabled, Answer, History, Applied, IsRun, NoCrash;
    RunLength(tr, steps);
    var r := ReadLasts(tr, steps, i, j, tid, key);
    RunKeepsInv(tr, steps, j);
    InvByMode(tr[j]);
    var m := FreshAt(tr[j], tid);
    t := MomentOf(tr, steps, i, j, m);
    NoCrashSince(steps, i, t, j);
    RunGrows(tr, steps, t, j);
    SamePrefix(tr[t].hist, tr[j].hist, m);
  }

  lemma NoCrashSince(steps: seq<Step>, i: nat, t: nat, j: nat)
    requires NoCrash(steps, i, j) && i <= t
    ensures NoCrash(steps, t, j)
  {
  }

  lemma FreshAt(s: Sys, tid: nat) returns (m: nat)
    requires s.mode.Runs? && RunInv(s) && tid in s.mode.e.readers
    ensures var r := s.mode.e.readers[tid];
            && r.since <= m <= Applied(s) && m <= |s.hist|
            && Answer(s.mode.e.heap, r) == Find(History(s.hist[..m]), r.key)
  {
    hide RunInv, Answer, History, Applied;
    ReaderIsFresh(s, tid);
    var r := s.mode.e.readers[tid];
    m :| r.since <= m <= Applied(s) && m <= |s.hist| && Answer(s.mode.e.heap, r) == Find(History(s.hist[..m]), r.key);
  }

  lemma SamePrefix(a: seq<WalEntry>, b: seq<WalEntry>, m: nat)
    requires a <= b && m <= |a|
    ensures a[..m] == b[..m]
  {
  }

  lemma ReaderIsFresh(s: Sys, tid: nat)
    requires RunInv(s) && tid in s.mode.e.readers
    ensures Fresh(s.mode.e.heap, s.hist, Applied(s), s.mode.e.readers[tid])
  {
    hide TablesInv, ChainInv, CommittedInv, ShowsPrefix, FilesInv, PromiseInv;
    hide WalsAdmissible, LogsInv, GensInv, WriterInv, Fresh;
  }

  // ---- Crashes ----

  lemma CrashIsPossible(s: Sys, cut: map<nat, nat>)
    requires Inv(s) && !s.mode.Down? && ValidCut(s.disk.wals, cut)
    ensures Enabled(s, Crash(cut))
  {
    hide Inv, RunInv, OpenInv, DownInv;
    InvByMode(s);
    if s.mode.Runs? {
      CrashRecoversPrefix(s, cut);
      LogLengths(s);
      WriterIsLogged(s);
    } else {
      OpenIsLogged(s);
    }
  }

  lemma OpenIsLogged(s: Sys)
    requires OpenInv(s)
    ensures s.mode.Opens? && s.mode.o.newSeq in s.disk.wals
  {
    hide OpenLog, ListedOk, ShowsPrefix, OverlayMems;
    NewestLogged(s.mode.o, s.disk.wals.Keys);
  }

  lemma WriterIsLogged(s: Sys)
    requires RunInv(s)
    ensures s.mode.Runs? && s.mode.e.walSeq in s.disk.wals
  {
  }

  /** A crash can strike anywhere, and opening can always start: nothing the MANIFEST lists is
      ever missing. */
  lemma NothingIsMissing(tr: seq<Sys>, steps: seq<Step>, i: nat, cut: map<nat, nat>)
    requires IsRun(tr, steps) && i < |tr|
    ensures tr[i].mode.Down? ==> Enabled(tr[i], OpenLoad)
    ensures !tr[i].mode.Down? && ValidCut(tr[i].disk.wals, cut) ==> Enabled(tr[i], Crash(cut))
  {
    RunKeepsInv(tr, steps, i);
    if tr[i].mode.Down? {
      DownHasFiles(tr[i]);
    } else if ValidCut(tr[i].disk.wals, cut) {
      hide IsRun, Enabled, Inv;
      CrashIsPossible(tr[i], cut);
    }
  }

  lemma DownHasFiles(s: Sys)
    requires Inv(s) && s.mode.Down?
    ensures Enabled(s, OpenLoad)
  {
    hide Recovered, ShowsPrefix, LevelsOk, ManifestPresent;
  }

  /** Operations once durable stay durable, and the history before them never changes. */
  lemma DurableGrows(s: Sys, step: Step)
    requires Inv(s) && Enabled(s, step)
    ensures 0 <= Durable(s) <= |s.hist|
    ensures Durable(s) <= Durable(After(s, step)) && Durable(s) <= |After(s, step).hist|
    ensures After(s, step).hist[..Durable(s)] == s.hist[..Durable(s)]
  {
    hide Inv, RunInv, DownInv, OpenInv, ValidCut, CutWals, Listed;
    hide SortedRecords, InOrder, InsertBySeq, Without, MemIn, FirstFree;
    InvByMode(s);
    if s.mode.Runs? {
      LogLengths(s);
      RunDurableGrows(s, step);
    } else if step.OpenDone? {
      OpenDoneDurable(s);
    }
  }

  lemma OpenDoneDurable(s: Sys)
    requires OpenInv(s) && Enabled(s, OpenDone)
    ensures Durable(After(s, OpenDone)) == |s.hist|
  {
    hide ListedOk, ShowsPrefix, OverlayMems, OverlayLevels, Live, MemOf, Ascending;
    assert OpenLog(s.disk.wals[s.mode.o.newSeq], s.mode.o);
  }

  lemma RunDurableGrows(s: Sys, step: Step)
    requires RunInv(s) && Enabled(s, step)
    requires 0 <= Durable(s) <= |s.hist|
    ensures Durable(s) <= Durable(After(s, step)) && Durable(s) <= |After(s, step).hist|
    ensures After(s, step).hist[..Durable(s)] == s.hist[..Durable(s)]
  {
    hide TablesInv, ChainInv, CommittedInv, ShowsPrefix, FilesInv, PromiseInv;
    hide ReadersInv, WalsAdmissible, LogsInv, GensInv, NoneEmpty;
    hide Overlay, OverlayLevels, OverlayMems, Listed, SortedRecords, InsertBySeq, Without, Replay;
    match step
    case Crash(cut) => CrashRecoversPrefix(s, cut);
    case FreezeSwitch => LogLengths(s);
    case FreezeCreate => FreezeCreateApart(s);
    case FlushDelete => FlushedApart(s.mode.e, s.disk.wals.Keys);
    case _ =>
  }

  lemma FreezeCreateApart(s: Sys)
    requires RunInv(s)
    ensures s.mode.e.walSeq != s.mode.e.nextSeq
  {
    hide TablesInv, ChainInv, CommittedInv, ShowsPrefix, FilesInv, PromiseInv, ReadersInv, WalsAdmissible, LogsInv;
  }

  lemma {:induction false} DurableForever(tr: seq<Sys>, steps: seq<Step>, i: nat, j: nat)
    requires IsRun(tr, steps) && i <= j < |tr|
    ensures 0 <= Durable(tr[i]) <= |tr[i].hist| && Durable(tr[i]) <= Durable(tr[j]) <= |tr[j].hist|
    ensures tr[j].hist[..Durable(tr[i])] == tr[i].hist[..Durable(tr[i])]
    decreases j
  {
    hide After, Enabled, Durable, Inv;
    RunKeepsInv(tr, steps, j);
    DurableInRange(tr[j]);
    if j > i {
      DurableForever(tr, steps, i, j - 1);
      RunKeepsInv(tr, steps, j - 1);
      DurableGrows(tr[j - 1], steps[j - 1]);
      var n, m := Durable(tr[i]), Durable(tr[j - 1]);
      assert tr[j].hist[..n] == tr[j].hist[..m][..n] && tr[j - 1].hist[..n] == tr[j - 1].hist[..m][..n];
    }
  }

  lemma DurableInRange(s: Sys)
    requires Inv(s)
    ensures 0 <= Durable(s) <= |s.hist|
  {
    InvByMode(s);
    if s.mode.Runs? {
      hide RunInv;
      LogLengths(s);
    }
  }

  /** Between a crash and the next running state only opening, and crashes inside it, happen:
      none of that changes the history. */
  lemma {:induction false} ReopeningKeepsHistory(tr: seq<Sys>, steps: seq<Step>, i: nat, k: nat)
    requires IsRun(tr, steps) && i <= k < |tr| && forall t :: i <= t < k ==> !tr[t].mode.Runs?
    ensures tr[k].hist == tr[i].hist
    decreases k
  {
    if k > i {
      ReopeningKeepsHistory(tr, steps, i, k - 1);
      assert Enabled(tr[k - 1], steps[k - 1]);
      assert tr[k - 1].hist[..|tr[k - 1].hist|] == tr[k - 1].hist;
    }
  }

  /** Crash refinement. Whenever the process crashes, the engine that eventually runs again, after
      any number of attempts to open that may have crashed too, shows exactly a prefix of the
      logged history, and that prefix holds every operation that was durable at the crash. */
  lemma CrashThenReopenShowsPrefix(tr: seq<Sys>, steps: seq<Step>, i: nat, k: nat, key: Bytes)
    requires IsRun(tr, steps) && i < k < |tr| && steps[i].Crash? && tr[k].mode.Runs?
    requires forall t :: i < t < k ==> !tr[t].mode.Runs?
    ensures tr[k].hist <= tr[i].hist && Durable(tr[i]) <= |tr[k].hist|
    ensures var e := tr[k].mode.e; Lookup(e.heap, e.activeGen, e.imms, e.levels, key) == Find(History(tr[k].hist), key)
  {
    ReopeningKeepsHistory(tr, steps, i + 1, k);
    DurableForever(tr, steps, i, i + 1);
    CrashCutsHistory(tr[i], steps[i]);
    LastOpenStep(tr[k - 1], steps[k - 1]);
    hide Enabled, After, Lookup, History;
    EveryLookupIsLastWrite(tr, steps, k, key);
    assert tr[k].hist[..|tr[k].hist|] == tr[k].hist;
  }

  lemma CrashCutsHistory(s: Sys, step: Step)
    requires Enabled(s, step) && step.Crash?
    ensures After(s, step).hist <= s.hist && After(s, step).mode.Down?
  {
  }

  lemma LastOpenStep(s: Sys, step: Step)
    requires Enabled(s, step) && !s.mode.Runs? && After(s, step).mode.Runs?
    ensures Applied(After(s, step)) == |After(s, step).hist|
  {
  }

  // ---- Durability points ----

  /** A synced log makes everything logged so far durable: what `sync_per_write` and the first
      half of `flush` rely on. */
  lemma SyncMakesDurable(s: Sys)
    requires RunInv(s)
    ensures var n := |s.disk.wals[s.mode.e.walSeq].entries|;
            Enabled(s, Persist(n)) && Durable(After(s, Persist(n))) == |s.hist|
  {
    hide TablesInv, ChainInv, CommittedInv, ShowsPrefix, FilesInv, PromiseInv;
    hide ReadersInv, WalsAdmissible, LogsInv, GensInv, WriterInv;
    LogLengths(s);
  }

  lemma PromisesListed(s: Sys)
    requires RunInv(s)
    ensures s.listedTo <= s.mode.e.below
    ensures s.mode.e.flusher.Drained? ==> s.listedTo <= s.mode.e.flusher.upto
  {
    hide TablesInv, CommittedInv, ShowsPrefix, FilesInv, ReadersInv, WalsAdmissible, LogsInv, GensInv, WriterInv;
    hide OverlayLevels, OverlayMems;
  }

  /** What the MANIFEST lists covers ever more of the history, through crashes and reopens. */
  lemma ListedGrows(s: Sys, step: Step)
    requires Inv(s) && Enabled(s, step)
    ensures s.listedTo <= After(s, step).listedTo
  {
    hide Inv, RunInv, ValidCut, CutWals, Surviving, Listed;
    hide SortedRecords, InOrder, InsertBySeq, Without, MemIn, FirstFree;
    InvByMode(s);
    if s.mode.Runs? { PromisesListed(s); }
    hide After, Enabled;
    match step
    case FlushDrained => DrainedListsMore(s);
    case FlushManifest => ManifestListsMore(s);
    case _ => OthersListAlike(s, step);
  }

  lemma DrainedListsMore(s: Sys)
    requires Enabled(s, FlushDrained)
    ensures s.mode.Runs?
    ensures s.listedTo <= s.mode.e.below ==> s.listedTo <= After(s, FlushDrained).listedTo
  {
  }

  lemma ManifestListsMore(s: Sys)
    requires Enabled(s, FlushManifest)
    ensures s.mode.Runs? && s.mode.e.flusher.Drained?
    ensures After(s, FlushManifest).listedTo == s.mode.e.flusher.upto
  {
  }

  lemma OthersListAlike(s: Sys, step: Step)
    requires Enabled(s, step) && !step.FlushDrained? && !step.FlushManifest?
    ensures After(s, step).listedTo == s.listedTo
  {
    hide ValidCut, CutWals, Surviving, Listed, SortedRecords, InOrder, InsertBySeq, Without, MemIn, FirstFree;
  }

  lemma {:induction false} ListedForever(tr: seq<Sys>, steps: seq<Step>, i: nat, j: nat)
    requires IsRun(tr, steps) && i <= j < |tr|
    ensures tr[i].listedTo <= tr[j].listedTo
    decreases j
  {
    hide After, Enabled, Inv;
    if j > i {
      ListedForever(tr, steps, i, j - 1);
      RunKeepsInv(tr, steps, j - 1);
      ListedGrows(tr[j - 1], steps[j - 1]);
    }
  }

  /** The tables the MANIFEST lists, with every log thrown away, show `listedTo` operations. */
  lemma ListedTablesAlone(s: Sys)
    requires Inv(s)
    ensures ManifestPresent(s.disk.manifest, s.disk.ssts)
    ensures ShowsPrefix(ListedMem(s.disk.manifest, s.disk.ssts), s.hist, s.listedTo)
    ensures s.listedTo <= Durable(s)
  {
    InvByMode(s);
    if s.mode.Runs? { LogLengths(s); }
    hide LevelsOk, Stored, ChainInv, CommittedInv, FilesInv, PromiseInv;
    hide ReadersInv, WalsAdmissible, LogsInv, GensInv, WriterInv;
    hide OverlayLevels, Live;
  }

  // ---- Flush ----

  lemma NonEmptyReplay(es: seq<WalEntry>)
    ensures es != [] ==> Replay(es) != map[]
  {
    if es != [] { assert es[|es| - 1].key in Replay(es); }
  }

  /** No freeze is under way and the active memtable is empty: where the locked half of `flush`
      ends, whether or not there was anything to freeze. */
  ghost predicate NothingActive(s: Sys) {
    s.mode.Runs? && s.mode.e.writer.Idle? && MemIn(s.mode.e.heap, s.mode.e.activeGen) == map[]
  }

  /** With nothing in the active memtable, everything logged lies below it. */
  lemma EmptyActiveMeansFrozen(s: Sys)
    requires RunInv(s) && NothingActive(s)
    ensures s.mode.e.below == |s.hist|
  {
    hide TablesInv, CommittedInv, ShowsPrefix, FilesInv, PromiseInv;
    hide ReadersInv, WalsAdmissible, LogsInv, GensInv, Below;
    LogLengths(s);
    NonEmptyReplay(s.disk.wals[s.mode.e.walSeq].entries);
  }

  /** A freeze leaves nothing in the active memtable. */
  lemma FreezeEmptiesActive(s: Sys)
    requires RunInv(s) && Enabled(s, FreezeSwitch)
    ensures NothingActive(After(s, FreezeSwitch))
  {
    hide TablesInv, CommittedInv, ShowsPrefix, FilesInv, PromiseInv;
    hide ReadersInv, WalsAdmissible, LogsInv, GensInv, ChainInv;
  }

  lemma BelowGrows(s: Sys, step: Step)
    requires s.mode.Runs? && RunInv(s) && Enabled(s, step) && !step.Crash?
    ensures After(s, step).mode.Runs? && s.mode.e.below <= After(s, step).mode.e.below
  {
    hide RunInv;
    LogLengths(s);
  }

  ghost predicate Flushing(f: FlushPc, target: nat) {
    (f.Draining? || f.Built? || f.Drained? || f.Deleting?) && f.target == target
  }

  lemma TargetsPromised(s: Sys, target: nat)
    requires RunInv(s) && Flushing(s.mode.e.flusher, target)
    ensures s.mode.e.flusher.Deleting? ==> target <= s.listedTo
    ensures s.mode.e.flusher.Draining? ==> target <= s.mode.e.below
  {
    hide TablesInv, CommittedInv, ShowsPrefix, FilesInv, ReadersInv;
    hide WalsAdmissible, LogsInv, GensInv, WriterInv, ChainInv;
    hide OverlayLevels, OverlayMems;
  }

  /** The holder of `flush_lock` works toward its target until it lets go, and by then the
      MANIFEST lists everything up to the target. */
  lemma FlushKeepsTarget(s: Sys, step: Step, target: nat)
    requires s.mode.Runs? && RunInv(s) && Enabled(s, step) && !step.Crash? && Flushing(s.mode.e.flusher, target)
    ensures var s' := After(s, step);
            s'.mode.Runs? && (Flushing(s'.mode.e.flusher, target) || (s'.mode.e.flusher.Free? && target <= s'.listedTo))
  {
    hide RunInv;
    TargetsPromised(s, target);
  }

  lemma {:induction false} BelowForever(tr: seq<Sys>, steps: seq<Step>, i: nat, j: nat)
    requires IsRun(tr, steps) && i <= j < |tr| && tr[i].mode.Runs? && NoCrash(steps, i, j)
    ensures tr[j].mode.Runs? && tr[i].mode.e.below <= tr[j].mode.e.below
    decreases j
  {
    hide After, Enabled, Inv, RunInv;
    if j > i {
      BelowForever(tr, steps, i, j - 1);
      RunKeepsInv(tr, steps, j - 1);
      InvByMode(tr[j - 1]);
      BelowGrows(tr[j - 1], steps[j - 1]);
    }
  }

  lemma AcquireTargets(s: Sys)
    requires s.mode.Runs? && Enabled(s, FlushAcquire)
    ensures After(s, FlushAcquire).mode.Runs?
    ensures Flushing(After(s, FlushAcquire).mode.e.flusher, s.mode.e.below)
  {
  }

  lemma {:induction false} FlushRuns(tr: seq<Sys>, steps: seq<Step>, i: nat, j: nat)
    requires IsRun(tr, steps) && i < j < |tr| && steps[i] == FlushAcquire && NoCrash(steps, i, j)
    requires tr[i].mode.Runs? && forall t :: i < t < j ==> tr[t].mode.Runs? && !tr[t].mode.e.flusher.Free?
    ensures var target := tr[i].mode.e.below;
            tr[j].mode.Runs? && (Flushing(tr[j].mode.e.flusher, target)
                || (tr[j].mode.e.flusher.Free? && target <= tr[j].listedTo))
    decreases j
  {
    hide After, Enabled, Inv, RunInv;
    if j == i + 1 {
      AcquireTargets(tr[i]);
    } else {
      FlushRuns(tr, steps, i, j - 1);
      RunKeepsInv(tr, steps, j - 1);
      InvByMode(tr[j - 1]);
      FlushKeepsTarget(tr[j - 1], steps[j - 1], tr[i].mode.e.below);
    }
  }

  /** Flush is a durability point. A call to `flush` syncs and freezes, which leaves the active
      memtable empty (`frozen`), later takes `flush_lock` (`taken`) and lets it go (`released`).
      From then on, through other flushes, compactions, crashes and reopens, the tables the
      MANIFEST lists show, with every log thrown away, a history that starts with everything
      logged before the freeze. Other flushers and compactors may have run in between. */
  lemma FlushIsDurable(tr: seq<Sys>, steps: seq<Step>, frozen: nat, taken: nat, released: nat, later: nat)
    requires IsRun(tr, steps) && frozen <= taken < released <= later < |tr| && NoCrash(steps, frozen, released)
    requires NothingActive(tr[frozen]) && steps[taken] == FlushAcquire
    requires forall t :: taken < t < released ==> tr[t].mode.Runs? && !tr[t].mode.e.flusher.Free?
    requires tr[released].mode.Runs? && tr[released].mode.e.flusher.Free?
    ensures var s, hist := tr[later], tr[frozen].hist;
            && |hist| <= s.listedTo && hist <= s.hist
            && ManifestPresent(s.disk.manifest, s.disk.ssts)
            && ShowsPrefix(ListedMem(s.disk.manifest, s.disk.ssts), s.hist, s.listedTo)
  {
    hide After, Enabled, Inv, RunInv, ShowsPrefix, MemIn, Durable;
    RunKeepsInv(tr, steps, frozen);
    InvByMode(tr[frozen]);
    EmptyActiveMeansFrozen(tr[frozen]);
    BelowForever(tr, steps, frozen, taken);
    FlushRuns(tr, steps, taken, released);
    RunGrows(tr, steps, frozen, released);
    RunKeepsInv(tr, steps, released);
    ListedTablesAlone(tr[released]);
    ListedForever(tr, steps, released, later);
    DurableForever(tr, steps, released, later);
    RunKeepsInv(tr, steps, later);
    ListedTablesAlone(tr[later]);
    var n := |tr[frozen].hist|;
    assert tr[later].hist[..n] == tr[later].hist[..Durable(tr[released])][..n];
    assert tr[released].hist[..n] == tr[released].hist[..Durable(tr[released])][..n];
  }

  lemma FrozenHasRecords(writer: WriterPc, imms: seq<nat>, activeGen: nat, heap: map<nat, Mem>, i: nat)
    requires NoneEmpty(writer, imms, activeGen, heap) && i < |imms|
    ensures SortedRecords(MemIn(heap, imms[i])) != []
  {
    SortedRecordsCorrect(MemIn(heap, imms[i]));
  }

  /** A flush in progress can always build the next table: no frozen memtable is empty. */
  lemma FlushNeverStuck(s: Sys)
    requires RunInv(s) && s.mode.e.flusher.Draining? && s.mode.e.imms != []
    ensures Enabled(s, FlushBuild)
  {
    hide TablesInv, CommittedInv, ShowsPrefix, FilesInv, PromiseInv;
    hide ReadersInv, WalsAdmissible, LogsInv, GensInv, WriterInv;
    hide ChainInv, NoneEmpty, SortedRecords, OverlayLevels, OverlayMems;
    var e := s.mode.e;
    FrozenHasRecords(e.writer, e.imms, e.activeGen, e.heap, 0);
  }
}
