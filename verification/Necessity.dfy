/** Why the guards are there: what goes wrong without them, and exactly when deleting logs out of
    order is harmless. */
module Necessity {
  import opened Outcomes
  import opened Bytes
  import opened Records
  import opened Layers
  import opened Machine
  import opened Overlays
  import opened Invariants
  import opened Guarantees
  import opened EngineRuns

  const K: Bytes := [1]
  const J: Bytes := [2]

  const FIRST := WalEntry(Put, K, [1])
  const SECOND := WalEntry(Put, K, [2])
  const THIRD := WalEntry(Put, J, [1])

  /** Two writes to one key, then a write to another. */
  const WRITES: seq<WalEntry> := [FIRST] + [SECOND] + [THIRD]

  const MIXED: UserMap := map[K := [1], J := [1]]

  lemma Prefixes()
    ensures WRITES[..0] == [] && WRITES[..1] == [FIRST] && WRITES[..2] == [FIRST] + [SECOND] && WRITES[..3] == WRITES
  {
  }

  /** The history never shows the first write to `K` together with the write to `J`. */
  lemma MixedIsNoPrefix()
    ensures forall n :: 0 <= n <= |WRITES| ==> History(WRITES[..n]) != MIXED
  {
    Prefixes();
    assert [] + [FIRST] == [FIRST];
    HistorySnoc([], FIRST);
    HistorySnoc([FIRST], SECOND);
    HistorySnoc([FIRST] + [SECOND], THIRD);
    assert K != J && [1] != [2];
    assert MIXED[K] == [1] && J in MIXED;
    assert J !in History([]) && J !in History([FIRST]) && J !in History([FIRST] + [SECOND]);
    assert History(WRITES)[K] == [2];
    forall n | 0 <= n <= |WRITES| ensures History(WRITES[..n]) != MIXED {
      assert n == 0 || n == 1 || n == 2 || n == 3;
    }
  }

  lemma Replays()
    ensures Replay(WRITES) == map[K := Entry([2], false), J := Entry([1], false)]
    ensures Replay(WRITES[..1]) == map[K := Entry([1], false)]
  {
    Prefixes();
    assert [] + [FIRST] == [FIRST];
    ReplaySnoc([], FIRST);
    ReplaySnoc([FIRST], SECOND);
    ReplaySnoc([FIRST] + [SECOND], THIRD);
  }

  // ---- The machine without one guard ----

  /** The steps of the machine, but a flush may also commit while a freeze has swapped the memtables
      and not yet replaced the log writer: what `state_lock` rules out. */
  ghost predicate EnabledUnguarded(s: Sys, step: Step) {
    Enabled(s, step) || (step.FlushCommit? && s.mode.Runs? && s.mode.e.walSeq in s.disk.wals && s.mode.e.flusher.Built?)
  }

  ghost function AfterUnguarded(s: Sys, step: Step): Sys
    requires EnabledUnguarded(s, step)
  {
    if step.FlushCommit? then DoFlushCommit(s) else After(s, step)
  }

  ghost predicate LeadsUnguarded(s: Sys, steps: seq<Step>, t: Sys)
    decreases |steps|
  {
    if steps == [] then s == t
    else
      var n := |steps| - 1;
      exists mid :: LeadsUnguarded(s, steps[..n], mid) && EnabledUnguarded(mid, steps[n])
        && t == AfterUnguarded(mid, steps[n])
  }

  lemma UnguardedOn(s: Sys, steps: seq<Step>, mid: Sys, step: Step)
    requires LeadsUnguarded(s, steps, mid) && EnabledUnguarded(mid, step)
    ensures LeadsUnguarded(s, steps + [step], AfterUnguarded(mid, step))
  {
    hide EnabledUnguarded, AfterUnguarded;
    assert (steps + [step])[..|steps|] == steps;
  }

  lemma GuardedStep(s: Sys, step: Step)
    requires Enabled(s, step)
    ensures EnabledUnguarded(s, step) && AfterUnguarded(s, step) == After(s, step)
  {
    hide SortedRecords, InOrder, FirstFree, CutWals, Listed;
  }

  lemma {:induction false} GuardedIsUnguarded(s: Sys, steps: seq<Step>, t: Sys)
    requires Leads(s, steps, t)
    ensures LeadsUnguarded(s, steps, t)
    decreases |steps|
  {
    hide Enabled, After, EnabledUnguarded, AfterUnguarded;
    if steps != [] {
      var n := |steps| - 1;
      var mid :| Leads(s, steps[..n], mid) && Enabled(mid, steps[n]) && t == After(mid, steps[n]);
      GuardedIsUnguarded(s, steps[..n], mid);
      GuardedStep(mid, steps[n]);
    }
  }

  const NO_TABLES: Levels<Table> := Levels([], [])

  /** A fresh engine after writing `es` and syncing nothing. */
  function Written(es: seq<WalEntry>): Sys {
    Sys(Disk(Levels([], []), map[], map[1 := Wal(es, 0)]), es, 0,
        Runs(Engine(map[1 := Replay(es)], 1, [], NO_TABLES, 1, 2, Idle, Free, map[], 0, 0, 0)))
  }

  lemma FreshIsWritten()
    ensures OpenedState(FRESH) == Written([])
  {
    InOrderUnique({}, []);
    assert FRESH.disk.wals.Keys == {};
    assert SortedRecords(map[]) == [];
    hide InOrder, SortedRecords;
    assert OverlayMems(Logs(FRESH.disk.wals), []) == map[];
    assert ReplayedMem(FRESH.disk) == map[] && ReplayedRecords(FRESH.disk) == [];
    assert FirstFree(FRESH.disk) == 1;
    assert LogEntries([]) == [];
    assert Listed(FRESH.disk.manifest, FRESH.disk.ssts) == NO_TABLES;
  }

  lemma WriteOne(steps: seq<Step>, es: seq<WalEntry>, e: WalEntry)
    requires Reached(FRESH, steps, Written(es)) && Admissible(e)
    ensures Reached(FRESH, steps + [Append(e)] + [Apply], Written(es + [e]))
  {
    hide RunInv, Leads, DownInv, Written, DoApply;
    WrittenMore(es, e);
    AppendRuns(FRESH, steps, Written(es), e);
    ApplyRuns(FRESH, steps + [Append(e)], DoAppend(Written(es), e));
  }

  lemma WrittenMore(es: seq<WalEntry>, e: WalEntry)
    ensures var s := Written(es);
            && s.mode.Runs? && s.mode.e.writer.Idle? && s.mode.e.walSeq in s.disk.wals
            && DoAppend(s, e).mode.Runs? && DoAppend(s, e).mode.e.writer.Appended? && DoAppend(s, e).hist != []
            && DoApply(DoAppend(s, e)) == Written(es + [e])
  {
    ReplaySnoc(es, e);
    hide Replay;
    var after := DoApply(DoAppend(Written(es), e));
    assert map[1 := Wal(es, 0)][1 := Wal(es + [e], 0)] == map[1 := Wal(es + [e], 0)];
    assert map[1 := Replay(es)][1 := Replay(es + [e])] == map[1 := Replay(es + [e])];
    assert after.mode.e.heap == map[1 := Replay(es + [e])];
  }

  lemma ThreeWrites() returns (steps: seq<Step>)
    ensures Reached(FRESH, steps, Written(WRITES))
  {
    hide RunInv, Leads, Written, StepsOfOpen, OpenedState;
    FreshHolds();
    InvByMode(FRESH);
    OpenRuns(FRESH);
    FreshIsWritten();
    steps := StepsOfOpen(FRESH);
    WriteOne(steps, [], FIRST);
    assert [] + [FIRST] == [FIRST];
    steps := steps + [Append(FIRST)] + [Apply];
    WriteOne(steps, [FIRST], SECOND);
    steps := steps + [Append(SECOND)] + [Apply];
    WriteOne(steps, [FIRST] + [SECOND], THIRD);
    steps := steps + [Append(THIRD)] + [Apply];
  }

  const WALS: map<nat, Wal> := map[1 := Wal(WRITES, 0), 2 := Wal([], 0)]

  function TwoMems(): map<nat, Mem> { map[1 := Replay(WRITES), 2 := map[]] }

  /** The next generation's log is created and the memtables are swapped. */
  function SwappedOver(): Sys {
    Sys(Disk(Levels([], []), map[], WALS), WRITES, 0,
        Runs(Engine(TwoMems(), 2, [1], NO_TABLES, 1, 3, Swapped(2), Free, map[], 0, 0, 0)))
  }

  /** Then a flush builds the table of the frozen memtable. */
  function SwappedAndBuilt(t: Table): Sys {
    Sys(Disk(Levels([], []), map[Name(0, 3) := t.records], WALS), WRITES, 0,
        Runs(Engine(TwoMems(), 2, [1], NO_TABLES, 1, 4, Swapped(2), Built([], 0, 1, t), map[], 0, 0, 0)))
  }

  lemma SwapOver()
    ensures var s := Written(WRITES);
            && Enabled(s, FreezeCreate) && After(s, FreezeCreate) == DoFreezeCreate(s)
            && Enabled(DoFreezeCreate(s), FreezeSwap) && After(DoFreezeCreate(s), FreezeSwap) == SwappedOver()
  {
    assert K in Replay(WRITES) by { Replays(); }
    hide Replay, WRITES;
    assert map[1 := Wal(WRITES, 0)][2 := Wal([], 0)] == WALS;
    assert map[1 := Replay(WRITES)][2 := map[]] == TwoMems();
    assert [] + [1] == [1];
  }

  lemma FrozenIsNotEmpty()
    ensures SortedRecords(Replay(WRITES)) != []
  {
    Replays();
    SortedRecordsCorrect(Replay(WRITES));
    hide SortedRecords, WRITES;
  }

  lemma AcquireAndBuild(t: Table)
    requires SortedRecords(Replay(WRITES)) != [] && t == TableFrom(3, SortedRecords(Replay(WRITES)))
    ensures Enabled(SwappedOver(), FlushAcquire) && After(SwappedOver(), FlushAcquire) == DoFlushAcquire(SwappedOver())
    ensures Enabled(DoFlushAcquire(SwappedOver()), FlushBuild)
    ensures After(DoFlushAcquire(SwappedOver()), FlushBuild) == SwappedAndBuilt(t)
  {
    hide SortedRecords, Replay, WRITES;
    assert MemIn(TwoMems(), 1) == Replay(WRITES);
    var none: map<Name, seq<Record>> := map[];
    assert none[Name(0, 3) := t.records] == map[Name(0, 3) := t.records];
  }

  const LATE_CUT: map<nat, nat> := map[1 := 1, 2 := 0]

  /** The table is committed by the step the guard rules out. */
  function CommittedUnguarded(t: Table): Sys {
    Sys(Disk(Levels([], []), map[Name(0, 3) := t.records], WALS), WRITES, 0,
        Runs(Engine(TwoMems(), 2, [], Levels([t], []), 1, 4, Swapped(2), Draining([1], 0), map[], 0, 0, 0)))
  }

  /** Then it is listed. */
  function ListedUnguarded(t: Table): Sys {
    Sys(Disk(Levels([t.meta], []), map[Name(0, 3) := t.records], WALS), WRITES, 0,
        Runs(Engine(TwoMems(), 2, [], Levels([t], []), 1, 4, Swapped(2), Deleting([1], 0), map[], 0, 0, 0)))
  }

  lemma CommitUnguarded(t: Table)
    ensures EnabledUnguarded(SwappedAndBuilt(t), FlushCommit)
    ensures AfterUnguarded(SwappedAndBuilt(t), FlushCommit) == CommittedUnguarded(t)
  {
    hide Replay, WRITES, Enabled;
    assert InsertBySeq([], t) == [t];
    assert Without([1], 1) == [] by { assert [1][..0] == []; }
    assert [] + [1] == [1];
  }

  lemma ListUnguarded(t: Table)
    ensures var s := CommittedUnguarded(t);
            && Enabled(s, FlushDrained) && After(s, FlushDrained) == DoFlushDrained(s)
            && Enabled(DoFlushDrained(s), FlushManifest)
              && After(DoFlushDrained(s), FlushManifest) == ListedUnguarded(t)
  {
    hide Replay, WRITES;
    assert Metas([t]) == [t.meta] && Metas([]) == [];
  }

  /** The crash leaves one entry of the log behind the table. */
  lemma CrashUnguarded(t: Table)
    ensures Enabled(ListedUnguarded(t), Crash(LATE_CUT))
            && After(ListedUnguarded(t), Crash(LATE_CUT)).disk == MixedDisk(t)
  {
    hide Replay, CutWals, ValidCut, WRITES;
    LateCut();
  }

  lemma LateCut()
    ensures ValidCut(WALS, LATE_CUT) && CutWals(WALS, LATE_CUT) == map[1 := Wal(WRITES[..1], 1), 2 := Wal([], 0)]
    ensures |WRITES| == 3
  {
    var none: seq<WalEntry> := [];
    assert none[..0] == [];
  }

  lemma OneThenTwo()
    ensures InOrder({1, 2}) == [1] + [2]
  {
    hide InOrder;
    InOrderUnique({1, 2}, [1, 2]);
  }

  lemma TwoLogs(es: seq<WalEntry>)
    ensures var wals := map[1 := Wal(es, 1), 2 := Wal([], 0)];
            OverlayMems(Logs(wals), InOrder(wals.Keys)) == Replay(es)
  {
    hide OverlayMems, InOrder;
    var wals := map[1 := Wal(es, 1), 2 := Wal([], 0)];
    OneThenTwo();
    assert wals.Keys == {1, 2};
    OverlayMemsAppend(Logs(wals), [1], [2]);
    OverlayMemsOne(Logs(wals), 1);
    OverlayMemsOne(Logs(wals), 2);
  }

  lemma MixedLive()
    ensures Live(map[K := Entry([2], false), J := Entry([1], false)] + map[K := Entry([1], false)]) == MIXED
  {
    assert K != J;
  }

  lemma TableUnderCutLog(t: Table, d: Disk)
    requires ManifestPresent(d.manifest, d.ssts) && Listed(d.manifest, d.ssts) == Levels([t], [])
    requires t.records == SortedRecords(Replay(WRITES))
    requires OverlayMems(Logs(d.wals), InOrder(d.wals.Keys)) == Replay(WRITES[..1])
    ensures Live(Recovered(d)) == MIXED
  {
    hide Live, MIXED, WRITES, SortedRecords, Listed, MemOf, OverlayMems, InOrder, Logs, Replay;
    SortedRecordsCorrect(Replay(WRITES));
    Replays();
    assert [t][..0] == [];
    assert OverlayLevels(Levels([t], [])) == MemOf(t.records);
    MixedLive();
  }

  function MixedDisk(t: Table): Disk {
    Disk(Levels([t.meta], []), map[Name(0, 3) := t.records], map[1 := Wal(WRITES[..1], 1), 2 := Wal([], 0)])
  }

  lemma MixedRecovered(t: Table)
    requires t.records == SortedRecords(Replay(WRITES)) && t.meta.seqno == 3
    ensures var d := MixedDisk(t); ManifestPresent(d.manifest, d.ssts) && Live(Recovered(d)) == MIXED
  {
    hide Recovered, History, Live, MIXED, SortedRecords;
    var d := MixedDisk(t);
    assert Listed(d.manifest, d.ssts) == Levels([t], []);
    TwoLogs(WRITES[..1]);
    TableUnderCutLog(t, d);
  }

  lemma SwapAndBuildLead(steps: seq<Step>, t: Table)
    requires Leads(FRESH, steps, Written(WRITES))
    requires SortedRecords(Replay(WRITES)) != [] && t == TableFrom(3, SortedRecords(Replay(WRITES)))
    ensures Leads(FRESH, steps + [FreezeCreate] + [FreezeSwap] + [FlushAcquire] + [FlushBuild], SwappedAndBuilt(t))
  {
    hide Enabled, After, Leads, Written, SwappedOver, SwappedAndBuilt, SortedRecords, Replay;
    SwapOver();
    LeadsOn(FRESH, steps, Written(WRITES), FreezeCreate);
    LeadsOn(FRESH, steps + [FreezeCreate], After(Written(WRITES), FreezeCreate), FreezeSwap);
    AcquireAndBuild(t);
    var swapped := steps + [FreezeCreate] + [FreezeSwap];
    LeadsOn(FRESH, swapped, SwappedOver(), FlushAcquire);
    LeadsOn(FRESH, swapped + [FlushAcquire], After(SwappedOver(), FlushAcquire), FlushBuild);
  }

  /** `state_lock` is held until the old log writer is dropped, and a flush commits under it. On the
      machine without that guard there is a run, with one crash at its end, whose disk shows what
      no prefix of the history shows: the table of the frozen memtable is listed while its log
      still sits in the writer's buffer. */
  lemma CommitBeforeHandoverLosesOrder() returns (steps: seq<Step>, s: Sys, cut: map<nat, nat>)
    ensures LeadsUnguarded(FRESH, steps, s) && Enabled(s, Crash(cut)) && s.hist == WRITES
    ensures var d := After(s, Crash(cut)).disk;
            && ManifestPresent(d.manifest, d.ssts)
            && forall n :: 0 <= n <= |WRITES| ==> Live(Recovered(d)) != History(WRITES[..n])
  {
    hide RunInv, Leads, LeadsUnguarded, Enabled, After, EnabledUnguarded;
    hide AfterUnguarded, SortedRecords, Recovered, Live, History;
    hide Written, SwappedAndBuilt, CommittedUnguarded, MIXED, Replay, MixedDisk;
    var writing := ThreeWrites();
    FrozenIsNotEmpty();
    var t := TableFrom(3, SortedRecords(Replay(WRITES)));
    SwapAndBuildLead(writing, t);
    var built := writing + [FreezeCreate] + [FreezeSwap] + [FlushAcquire] + [FlushBuild];
    GuardedIsUnguarded(FRESH, built, SwappedAndBuilt(t));
    CommitUnguarded(t);
    UnguardedOn(FRESH, built, SwappedAndBuilt(t), FlushCommit);
    ListUnguarded(t);
    var s5 := CommittedUnguarded(t);
    GuardedStep(s5, FlushDrained);
    UnguardedOn(FRESH, built + [FlushCommit], s5, FlushDrained);
    GuardedStep(After(s5, FlushDrained), FlushManifest);
    UnguardedOn(FRESH, built + [FlushCommit] + [FlushDrained], After(s5, FlushDrained), FlushManifest);
    steps, s, cut := built + [FlushCommit] + [FlushDrained] + [FlushManifest], ListedUnguarded(t), LATE_CUT;
    CrashUnguarded(t);
    MixedRecovered(t);
    MixedIsNoPrefix();
  }

  // ---- Which flushed logs may outlive their flush ----

  /** The generations of `gs` that a failed or interrupted deletion left behind. */
  function Left(gs: seq<nat>, kept: set<nat>): seq<nat> {
    if gs == [] then []
    else Left(gs[..|gs| - 1], kept) + if gs[|gs| - 1] in kept then [gs[|gs| - 1]] else []
  }

  /** Whatever is left is a suffix: everything newer than a surviving log survives too. */
  ghost predicate LeavesSuffix(gs: seq<nat>, kept: set<nat>) {
    forall i, j :: 0 <= i < j < |gs| && gs[i] in kept ==> gs[j] in kept
  }

  /** The disk after the generations `gs` were flushed over whatever older tables there were and
      listed, and their logs deleted but for `kept`; `newer` are the logs still in use. */
  ghost predicate LeftBehind(d: Disk, gs: seq<nat>, kept: set<nat>, newer: seq<nat>, older: Mem, mems: map<nat, Mem>) {
    && ManifestPresent(d.manifest, d.ssts)
    && OverlayLevels(Listed(d.manifest, d.ssts)) == older + OverlayMems(mems, gs)
    && InOrder(d.wals.Keys) == Left(gs, kept) + newer
    && forall g :: g in Left(gs, kept) ==> MemIn(Logs(d.wals), g) == MemIn(mems, g)
  }

  /** Opening the disk shows what the tables and the logs in use show: the leftovers change nothing. */
  ghost predicate Unharmed(d: Disk, newer: seq<nat>)
    requires ManifestPresent(d.manifest, d.ssts)
  {
    Live(Recovered(d)) == Live(OverlayLevels(Listed(d.manifest, d.ssts)) + OverlayMems(Logs(d.wals), newer))
  }

  ghost predicate Harmless(gs: seq<nat>, kept: set<nat>) {
    forall d, newer, older, mems :: LeftBehind(d, gs, kept, newer, older, mems) ==> Unharmed(d, newer)
  }

  lemma {:induction false} LeftAll(gs: seq<nat>, kept: set<nat>)
    requires forall i :: 0 <= i < |gs| ==> gs[i] in kept
    ensures Left(gs, kept) == gs
  {
    if gs != [] {
      LeftAll(gs[..|gs| - 1], kept);
      assert gs == gs[..|gs| - 1] + [gs[|gs| - 1]];
    }
  }

  lemma {:induction false} LeftAppend(a: seq<nat>, b: seq<nat>, kept: set<nat>)
    ensures Left(a + b, kept) == Left(a, kept) + Left(b, kept)
    decreases |b|
  {
    if b == [] {
      assert a + b == a;
    } else {
      LeftAppend(a, b[..|b| - 1], kept);
      assert (a + b)[..|a + b| - 1] == a + b[..|b| - 1];
    }
  }

  lemma SuffixOfRest(gs: seq<nat>, kept: set<nat>)
    requires gs != [] && LeavesSuffix(gs, kept)
    ensures LeavesSuffix(gs[1..], kept) && gs == [gs[0]] + gs[1..]
    ensures gs[0] in kept ==> Left(gs, kept) == gs
  {
    hide Left;
    assert forall i :: 0 <= i < |gs[1..]| ==> gs[1..][i] == gs[i + 1];
    if gs[0] in kept { LeftAll(gs, kept); }
  }

  lemma AbsorbsUnder(x: Mem, y: Mem, l: Mem)
    requires Absorbs(y, l)
    ensures Absorbs(x + y, l)
  {
    OverlayAssoc(x, y, l);
  }

  lemma AbsorbsItself(m: Mem)
    ensures Absorbs(m, m) && Absorbs(m, map[])
  {
  }

  lemma {:induction false} SuffixAbsorbed(mems: map<nat, Mem>, gs: seq<nat>, kept: set<nat>)
    requires LeavesSuffix(gs, kept)
    ensures Absorbs(OverlayMems(mems, gs), OverlayMems(mems, Left(gs, kept)))
  {
    if gs == [] {
      AbsorbsItself(map[]);
    } else {
      hide OverlayMems, Left, LeavesSuffix, Absorbs;
      var g, rest := gs[0], gs[1..];
      SuffixOfRest(gs, kept);
      if g in kept {
        AbsorbsItself(OverlayMems(mems, gs));
      } else {
        LeftHead(g, rest, kept);
        SuffixAbsorbed(mems, rest, kept);
        OverlayMemsAppend(mems, [g], rest);
        AbsorbsUnder(OverlayMems(mems, [g]), OverlayMems(mems, rest), OverlayMems(mems, Left(rest, kept)));
      }
    }
  }

  lemma LeftHead(g: nat, rest: seq<nat>, kept: set<nat>)
    requires g !in kept
    ensures Left([g] + rest, kept) == Left(rest, kept)
  {
    LeftAppend([g], rest, kept);
    assert [g][..0] == [];
    assert Left([g], kept) == [];
  }

  lemma {:induction false} LeftMembers(gs: seq<nat>, kept: set<nat>)
    ensures forall i :: 0 <= i < |Left(gs, kept)| ==> Left(gs, kept)[i] in kept && Left(gs, kept)[i] in gs
  {
    if gs != [] {
      var init := gs[..|gs| - 1];
      LeftMembers(init, kept);
      assert forall g :: g in init ==> g in gs;
    }
  }

  lemma LeftSplit(gs: seq<nat>, kept: set<nat>, i: nat) returns (n: nat)
    requires i < |gs| && gs[i] in kept
    ensures var left := Left(gs, kept);
            && n < |left| && left[n] == gs[i]
            && forall t :: n < t < |left| ==> left[t] in kept && left[t] in gs[i + 1..]
  {
    assert gs == gs[..i] + [gs[i]] + gs[i + 1..];
    LeftAppend(gs[..i] + [gs[i]], gs[i + 1..], kept);
    LeftAppend(gs[..i], [gs[i]], kept);
    assert [gs[i]][..0] == [];
    LeftMembers(gs[i + 1..], kept);
    n := |Left(gs[..i], kept)|;
  }

  lemma {:induction false} LeftIncreasing(gs: seq<nat>, kept: set<nat>)
    requires Increasing(gs)
    ensures Increasing(Left(gs, kept))
  {
    if gs != [] {
      var n := |gs| - 1;
      LeftIncreasing(gs[..n], kept);
      LeftMembers(gs[..n], kept);
      var init := Left(gs[..n], kept);
      forall i | 0 <= i < |init| ensures init[i] < gs[n] {
        var j :| 0 <= j < n && gs[..n][j] == init[i];
        assert gs[j] == init[i];
      }
    }
  }

  /** The disk on which generation `g` put one value and a newer, deleted one another. */
  function GapDisk(left: set<nat>, g: nat, records: seq<Record>): Disk {
    Disk(Levels([Meta(0, [], [])], []), map[Name(0, 0) := records],
         map h: nat | h in left :: Wal(if h == g then [FIRST] else [], 0))
  }

  lemma GapTables(left: set<nat>, g: nat, tables: Mem)
    ensures var d := GapDisk(left, g, SortedRecords(tables));
            ManifestPresent(d.manifest, d.ssts) && OverlayLevels(Listed(d.manifest, d.ssts)) == tables
  {
    SortedRecordsCorrect(tables);
    hide SortedRecords, MemOf, Overlay;
    var d := GapDisk(left, g, SortedRecords(tables));
    var t := Table(Meta(0, [], []), SortedRecords(tables));
    assert Listed(d.manifest, d.ssts) == Levels([t], []);
    OneTableShown(t);
  }

  lemma OneTableShown(t: Table)
    ensures OverlayLevels(Levels([t], [])) == MemOf(t.records)
  {
    hide MemOf;
    assert [t][..0] == [];
    assert Overlay([t]) == map[] + MemOf(t.records) == MemOf(t.records);
    assert Overlay([]) + MemOf(t.records) == MemOf(t.records);
  }

  lemma GapLogs(left: set<nat>, g: nat, records: seq<Record>, h: nat)
    requires h in left
    ensures MemIn(Logs(GapDisk(left, g, records).wals), h) == if h == g then map[K := Entry([1], false)] else map[]
  {
    assert [] + [FIRST] == [FIRST];
    ReplaySnoc([], FIRST);
  }

  /** If an older log outlives a newer one, there are contents that come back from the dead. */
  lemma GapIsHarmful(gs: seq<nat>, kept: set<nat>, i: nat, j: nat)
    requires Increasing(gs) && i < j < |gs| && gs[i] in kept && gs[j] !in kept
    ensures !Harmless(gs, kept)
  {
    hide Left, SortedRecords, InOrder, OverlayMems, Live, OverlayLevels;
    hide Logs, Listed, GapDisk, Increasing, ManifestPresent;
    var mems: map<nat, Mem> := map[gs[i] := map[K := Entry([1], false)], gs[j] := map[K := Entry([2], false)]];
    Distinct(gs, i, j);
    var left, tables := Left(gs, kept), OverlayMems(mems, gs);
    var d := GapDisk(Elements(left), gs[i], SortedRecords(tables));
    LastHolder(mems, gs, j, K);
    var n := LeftSplit(gs, kept, i);
    GapTables(Elements(left), gs[i], tables);
    LeftIncreasing(gs, kept);
    LeftMembers(gs, kept);
    GapKeys(Elements(left), gs[i], SortedRecords(tables));
    InOrderUnique(Elements(left), left);
    forall t | 0 <= t < |left| ensures MemIn(Logs(d.wals), left[t]) == MemIn(mems, left[t]) {
      GapLogs(Elements(left), gs[i], SortedRecords(tables), left[t]);
      assert left[t] != gs[j];
    }
    assert left + [] == left && map[] + tables == tables;
    assert LeftBehind(d, gs, kept, [], map[], mems);
    OverlayMemsFrame(Logs(d.wals), mems, left);
    LastHolder(mems, left, n, K);
    ComesBack(tables, OverlayMems(mems, left));
    NoOverlay(Logs(d.wals), tables);
    assert !Unharmed(d, []);
  }

  lemma Distinct(gs: seq<nat>, i: nat, j: nat)
    requires Increasing(gs) && i < j < |gs|
    ensures gs[i] != gs[j]
    ensures forall t :: 0 <= t < |gs| && t != i ==> gs[t] != gs[i]
    ensures forall t :: 0 <= t < |gs| && t != j ==> gs[t] != gs[j]
    ensures gs[i] !in gs[i + 1..]
  {
  }

  lemma GapKeys(left: set<nat>, g: nat, records: seq<Record>)
    ensures GapDisk(left, g, records).wals.Keys == left
  {
  }

  lemma NoOverlay(mems: map<nat, Mem>, m: Mem)
    ensures m + OverlayMems(mems, []) == m
  {
  }

  lemma ComesBack(tables: Mem, left: Mem)
    requires K in tables && tables[K] == Entry([2], false)
    requires K in left && left[K] == Entry([1], false)
    ensures Live(tables + left) != Live(tables)
  {
    assert K in Live(tables) && Live(tables)[K] == [2];
    assert K in Live(tables + left) && Live(tables + left)[K] == [1];
  }

  lemma {:induction false} LastHolder(mems: map<nat, Mem>, gs: seq<nat>, j: nat, k: Bytes)
    requires j < |gs| && k in MemIn(mems, gs[j])
    requires forall t :: j < t < |gs| ==> k !in MemIn(mems, gs[t])
    ensures k in OverlayMems(mems, gs) && OverlayMems(mems, gs)[k] == MemIn(mems, gs[j])[k]
    decreases |gs|
  {
    if j < |gs| - 1 { LastHolder(mems, gs[..|gs| - 1], j, k); }
  }

  /** The logs of flushed generations that outlive their flush are harmless exactly when they are
      a suffix. Deleting oldest first, as `flush_all_pending` does, leaves a suffix at every
      point; a deletion that fails (its error is ignored) while a later one succeeds does not. */
  lemma LeftoversHarmlessIffSuffix(gs: seq<nat>, kept: set<nat>)
    requires Increasing(gs)
    ensures Harmless(gs, kept) <==> LeavesSuffix(gs, kept)
  {
    if LeavesSuffix(gs, kept) {
      hide LeftBehind, Unharmed, LeavesSuffix, Increasing;
      forall d, newer, older, mems | LeftBehind(d, gs, kept, newer, older, mems)
        ensures ManifestPresent(d.manifest, d.ssts) && Unharmed(d, newer)
      {
        SuffixUnharmed(d, gs, kept, newer, older, mems);
      }
    } else {
      var i, j :| 0 <= i < j < |gs| && gs[i] in kept && gs[j] !in kept;
      GapIsHarmful(gs, kept, i, j);
    }
  }

  lemma SuffixUnharmed(d: Disk, gs: seq<nat>, kept: set<nat>, newer: seq<nat>, older: Mem, mems: map<nat, Mem>)
    requires LeavesSuffix(gs, kept) && LeftBehind(d, gs, kept, newer, older, mems)
    ensures ManifestPresent(d.manifest, d.ssts) && Unharmed(d, newer)
  {
    hide OverlayMems, Left, InOrder, LeavesSuffix, OverlayLevels, Listed, Logs, Live, ManifestPresent, MemIn;
    var left, logs := Left(gs, kept), Logs(d.wals);
    var tables := OverlayLevels(Listed(d.manifest, d.ssts));
    SuffixAbsorbed(mems, gs, kept);
    AbsorbsUnder(older, OverlayMems(mems, gs), OverlayMems(mems, left));
    OverlayMemsFrame(logs, mems, left);
    OverlayMemsAppend(logs, left, newer);
    OverlayAssoc(tables, OverlayMems(logs, left), OverlayMems(logs, newer));
  }

  // ---- When file numbers run out ----

  /** `fetch_add` on a `u64`. */
  function Wrapped(n: nat): nat {
    (n + 1) % (U64_MAX + 1)
  }

  /** The entry of a newly flushed table is the one found exactly when no table with a larger number
      holds the key; `ts` holds it, if at all, with other entries. */
  lemma {:induction false} NewestFoundIffNumberLargest(ts: seq<Table>, t: Table, key: Bytes)
    requires AllTablesOk(ts) && TableOk(t) && SeqnosAscend(ts) && key in MemOf(t.records)
    requires forall i :: 0 <= i < |ts| ==> ts[i].meta.seqno != t.meta.seqno
    requires forall i :: 0 <= i < |ts| && key in MemOf(ts[i].records) ==>
               MemOf(ts[i].records)[key] != MemOf(t.records)[key]
    ensures SearchTables(InsertBySeq(ts, t), key) == Some(MemOf(t.records)[key]) <==>
              forall i :: 0 <= i < |ts| && key in MemOf(ts[i].records) ==> ts[i].meta.seqno < t.meta.seqno
  {
    hide MemOf, Search, OutOfRange, Ascending, AllFit, SearchTables;
    if ts == [] || ts[|ts| - 1].meta.seqno < t.meta.seqno {
      FoundLast(ts, t, key);
    } else {
      var n := |ts| - 1;
      if key in MemOf(ts[n].records) {
        FoundLast(InsertBySeq(ts[..n], t), ts[n], key);
      } else {
        SkippedLast(InsertBySeq(ts[..n], t), ts[n], key);
        NewestFoundIffNumberLargest(ts[..n], t, key);
        assert forall i :: 0 <= i < n ==> ts[..n][i] == ts[i];
      }
    }
  }

  lemma SkippedLast(ts: seq<Table>, t: Table, key: Bytes)
    requires TableOk(t) && key !in MemOf(t.records)
    ensures SearchTables(ts + [t], key) == SearchTables(ts, key)
  {
    SearchFinds(t.records, key);
    assert (ts + [t])[..|ts|] == ts;
  }

  lemma FoundLast(ts: seq<Table>, t: Table, key: Bytes)
    requires TableOk(t) && key in MemOf(t.records)
    ensures SearchTables(ts + [t], key) == Some(MemOf(t.records)[key])
  {
    SearchFinds(t.records, key);
    if OutOfRange(t.meta, key) { RangeSound(t, key); }
    assert (ts + [t])[..|ts|] == ts;
  }

  /** What that means for the counter of file numbers: what is flushed after number `n` is found
      exactly when `n` is not the last number there is, or no older table holds the key. */
  lemma FlushedAfterLastNumberIsHidden(ts: seq<Table>, t: Table, n: nat, key: Bytes)
    requires AllTablesOk(ts) && TableOk(t) && SeqnosAscend(ts) && key in MemOf(t.records)
    requires ts != [] && ts[|ts| - 1].meta.seqno == n <= U64_MAX && t.meta.seqno == Wrapped(n)
    requires forall i :: 0 <= i < |ts| ==> ts[i].meta.seqno != t.meta.seqno
    requires forall i :: 0 <= i < |ts| && key in MemOf(ts[i].records) ==>
               MemOf(ts[i].records)[key] != MemOf(t.records)[key]
    ensures SearchTables(InsertBySeq(ts, t), key) == Some(MemOf(t.records)[key]) <==>
              n < U64_MAX || forall i :: 0 <= i < |ts| ==> key !in MemOf(ts[i].records)
  {
    hide MemOf, Search, OutOfRange, Ascending, AllFit, AllTablesOk, TableOk, SearchTables, InsertBySeq;
    NewestFoundIffNumberLargest(ts, t, key);
    if n < U64_MAX {
      assert Wrapped(n) == n + 1;
    } else {
      assert Wrapped(n) == 0;
    }
  }
}
