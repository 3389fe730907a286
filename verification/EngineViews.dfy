/** How the fields of the engine object stand for the state of the machine. */
module EngineViews {
  import opened Outcomes
  import opened Bytes
  import opened Records
  import opened Layers
  import opened Merge
  import opened BloomFilter
  import opened TableFormat
  import opened TableBuilder
  import opened TableReader
  import opened WriteAheadLog
  import opened ManifestFile
  import opened Machine
  import opened Overlays
  import opened Invariants
  import opened FlushSteps
  import opened ReadSteps
  import opened Guarantees
  import opened DiskImage
  import opened EngineRuns

  /** A frozen memtable waiting to be flushed; its contents never change again. */
  datatype PendingImm = PendingImm(mem: Mem, walSeq: nat)

  /** The fields of an engine object and the files of its directory, as one value. */
  datatype Fields = Fields(active: Mem, imms: seq<PendingImm>, levels: LevelList, walSeq: nat, nextSeq: nat,
                           entries: seq<WalEntry>, files: Files)

  ghost predicate ImmsMatch(imms: seq<PendingImm>, e: Engine) {
    |imms| == |e.imms| && forall i :: 0 <= i < |imms| ==> imms[i] == PendingImm(MemIn(e.heap, e.imms[i]), e.imms[i])
  }

  ghost predicate LevelsMatch(levels: LevelList, lv: Levels<Table>) {
    Named(levels) && LevelListOk(levels) && LevelsAt(levels) == MetaLevels(lv)
  }

  /** The fields stand for the running state `s`, and the files for its disk. */
  ghost predicate Views(v: Fields, s: Sys, crc: Checksum, hash: Hash) {
    s.mode.Runs? &&
    var e := s.mode.e;
    && v.walSeq == e.walSeq == e.activeGen && v.nextSeq == e.nextSeq
    && v.active == MemIn(e.heap, e.activeGen) && ImmsMatch(v.imms, e) && LevelsMatch(v.levels, e.levels)
    && e.walSeq in s.disk.wals && v.entries == s.disk.wals[e.walSeq].entries
    && LiveImage(v.files, s.disk, crc, hash)
  }

  function WithLog(f: Files, g: nat, bytes: Bytes): Files {
    f.(logs := f.logs[g := bytes])
  }

  /** The memtables of a running state are apart from one another. */
  ghost predicate HeapApart(e: Engine) {
    && e.activeGen in e.heap && e.nextSeq !in e.heap
    && (forall i :: 0 <= i < |e.imms| ==> e.imms[i] != e.activeGen && e.imms[i] in e.heap)
    && (forall i, j :: 0 <= i < j < |e.imms| ==> e.imms[i] != e.imms[j])
  }

  lemma MemtablesApart(s: Sys)
    requires RunInv(s)
    ensures HeapApart(s.mode.e)
  {
    hide TablesInv, ChainInv, CommittedInv, ShowsPrefix, FilesInv;
    hide PromiseInv, ReadersInv, WalsAdmissible, LogsInv, WriterInv;
    hide NoneEmpty, OverlayLevels, OverlayMems, GensInv, HeapApart, Owned;
    GensApart(s.mode.e, s.disk.wals.Keys);
  }

  lemma GensApart(e: Engine, logged: set<nat>)
    requires GensInv(Owned(e.flusher, e.imms, e.activeGen), Unused(e.writer), logged, e.heap.Keys, e.nextSeq)
    ensures HeapApart(e)
  {
    var owned := Owned(e.flusher, e.imms, e.activeGen);
    var all, n := owned + Unused(e.writer), |FlushedOf(e.flusher)|;
    forall i | 0 <= i <= |e.imms|
      ensures all[n + i] == owned[n + i] == (if i < |e.imms| then e.imms[i] else e.activeGen)
    {
    }
    assert e.activeGen == all[n + |e.imms|];
  }

  /** What the fields say about the state, one by one. */
  lemma ViewFacts(v: Fields, s: Sys, crc: Checksum, hash: Hash)
    requires RunInv(s) && Views(v, s, crc, hash)
    ensures s.mode.Runs? && v.walSeq == s.mode.e.walSeq == s.mode.e.activeGen && v.nextSeq == s.mode.e.nextSeq
    ensures v.active == MemIn(s.mode.e.heap, s.mode.e.activeGen) && ImmsMatch(v.imms, s.mode.e)
            && LevelsMatch(v.levels, s.mode.e.levels)
    ensures s.mode.e.walSeq in s.disk.wals && v.entries == s.disk.wals[s.mode.e.walSeq].entries
    ensures HeapApart(s.mode.e) && LiveImage(v.files, s.disk, crc, hash) && |v.imms| == |s.mode.e.imms|
  {
    hide RunInv, LiveImage, LevelsMatch, HeapApart;
    MemtablesApart(s);
  }

  // ---- The writer's steps ----

  lemma FramableEntry(e: WalEntry)
    requires EncodeOutcome(e.op, e.key, e.value).Ok?
    ensures Admissible(e) && Framable(e)
  {
  }

  lemma AppendViews(v: Fields, s: Sys, entry: WalEntry, file: Bytes, crc: Checksum, hash: Hash)
    requires s.mode.Runs? && s.mode.e.walSeq in s.disk.wals
    requires Views(v, s, crc, hash) && Framable(entry) && v.walSeq in v.files.logs
    requires v.files.logs[v.walSeq] <= file <= Frames(crc, v.entries + [entry])
    ensures Views(v.(entries := v.entries + [entry], files := WithLog(v.files, v.walSeq, file)), DoAppend(s, entry),
              crc, hash)
  {
    hide ManifestImage, SstsImage, Frames, LogImage, LevelsMatch, ImmsMatch;
    var g := v.walSeq;
    assert LogImage(v.files.logs[g], s.disk.wals[g], crc);
    AppendLogImage(v.files.logs[g], file, s.disk.wals[g], entry, crc);
    LogsUpdate(v.files.logs, s.disk.wals, crc, g, file, AppendTo(s.disk.wals[g], entry));
    assert ImmsMatch(v.imms, DoAppend(s, entry).mode.e) by { ImmsKept(v.imms, s.mode.e, DoAppend(s, entry).mode.e); }
  }

  /** Memtables that stay as they are still match. */
  lemma ImmsKept(imms: seq<PendingImm>, e: Engine, e': Engine)
    requires ImmsMatch(imms, e) && e'.imms == e.imms
    requires forall i :: 0 <= i < |e.imms| ==> MemIn(e'.heap, e.imms[i]) == MemIn(e.heap, e.imms[i])
    ensures ImmsMatch(imms, e')
  {
  }

  lemma ApplyViews(v: Fields, s: Sys, crc: Checksum, hash: Hash)
    requires s.mode.Runs? && s.hist != []
    requires Views(v, s, crc, hash) && HeapApart(s.mode.e)
    ensures var entry := s.hist[|s.hist| - 1];
            Views(v.(active := v.active[entry.key := EntryOf(entry)]), DoApply(s), crc, hash)
  {
    hide ImmsMatch, LevelsMatch, LiveImage;
    assert ImmsMatch(v.imms, DoApply(s).mode.e) by { ImmsKept(v.imms, s.mode.e, DoApply(s).mode.e); }
  }

  lemma SyncViews(v: Fields, s: Sys, crc: Checksum, hash: Hash)
    requires s.mode.Runs? && s.mode.e.walSeq in s.disk.wals
    requires Views(v, s, crc, hash) && AllFramable(v.entries)
    ensures Views(v.(files := WithLog(v.files, v.walSeq, Frames(crc, v.entries))), SyncState(s), crc, hash)
  {
    hide ManifestImage, SstsImage, Frames, LogImage, LevelsMatch, ImmsMatch;
    var g, es := v.walSeq, v.entries;
    FullLogImage(es, |es|, crc);
    LogsUpdate(v.files.logs, s.disk.wals, crc, g, Frames(crc, es), Wal(es, |es|));
  }

  /** The fields after a freeze: the old log completely with the operating system, a fresh one. */
  function FrozenFields(v: Fields, crc: Checksum): Fields {
    Fields(map[], v.imms + [PendingImm(v.active, v.walSeq)], v.levels, v.nextSeq, v.nextSeq + 1, [],
           WithLog(WithLog(v.files, v.walSeq, Frames(crc, v.entries)), v.nextSeq, []))
  }

  lemma FreezeViews(v: Fields, s: Sys, crc: Checksum, hash: Hash)
    requires s.mode.Runs? && s.mode.e.walSeq in s.disk.wals && s.mode.e.walSeq != s.mode.e.nextSeq
             && s.mode.e.writer.Idle?
    requires Views(v, s, crc, hash) && HeapApart(s.mode.e) && AllFramable(v.entries)
    ensures Views(FrozenFields(v, crc), FreezeState(s), crc, hash)
  {
    hide ManifestImage, SstsImage, Frames, LogImage, LevelsMatch;
    var g, n, es := v.walSeq, v.nextSeq, v.entries;
    FullLogImage(es, |es|, crc);
    LogsUpdate(v.files.logs, s.disk.wals, crc, g, Frames(crc, es), Wal(es, |es|));
    EmptyLogImage(crc);
    LogsUpdate(v.files.logs[g := Frames(crc, es)], s.disk.wals[g := Wal(es, |es|)], crc, n, [], Wal([], 0));
    assert FreezeState(s).disk.wals == s.disk.wals[g := Wal(es, |es|)][n := Wal([], 0)];
  }

  lemma AppendEffect(s: Sys, entry: WalEntry)
    requires s.mode.Runs? && s.mode.e.walSeq in s.disk.wals
    ensures var s' := DoAppend(s, entry);
            && s'.mode.Runs? && s'.hist == s.hist + [entry] && s'.mode.e.writer.Appended?
              && s'.mode.e.flusher == s.mode.e.flusher
  {
  }

  lemma ApplyEffect(s: Sys)
    requires s.mode.Runs? && s.hist != []
    ensures DoApply(s).mode.Runs? && DoApply(s).hist == s.hist && Durable(DoApply(s)) == Durable(s)
    ensures DoApply(s).mode.e.writer.Idle? && DoApply(s).mode.e.flusher == s.mode.e.flusher
  {
  }

  lemma FreezeEffect(s: Sys)
    requires s.mode.Runs? && s.mode.e.walSeq in s.disk.wals && s.mode.e.walSeq != s.mode.e.nextSeq
    ensures FreezeState(s).mode.Runs? && FreezeState(s).hist == s.hist && FreezeState(s).mode.e.below == |s.hist|
    ensures FreezeState(s).mode.e.writer == s.mode.e.writer && FreezeState(s).mode.e.flusher == s.mode.e.flusher
    ensures FreezeState(s).mode.e.levels == s.mode.e.levels
    ensures Durable(FreezeState(s)) == |s.hist|
  {
  }

  lemma Overwritten(logs: map<nat, Bytes>, g: nat, a: Bytes, b: Bytes)
    ensures logs[g := a][g := b] == logs[g := b]
  {
  }

  // ---- The flusher's steps ----

  /** The program counter of the flusher and the account of the history show in no field. */
  lemma FlusherViews(v: Fields, s: Sys, f: FlushPc, listedTo: nat, crc: Checksum, hash: Hash)
    requires s.mode.Runs? && Views(v, s, crc, hash)
    ensures Views(v, s.(listedTo := listedTo, mode := Runs(s.mode.e.(flusher := f))), crc, hash)
  {
    hide LevelsMatch, LiveImage;
  }

  /** The fields after the table `t` of the oldest immutable is committed to level 0. */
  function FlushedFields(v: Fields, t: Table, file: Bytes): Fields
    requires v.imms != []
  {
    v.(imms := v.imms[1..], levels := CommitTo(v.levels, MetaOf(0, t)), nextSeq := v.nextSeq + 1,
       files := v.files.(ssts := v.files.ssts[FileName(Name(0, t.meta.seqno)) := file]))
  }

  lemma FlushOneViews(v: Fields, s: Sys, file: Bytes, crc: Checksum, hash: Hash)
    requires s.mode.Runs? && s.mode.e.flusher.Draining? && s.mode.e.imms != []
    requires SortedRecords(MemIn(s.mode.e.heap, s.mode.e.imms[0])) != []
    requires Views(v, s, crc, hash) && s.mode.e.nextSeq <= U64_MAX && SeqnosBelow(s.mode.e.levels.l0, s.mode.e.nextSeq)
    requires TableOk(NextTable(s)) && TableFile(file, NextTable(s).records, hash)
    ensures v.imms != [] && Views(FlushedFields(v, NextTable(s), file), FlushOneState(s), crc, hash)
  {
    hide LogsImage, ManifestImage, TableFile, TableOk, SstsImage;
    hide LevelsMatch, FileName, SeqnosBelow, CommitTo, SortedRecords;
    var t := NextTable(s);
    CommitLevels(v.levels, s.mode.e.levels, t);
    SstsAdd(v.files.ssts, s.disk.ssts, hash, Name(0, t.meta.seqno), file, t.records);
  }

  lemma FlushOneEffect(s: Sys)
    requires s.mode.Runs? && s.mode.e.flusher.Draining? && s.mode.e.imms != []
    requires SortedRecords(MemIn(s.mode.e.heap, s.mode.e.imms[0])) != []
    ensures FlushOneState(s).mode.Runs? && FlushOneState(s).hist == s.hist
            && FlushOneState(s).mode.e.below == s.mode.e.below
    ensures FlushOneState(s).mode.e.writer == s.mode.e.writer
    ensures FlushOneState(s).mode.e.flusher ==
              Draining(s.mode.e.flusher.flushed + [s.mode.e.imms[0]], s.mode.e.flusher.target)
  {
    hide SortedRecords;
  }

  lemma ListEffect(s: Sys)
    requires s.mode.Runs? && s.mode.e.flusher.Draining?
    ensures ListState(s).mode.Runs? && ListState(s).hist == s.hist
            && ListState(s).mode.e.below == ListState(s).listedTo == s.mode.e.below
    ensures ListState(s).mode.e.writer == s.mode.e.writer && ListState(s).mode.e.levels == s.mode.e.levels
    ensures ListState(s).mode.e.flusher == Deleting(s.mode.e.flusher.flushed, s.mode.e.flusher.target)
  {
  }

  lemma LevelsListable(levels: LevelList, lv: Levels<Table>)
    requires LevelsMatch(levels, lv)
    ensures Named(levels) && LevelListOk(levels)
  {
  }

  /** With nothing left to flush, the active log is the only one. */
  lemma OneLogLeft(v: Fields, s: Sys, crc: Checksum, hash: Hash)
    requires RunInv(s) && Views(v, s, crc, hash) && v.imms == [] && s.mode.e.writer.Idle? && s.mode.e.flusher.Free?
    ensures v.files.logs.Keys == {v.walSeq}
  {
    hide TablesInv, ChainInv, CommittedInv, ShowsPrefix, FilesInv;
    hide PromiseInv, ReadersInv, WalsAdmissible, LogsInv, WriterInv;
    hide NoneEmpty, OverlayLevels, OverlayMems, ManifestImage, SstsImage, LogImage, LevelsMatch, Increasing, AllBelow;
    var e := s.mode.e;
    assert Owned(e.flusher, e.imms, e.activeGen) + Unused(e.writer) == [e.walSeq];
    assert Elements([e.walSeq]) == {e.walSeq};
  }

  /** With an empty active memtable, everything logged lies in the immutables and tables. */
  lemma NothingBelow(s: Sys)
    requires RunInv(s) && s.mode.Runs? && s.mode.e.writer.Idle? && MemIn(s.mode.e.heap, s.mode.e.activeGen) == map[]
    ensures s.mode.e.below == |s.hist|
  {
    hide RunInv;
    EmptyActiveMeansFrozen(s);
  }

  lemma ListedShowsAll(s: Sys)
    requires RunInv(s) && s.listedTo == |s.hist|
    ensures ManifestPresent(s.disk.manifest, s.disk.ssts)
            && Live(ListedMem(s.disk.manifest, s.disk.ssts)) == History(s.hist)
    ensures Durable(s) == |s.hist|
  {
    hide RunInv, Durable, OpenInv, DownInv, Live, ListedMem, History;
    DurableInRange(s);
    ListedTablesAlone(s);
    assert s.hist[..|s.hist|] == s.hist;
  }

  // ---- What calls do to the tables, for a caller ----

  /** The table a flush makes of a memtable, under the number `n`. */
  function TableOf(n: nat, mem: Mem): Table {
    var rs := SortedRecords(mem);
    if rs == [] then Table(Meta(n, [], []), []) else TableFrom(n, rs)
  }

  function FlushedTables(imms: seq<PendingImm>, n: nat): (ts: seq<Table>)
    ensures |ts| == |imms|
  {
    if imms == [] then [] else [TableOf(n, imms[0].mem)] + FlushedTables(imms[1..], n + 1)
  }

  /** The levels once the tables of `imms`, numbered from `n` on, stand behind the others of level 0. */
  function FlushedLevels(lv: Levels<Table>, imms: seq<PendingImm>, n: nat): Levels<Table> {
    lv.(l0 := lv.l0 + FlushedTables(imms, n))
  }

  lemma FlushOneLevels(s: Sys)
    requires s.mode.Runs? && s.mode.e.flusher.Draining? && s.mode.e.imms != []
    requires SortedRecords(MemIn(s.mode.e.heap, s.mode.e.imms[0])) != []
    ensures FlushOneState(s).mode.e.levels ==
            s.mode.e.levels.(l0 := s.mode.e.levels.l0
                + [TableOf(s.mode.e.nextSeq, MemIn(s.mode.e.heap, s.mode.e.imms[0]))])
  {
    hide SortedRecords, TableFrom;
  }

  lemma FlushedNext(lv: Levels<Table>, imms: seq<PendingImm>, n: nat)
    requires imms != []
    ensures FlushedLevels(lv, imms, n) ==
            FlushedLevels(lv.(l0 := lv.l0 + [TableOf(n, imms[0].mem)]), imms[1..], n + 1)
  {
    hide TableOf;
    ConcatAssoc(lv.l0, [TableOf(n, imms[0].mem)], FlushedTables(imms[1..], n + 1));
  }

  lemma NoneFlushed(lv: Levels<Table>, n: nat)
    ensures FlushedLevels(lv, [], n) == lv
  {
    assert lv.l0 + [] == lv.l0;
  }

  function GensOf(imms: seq<PendingImm>): seq<nat> {
    if imms == [] then [] else [imms[0].walSeq] + GensOf(imms[1..])
  }

  lemma GensNext(flushed: seq<nat>, imms: seq<PendingImm>)
    requires imms != []
    ensures flushed + GensOf(imms) == (flushed + [imms[0].walSeq]) + GensOf(imms[1..])
  {
  }

  lemma NoGens(flushed: seq<nat>)
    ensures flushed + GensOf([]) == flushed && [] + flushed == flushed
  {
  }

  /** The fields after a write of `entry` at `key`: the memtable has it, and is frozen under its log's
      number if `froze`; no table is touched. */
  ghost predicate Wrote(before: Fields, after: Fields, key: Bytes, entry: Entry, froze: bool) {
    && after.levels == before.levels && after.files.manifest == before.files.manifest
    && after.files.ssts == before.files.ssts
    && if froze
       then after.active == map[] && after.imms ==
           before.imms + [PendingImm(before.active[key := entry], before.walSeq)]
            && after.walSeq == before.nextSeq && after.nextSeq == before.nextSeq + 1
       else after.active == before.active[key := entry] && after.imms == before.imms
            && after.walSeq == before.walSeq && after.nextSeq == before.nextSeq
  }

  lemma FrozenWrote(before: Fields, applied: Fields, key: Bytes, entry: Entry, crc: Checksum)
    requires applied == before.(active := before.active[key := entry])
    ensures Wrote(before, FrozenFields(applied, crc), key, entry, true)
  {
    hide Frames;
  }

  /** The table the next flush commits. */
  function NextTable(s: Sys): Table
    requires s.mode.Runs? && s.mode.e.imms != [] && SortedRecords(MemIn(s.mode.e.heap, s.mode.e.imms[0])) != []
  {
    TableFrom(s.mode.e.nextSeq, SortedRecords(MemIn(s.mode.e.heap, s.mode.e.imms[0])))
  }

  function WithManifest(v: Fields): Fields {
    v.(files := v.files.(manifest := Some(ManifestBytes(v.levels))))
  }

  lemma ListViews(v: Fields, s: Sys, crc: Checksum, hash: Hash)
    requires s.mode.Runs? && s.mode.e.flusher.Draining?
    requires Views(v, s, crc, hash)
    ensures Views(WithManifest(v), ListState(s), crc, hash)
  {
    hide LogsImage, SstsImage, ManifestBytes, ManifestImage, Named, LevelListOk;
    WrittenManifestImage(v.levels);
  }

  lemma DropLogViews(v: Fields, s: Sys, crc: Checksum, hash: Hash)
    requires s.mode.Runs? && s.mode.e.flusher.Deleting? && s.mode.e.flusher.flushed != []
    requires s.mode.e.flusher.flushed[0] != s.mode.e.walSeq
    requires Views(v, s, crc, hash)
    ensures Views(v.(files := v.files.(logs := v.files.logs - {s.mode.e.flusher.flushed[0]})), DoFlushDelete(s), crc,
              hash)
  {
    hide LogImage, LogsImage, SstsImage, ManifestImage, LevelsMatch;
    LogsDrop(v.files.logs, s.disk.wals, crc, s.mode.e.flusher.flushed[0]);
  }

  // ---- The compactor's steps ----

  /** The fields after the merged table is written. */
  function MergedFields(v: Fields, file: Bytes): Fields {
    v.(nextSeq := v.nextSeq + 1, files := v.files.(ssts := v.files.ssts[FileName(Name(1, v.nextSeq)) := file]))
  }

  lemma MergeViews(v: Fields, s: Sys, out: seq<Record>, file: Bytes, crc: Checksum, hash: Hash)
    requires s.mode.Runs? && Views(v, s, crc, hash)
    requires out != [] ==> TableFile(file, out, hash)
    ensures Views(if out == [] then v else MergedFields(v, file), DoCompactMerge(s, out), crc, hash)
  {
    hide LogsImage, ManifestImage, TableFile, SstsImage, LevelsMatch, FileName;
    if out != [] {
      SstsAdd(v.files.ssts, s.disk.ssts, hash, Name(1, v.nextSeq), file, out);
    }
  }

  /** Level 0 is cleared; level 1 becomes the merged table, or goes away. */
  function ReplacedList(out: seq<Table>): LevelList {
    if out == [] then [[]] else [[], [MetaOf(1, out[0])]]
  }

  lemma ReplaceViews(v: Fields, s: Sys, crc: Checksum, hash: Hash)
    requires s.mode.Runs? && s.mode.e.flusher.MergedTo?
    requires Views(v, s, crc, hash) && |s.mode.e.flusher.out| <= 1
    requires forall i :: 0 <= i < |s.mode.e.flusher.out| ==>
                           TableOk(s.mode.e.flusher.out[i]) && s.mode.e.flusher.out[i].meta.seqno <= U64_MAX
    ensures Views(WithManifest(v.(levels := ReplacedList(s.mode.e.flusher.out))), ReplaceState(s), crc, hash)
  {
    hide LogsImage, SstsImage, ManifestBytes, ManifestImage, Named, LevelListOk, MetaOf, TableOk;
    ReplacedLevels(s.mode.e.flusher.out);
    WrittenManifestImage(ReplacedList(s.mode.e.flusher.out));
  }

  lemma PurgeViews(v: Fields, s: Sys, crc: Checksum, hash: Hash)
    requires s.mode.Runs? && s.mode.e.flusher.Purging? && s.mode.e.flusher.stale != []
             && s.mode.e.flusher.stale[0].level <= 1
    requires Views(v, s, crc, hash)
    ensures Views(v.(files := v.files.(ssts := v.files.ssts - {FileName(s.mode.e.flusher.stale[0])})),
              DoCompactDelete(s), crc, hash)
  {
    hide LogsImage, ManifestImage, TableFile, SstsImage, LevelsMatch, FileName;
    SstsRemove(v.files.ssts, s.disk.ssts, hash, s.mode.e.flusher.stale[0]);
  }

  // ---- Levels ----

  /** The metadata a table file is listed with. */
  function MetaOf(level: nat, t: Table): SstMeta {
    SstMeta(level, t.meta.seqno, FileName(Name(level, t.meta.seqno)), t.meta.min, t.meta.max)
  }

  lemma {:induction false} DigitsBound(n: nat, k: nat, p: nat)
    requires n < p && p == Ten(k) && k >= 1
    ensures |Digits(n)| <= k
    decreases k
  {
    if n >= 10 { DigitsBound(n / 10, k - 1, p / 10); }
  }

  function Ten(k: nat): nat {
    if k == 0 then 1 else 10 * Ten(k - 1)
  }

  lemma NameFits(level: nat, seqno: nat)
    requires level <= 1 && seqno <= U64_MAX
    ensures |FileName(Name(level, seqno))| <= U32_MAX && IsUtf8(FileName(Name(level, seqno)))
  {
    AsciiIsUtf8(FileName(Name(level, seqno)));
    assert Ten(20) == 100_000_000_000_000_000_000 by {
      assert Ten(4) == 10000;
      assert Ten(8) == 10000 * Ten(4);
      assert Ten(12) == 10000 * Ten(8);
      assert Ten(16) == 10000 * Ten(12);
      assert Ten(20) == 10000 * Ten(16);
    }
    DigitsBound(seqno, 20, Ten(20));
  }

  lemma MetaOfFits(level: nat, t: Table)
    requires TableOk(t) && level <= 1 && t.meta.seqno <= U64_MAX
    ensures MetaFits(MetaOf(level, t))
  {
    NameFits(level, t.meta.seqno);
    assert Fits(t.records[0]) && Fits(t.records[|t.records| - 1]);
  }

  /** `partition_point` and `insert` into level 0. */
  function CommitTo(levels: LevelList, m: SstMeta): LevelList {
    var grown: LevelList := if levels == [] then [[]] else levels;
    grown[0 := InsertMeta(grown[0], m)]
  }

  /** The new level-0 table goes to the end of level 0. */
  lemma CommitLevels(levels: LevelList, lv: Levels<Table>, t: Table)
    requires LevelsMatch(levels, lv) && TableOk(t) && t.meta.seqno <= U64_MAX && SeqnosBelow(lv.l0, t.meta.seqno)
    ensures LevelsMatch(CommitTo(levels, MetaOf(0, t)), lv.(l0 := lv.l0 + [t]))
  {
    hide TableOk, FileName, Named, LevelListOk, LevelsAt, InsertMeta, MetaLevels, MetaFits;
    var m := MetaOf(0, t);
    MetaOfFits(0, t);
    CommitAtEnd(levels, lv, t);
    InsertLargest(LevelAt(levels, 0), m);
    assert LevelAt(levels, 0) + [m] == if levels == [] then [m] else levels[0] + [m];
    assert CommitTo(levels, m) == Grown(levels, m);
    MetasSnoc(levels, lv, t);
    LevelOkSnoc(levels, m);
  }

  /** `levels` with `m` at the end of level 0. */
  function Grown(levels: LevelList, m: SstMeta): LevelList {
    if levels == [] then [[m]] else levels[0 := levels[0] + [m]]
  }

  lemma CommitAtEnd(levels: LevelList, lv: Levels<Table>, t: Table)
    requires LevelsMatch(levels, lv) && SeqnosBelow(lv.l0, t.meta.seqno)
    ensures forall i :: 0 <= i < |LevelAt(levels, 0)| ==> LevelAt(levels, 0)[i].seqno < t.meta.seqno
  {
    hide FileName, LevelListOk;
    var ms := LevelAt(levels, 0);
    forall i | 0 <= i < |ms| ensures ms[i].seqno < t.meta.seqno {
      assert LevelsAt(levels).l0[i].seqno == ms[i].seqno && MetaLevels(lv).l0[i] == lv.l0[i].meta;
    }
  }

  lemma MetasSnoc(levels: LevelList, lv: Levels<Table>, t: Table)
    requires LevelsAt(levels) == MetaLevels(lv)
    ensures LevelsAt(Grown(levels, MetaOf(0, t))) == MetaLevels(lv.(l0 := lv.l0 + [t]))
  {
    hide FileName;
    var levels' := Grown(levels, MetaOf(0, t));
    assert MetasAt(levels', 0) == MetasAt(levels, 0) + [t.meta];
    assert MetasAt(levels', 1) == MetasAt(levels, 1);
    assert Metas(lv.l0 + [t]) == Metas(lv.l0) + [t.meta];
  }

  lemma LevelOkSnoc(levels: LevelList, m: SstMeta)
    requires Named(levels) && LevelListOk(levels) && MetaFits(m)
    requires m.level == 0 && m.name == FileName(Name(0, m.seqno))
    requires forall i :: 0 <= i < |LevelAt(levels, 0)| ==> LevelAt(levels, 0)[i].seqno < m.seqno
    ensures Named(Grown(levels, m)) && LevelListOk(Grown(levels, m))
  {
    hide FileName, MetaFits;
    if levels != [] { assert LevelOk(0, levels[0]); }
    assert LevelOk(0, LevelAt(levels, 0) + [m]);
  }

  lemma ReplacedLevels(out: seq<Table>)
    requires |out| <= 1 && forall i :: 0 <= i < |out| ==> TableOk(out[i]) && out[i].meta.seqno <= U64_MAX
    ensures LevelsMatch(ReplacedList(out), Levels([], out))
  {
    hide TableOk, FileName;
    if out != [] {
      MetaOfFits(1, out[0]);
      var levels := ReplacedList(out);
      assert MetasAt(levels, 1) == [out[0].meta] == Metas(out);
      assert MetasAt(levels, 0) == [];
    } else {
      assert MetasAt([[]], 0) == [] == MetasAt([[]], 1);
    }
  }

  // ---- Reading a table ----

  /** The tables of one level. */
  function LevelOf(lv: Levels<Table>, l: nat): seq<Table> {
    if l == 0 then lv.l0 else if l == 1 then lv.l1 else []
  }

  /** The search from level `l` down. */
  function SearchFrom(lv: Levels<Table>, l: nat, key: Bytes): Option<Entry>
    decreases 2 - l
  {
    if l >= 2 then None else OrElse(SearchTables(LevelOf(lv, l), key), SearchFrom(lv, l + 1, key))
  }

  lemma LookupBySteps(heap: map<nat, Mem>, gen: nat, imms: seq<nat>, lv: Levels<Table>, key: Bytes)
    ensures Lookup(heap, gen, imms, lv, key) ==
            Unwrap(OrElse(SearchMem(heap, gen, key), OrElse(SearchMems(heap, imms, key), SearchFrom(lv, 0, key))))
  {
    hide SearchMem, SearchMems, SearchTables;
    assert SearchFrom(lv, 1, key) == OrElse(SearchTables(lv.l1, key), SearchFrom(lv, 2, key));
  }

  /** What `get` must answer, layer by layer. */
  lemma LookupNow(s: Sys, key: Bytes)
    requires s.mode.Runs? && RunInv(s) && s.mode.e.writer.Idle?
    ensures var e := s.mode.e;
            Find(History(s.hist), key) ==
            Unwrap(OrElse(SearchMem(e.heap, e.activeGen, key),
                OrElse(SearchMems(e.heap, e.imms, key), SearchFrom(e.levels, 0, key))))
  {
    hide RunInv, Lookup, SearchMem, SearchMems, SearchFrom;
    LookupIsHistory(s, key);
    LookupBySteps(s.mode.e.heap, s.mode.e.activeGen, s.mode.e.imms, s.mode.e.levels, key);
    assert s.hist[..|s.hist|] == s.hist;
  }

  /** What a memtable or a table contributes to the answer, the layers below it being searched to
      `below`. */
  lemma ActiveDecides(heap: map<nat, Mem>, gen: nat, below: Option<Entry>, key: Bytes)
    ensures Unwrap(OrElse(SearchMem(heap, gen, key), below)) ==
            if key in MemIn(heap, gen) then Unwrap(Some(MemIn(heap, gen)[key])) else Unwrap(below)
  {
  }

  lemma MemDecides(heap: map<nat, Mem>, gs: seq<nat>, i: nat, below: Option<Entry>, key: Bytes)
    requires i < |gs|
    ensures Unwrap(OrElse(SearchMems(heap, gs[..i + 1], key), below)) ==
            if key in MemIn(heap, gs[i]) then Unwrap(Some(MemIn(heap, gs[i])[key]))
            else Unwrap(OrElse(SearchMems(heap, gs[..i], key), below))
  {
    assert gs[..i + 1][..i] == gs[..i];
  }

  lemma RangeIs(m: Meta, key: Bytes)
    ensures OutOfRange(m, key) <==> Less(key, m.min) || Less(m.max, key)
  {
  }

  lemma TableDecides(ts: seq<Table>, i: nat, below: Option<Entry>, key: Bytes)
    requires i < |ts|
    ensures var found := LinearSearch(ts[i].records, key);
            Unwrap(OrElse(SearchTables(ts[..i + 1], key), below)) ==
            if OutOfRange(ts[i].meta, key) || found.None? then Unwrap(OrElse(SearchTables(ts[..i], key), below))
            else if found.value.Present? then Some(found.value.value)
            else None
  {
    hide OutOfRange, Search;
    assert ts[..i + 1][..i] == ts[..i];
  }

  lemma LevelSizes(levels: LevelList, lv: Levels<Table>, l: nat)
    requires LevelsMatch(levels, lv)
    ensures |levels| <= 2 && |LevelOf(lv, l)| == if l < |levels| then |levels[l]| else 0
  {
    hide LevelListOk;
    assert |LevelsAt(levels).l0| == |MetaLevels(lv).l0| && |LevelsAt(levels).l1| == |MetaLevels(lv).l1|;
  }

  lemma ImmAt(imms: seq<PendingImm>, e: Engine, i: nat)
    requires ImmsMatch(imms, e) && i < |imms|
    ensures |e.imms| == |imms| && imms[i].mem == MemIn(e.heap, e.imms[i]) && imms[i].walSeq == e.imms[i]
  {
  }

  lemma NoMems(heap: map<nat, Mem>, below: Option<Entry>, key: Bytes)
    ensures OrElse(SearchMems(heap, [], key), below) == below
  {
  }

  lemma NoTables(below: Option<Entry>, key: Bytes)
    ensures OrElse(SearchTables([], key), below) == below
  {
  }

  lemma LevelStart(levels: LevelList, lv: Levels<Table>, l: nat, key: Bytes)
    requires LevelsMatch(levels, lv) && l < |levels|
    ensures |LevelOf(lv, l)| == |levels[l]| && l < 2
    ensures SearchFrom(lv, l, key) == OrElse(SearchTables(LevelOf(lv, l)[..|levels[l]|], key),
              SearchFrom(lv, l + 1, key))
  {
    hide LevelsMatch, SearchTables;
    LevelSizes(levels, lv, l);
    assert LevelOf(lv, l)[..|levels[l]|] == LevelOf(lv, l);
  }

  lemma LevelsDone(levels: LevelList, lv: Levels<Table>, key: Bytes)
    requires LevelsMatch(levels, lv)
    ensures Unwrap(SearchFrom(lv, |levels|, key)) == None
  {
    hide LevelsMatch;
    LevelSizes(levels, lv, 0);
    LevelSizes(levels, lv, 1);
  }

  lemma MetaAt(levels: LevelList, lv: Levels<Table>, l: nat, i: nat)
    requires LevelsMatch(levels, lv) && l < |levels| && i < |levels[l]|
    ensures i < |LevelOf(lv, l)| && levels[l][i] == MetaOf(l, LevelOf(lv, l)[i])
  {
    hide LevelListOk, FileName;
    LevelSizes(levels, lv, l);
    var m, t := levels[l][i], LevelOf(lv, l)[i];
    assert (if l == 0 then LevelsAt(levels).l0[i] else LevelsAt(levels).l1[i]) == Meta(m.seqno, m.min, m.max);
    assert (if l == 0 then MetaLevels(lv).l0[i] else MetaLevels(lv).l1[i]) == t.meta;
  }

  /** Every listed table's file is there and holds the table's records. */
  lemma FileOf(v: Fields, s: Sys, l: nat, i: nat, crc: Checksum, hash: Hash)
    requires RunInv(s) && Views(v, s, crc, hash) && l < 2 && i < |LevelOf(s.mode.e.levels, l)|
    ensures var t := LevelOf(s.mode.e.levels, l)[i];
            var name := FileName(Name(l, t.meta.seqno));
            name in v.files.ssts && TableFile(v.files.ssts[name], t.records, hash)
  {
    hide ChainInv, CommittedInv, ShowsPrefix, FilesInv, PromiseInv;
    hide ReadersInv, WalsAdmissible, LogsInv, WriterInv, GensInv;
    hide LevelsOk, ListedOk, NoneEmpty, OverlayLevels, OverlayMems;
    hide LogsImage, ManifestImage, LevelsMatch, FileName, TableFile;
    var t := LevelOf(s.mode.e.levels, l)[i];
    assert Name(l, t.meta.seqno) in s.disk.ssts && s.disk.ssts[Name(l, t.meta.seqno)] == t.records;
  }

  /** Opening and searching a table file answers as searching its records would. */
  method LookupFile(file: Bytes, hash: Hash, key: Bytes, ghost rs: seq<Record>) returns (r: Result<Option<LookupValue>>)
    requires TableFile(file, rs, hash)
    ensures r == Ok(LinearSearch(rs, key))
  {
    hide IsTable, TableReader.Opens, TableGet;
    ghost var blocks, bloom :| IsTable(file, blocks, bloom, rs, hash);
    ghost var t := MadeOpens(blocks, bloom, file, rs, hash);
    var table := OpenTable(file);
    IndexedGetIsLinearSearch(t, blocks, bloom, rs, hash, key);
    r := Get(hash, table.value, key);
  }

  /** Opening and scanning a table file gives its records. */
  method ScanFile(file: Bytes, hash: Hash, ghost rs: seq<Record>) returns (r: Result<seq<Record>>)
    requires TableFile(file, rs, hash)
    ensures r == Ok(rs)
  {
    hide IsTable, TableReader.Opens, WalkRecords;
    ghost var blocks, bloom :| IsTable(file, blocks, bloom, rs, hash);
    ghost var t := MadeOpens(blocks, bloom, file, rs, hash);
    var table := OpenTable(file);
    ScanGivesAdded(t, blocks, bloom, rs, hash);
    r := AllRecords(table.value);
  }

  lemma MadeOpens(blocks: seq<seq<Record>>, bloom: Option<Bloom>, file: Bytes, rs: seq<Record>, hash: Hash)
    returns (t: SsTableReader)
    requires IsTable(file, blocks, bloom, rs, hash)
    ensures |file| <= U64_MAX && TableReader.Opens(file, t) && OpenedTable(t, blocks, bloom, rs, hash)
  {
    t := SsTableReader(file, |EncodeBlocks(blocks)|, IndexOf(blocks), bloom);
    BuiltTableOpens(file, blocks, bloom, rs, hash);
  }

  // ---- Writing a table ----

  /** The file of `rs` in blocks that are filled up, with every key in the bloom block. */
  ghost predicate PackedFile(file: Bytes, blocks: seq<seq<Record>>, rs: seq<Record>, emptyBloom: Bloom, hash: Hash) {
    && Usable(emptyBloom) && IsTable(file, blocks, BloomOf(hash, emptyBloom, |rs|, rs), rs, hash)
    && GoodBlocks(blocks) && Tight(blocks)
  }

  /** Builds the file of a sorted list of records: the builder never rejects one of them. A file
      beyond what a `u64` can address is an I/O error. */
  method BuildTable(rs: seq<Record>, emptyBloom: Bloom, hash: Hash) returns (r: Result<Bytes>, min: Bytes, max: Bytes)
    requires Ascending(rs) && AllFit(rs) && rs != [] && Usable(emptyBloom)
    ensures r.Ok? ==> TableFile(r.value, rs, hash)
    ensures r.Ok? ==> exists blocks :: PackedFile(r.value, blocks, rs, emptyBloom, hash)
    ensures r.Err? ==> r.error == Io && SizeBound(rs, emptyBloom) > U64_MAX
    ensures min == rs[0].key && max == rs[|rs| - 1].key
  {
    hide Ascending, Flatten, IsTable, BloomOk, BlocksOk, PackedFile, SizeBound, Tight, Packed, BloomOf, GoodBlocks;
    hide NoEmptyBlock, Usable, Fits, TableFile;
    var builder := new SsTableBuilder(|rs|, emptyBloom, hash);
    for i := 0 to |rs|
      invariant builder.Valid() && builder.Greedy() && builder.Added() == rs[..i] && fresh(builder)
    {
      NextAdmitted(rs, i);
      var added := builder.Add(rs[i].key, rs[i].value, rs[i].deleted);
      assert rs[..i + 1] == rs[..i] + [rs[i]];
    }
    assert rs[..|rs|] == rs;
    var first := builder.MinKey();
    var last := builder.MaxKey();
    min, max := first.value, last.value;
    var built := builder.Build();
    BuiltIsTable(builder, rs, built.value);
    if |built.value| > U64_MAX { return Err(Io), min, max; }
    r := Ok(built.value);
  }

  lemma NextAdmitted(rs: seq<Record>, i: nat)
    requires Ascending(rs) && AllFit(rs) && i < |rs|
    ensures Admit(rs[..i], rs[i]) == Ok(())
  {
  }

  lemma BuiltIsTable(b: SsTableBuilder, rs: seq<Record>, file: Bytes)
    requires b.Valid() && b.Added() == rs == Flatten(b.blocks) && NoEmptyBlock(b.blocks) && rs != []
    requires GoodBlocks(b.blocks) && Tight(b.blocks) && b.bloom == BloomOf(b.hash, b.emptyBloom, |rs|, rs)
    requires file == TableFormat.Image(EncodeBlocks(b.blocks), IndexOf(b.blocks), b.bloom)
    ensures |file| <= SizeBound(rs, b.emptyBloom)
    ensures |file| <= U64_MAX ==> PackedFile(file, b.blocks, rs, b.emptyBloom, b.hash) && TableFile(file, rs, b.hash)
  {
    hide SizeBound, InsertAll;
    BloomOfCovers(b.hash, b.emptyBloom, |rs|, rs);
    ImageSmall(b.blocks, b.bloom, rs, b.emptyBloom);
    if |file| <= U64_MAX { assert IsTable(file, b.blocks, b.bloom, rs, b.hash); }
  }

  /** `retain`: every immutable but the one of `walSeq`. */
  function Retain(imms: seq<PendingImm>, walSeq: nat): seq<PendingImm> {
    if imms == [] then []
    else Retain(imms[..|imms| - 1], walSeq) + if imms[|imms| - 1].walSeq != walSeq then [imms[|imms| - 1]] else []
  }

  lemma {:induction false} RetainRest(imms: seq<PendingImm>, walSeq: nat)
    requires imms != [] && imms[0].walSeq == walSeq
    requires forall i :: 1 <= i < |imms| ==> imms[i].walSeq != walSeq
    ensures Retain(imms, walSeq) == imms[1..]
  {
    if |imms| == 1 {
      assert imms[..0] == [];
    } else {
      RetainRest(imms[..|imms| - 1], walSeq);
      assert imms[1..] == imms[..|imms| - 1][1..] + [imms[|imms| - 1]];
    }
  }

  /** Removing the one immutable of a generation keeps all others, in order. */
  lemma {:induction false} RetainDropsOne(imms: seq<PendingImm>, walSeq: nat, p: nat)
    requires p < |imms| && imms[p].walSeq == walSeq
    requires forall i :: 0 <= i < |imms| && i != p ==> imms[i].walSeq != walSeq
    ensures Retain(imms, walSeq) == imms[..p] + imms[p + 1..]
  {
    var n := |imms| - 1;
    if p == n {
      RetainKeepsAll(imms[..n], walSeq);
    } else {
      RetainDropsOne(imms[..n], walSeq, p);
      assert imms[p + 1..] == imms[..n][p + 1..] + [imms[n]];
    }
  }

  lemma {:induction false} RetainKeepsAll(imms: seq<PendingImm>, walSeq: nat)
    requires forall i :: 0 <= i < |imms| ==> imms[i].walSeq != walSeq
    ensures Retain(imms, walSeq) == imms
  {
    if imms != [] { RetainKeepsAll(imms[..|imms| - 1], walSeq); }
  }

  /** Just the immutable of `walSeq` is gone; the others are all there, in their order. */
  ghost predicate LosesOnly(before: seq<PendingImm>, walSeq: nat, after: seq<PendingImm>) {
    && (forall p :: 0 <= p < |before| && IsOnly(before, walSeq, p) ==> after == before[..p] + before[p + 1..])
    && ((forall i :: 0 <= i < |before| ==> before[i].walSeq != walSeq) ==> after == before)
  }

  ghost predicate IsOnly(imms: seq<PendingImm>, walSeq: nat, p: nat) {
    p < |imms| && imms[p].walSeq == walSeq && forall i :: 0 <= i < |imms| && i != p ==> imms[i].walSeq != walSeq
  }

  lemma RetainLosesOnly(imms: seq<PendingImm>, walSeq: nat)
    ensures LosesOnly(imms, walSeq, Retain(imms, walSeq))
  {
    hide Retain;
    forall p: nat | p < |imms| && IsOnly(imms, walSeq, p) ensures Retain(imms, walSeq) == imms[..p] + imms[p + 1..] {
      RetainDropsOne(imms, walSeq, p);
    }
    if forall i :: 0 <= i < |imms| ==> imms[i].walSeq != walSeq { RetainKeepsAll(imms, walSeq); }
  }

  lemma CommitPutsInPlace(levels: LevelList, m: SstMeta)
    ensures CommitTo(levels, m) != [] && PutInPlace(LevelAt(levels, 0), m, CommitTo(levels, m)[0])
    ensures CommitTo(levels, m)[1..] == if levels == [] then [] else levels[1..]
    ensures (forall t :: t in LevelAt(levels, 0) ==> t.seqno < m.seqno) ==>
              CommitTo(levels, m)[0] == LevelAt(levels, 0) + [m]
  {
    var p := InsertPutsInPlace(LevelAt(levels, 0), m);
    if forall t :: t in LevelAt(levels, 0) ==> t.seqno < m.seqno { InsertLargest(LevelAt(levels, 0), m); }
  }

  lemma RetainNext(imms: seq<PendingImm>, e: Engine)
    requires ImmsMatch(imms, e) && HeapApart(e) && imms != []
    ensures Retain(imms, imms[0].walSeq) == imms[1..]
  {
    RetainRest(imms, imms[0].walSeq);
  }

  /** What the next flush needs to know before it starts. */
  lemma NextTableOk(s: Sys)
    requires RunInv(s) && s.mode.e.imms != [] && s.mode.e.flusher.Draining?
    ensures SortedRecords(MemIn(s.mode.e.heap, s.mode.e.imms[0])) != [] && TableOk(NextTable(s))
    ensures SeqnosBelow(s.mode.e.levels.l0, s.mode.e.nextSeq)
    ensures NextTable(s) == TableFrom(s.mode.e.nextSeq, SortedRecords(MemIn(s.mode.e.heap, s.mode.e.imms[0])))
    ensures NextTable(s).records == SortedRecords(MemIn(s.mode.e.heap, s.mode.e.imms[0]))
            && NextTable(s).meta.seqno == s.mode.e.nextSeq
  {
    hide RunInv, TableOk;
    FlushNeverStuck(s);
    FlushFacts(s);
    var es := ImmLogged(s, 0);
    BuiltTableOk(es, MemIn(s.mode.e.heap, s.mode.e.imms[0]), s.mode.e.nextSeq);
  }

  /** The merged table meets the builder's rules. */
  lemma MergedTableFits(s: Sys)
    requires RunInv(s) && s.mode.e.flusher.MergedTo?
    ensures |s.mode.e.flusher.out| <= 1 && forall i :: 0 <= i < |s.mode.e.flusher.out| ==>
              TableOk(s.mode.e.flusher.out[i])
  {
    hide TablesInv, ChainInv, CommittedInv, ShowsPrefix, PromiseInv;
    hide ReadersInv, WalsAdmissible, LogsInv, WriterInv, GensInv;
    hide NoneEmpty, OverlayLevels, OverlayMems, TableOk, SeqnosBelow;
  }

  // ---- Compaction's inputs ----

  function AllMetas(levels: LevelList): seq<SstMeta> {
    LevelAt(levels, 0) + LevelAt(levels, 1)
  }

  lemma InputCount(levels: LevelList, lv: Levels<Table>)
    requires LevelsMatch(levels, lv)
    ensures |AllMetas(levels)| == |lv.l0 + lv.l1|
  {
    hide LevelsMatch;
    LevelSizes(levels, lv, 0);
    LevelSizes(levels, lv, 1);
  }

  /** The input at one position is the table at that position. */
  lemma InputAt(levels: LevelList, lv: Levels<Table>, i: nat) returns (l: nat)
    requires LevelsMatch(levels, lv) && i < |AllMetas(levels)|
    ensures i < |lv.l0 + lv.l1| && l < 2 && AllMetas(levels)[i] == MetaOf(l, (lv.l0 + lv.l1)[i])
    ensures (NamesOf(0, lv.l0) + NamesOf(1, lv.l1))[i] == Name(l, (lv.l0 + lv.l1)[i].meta.seqno)
    ensures (lv.l0 + lv.l1)[i] in LevelOf(lv, l)
  {
    hide LevelsMatch, MetaOf;
    LevelSizes(levels, lv, 0);
    LevelSizes(levels, lv, 1);
    if i < |lv.l0| {
      l := 0;
      MetaAt(levels, lv, 0, i);
    } else {
      l := 1;
      MetaAt(levels, lv, 1, i - |lv.l0|);
    }
  }

  lemma InputFile(v: Fields, s: Sys, i: nat, crc: Checksum, hash: Hash)
    requires s.mode.Runs? && RunInv(s) && Views(v, s, crc, hash) && i < |AllMetas(v.levels)|
    ensures var ts := s.mode.e.levels.l0 + s.mode.e.levels.l1;
            && i < |ts| && AllMetas(v.levels)[i].seqno == ts[i].meta.seqno && AllMetas(v.levels)[i].name in v.files.ssts
            && TableFile(v.files.ssts[AllMetas(v.levels)[i].name], ts[i].records, hash)
  {
    hide RunInv, Views, LevelsMatch, LiveImage, HeapApart, ImmsMatch, AllMetas, LevelOf, TableFile, FileName;
    ViewFacts(v, s, crc, hash);
    var l := InputAt(v.levels, s.mode.e.levels, i);
    var t := (s.mode.e.levels.l0 + s.mode.e.levels.l1)[i];
    var j :| 0 <= j < |LevelOf(s.mode.e.levels, l)| && LevelOf(s.mode.e.levels, l)[j] == t;
    FileOf(v, s, l, j, crc, hash);
  }

  /** The tables to delete are exactly the inputs, in order. */
  ghost predicate StaleNames(stale: seq<Name>, inputs: seq<SstMeta>) {
    |stale| == |inputs| && forall i :: 0 <= i < |stale| ==> stale[i].level <= 1 && inputs[i].name == FileName(stale[i])
  }

  lemma InputNames(levels: LevelList, lv: Levels<Table>)
    requires LevelsMatch(levels, lv)
    ensures StaleNames(NamesOf(0, lv.l0) + NamesOf(1, lv.l1), AllMetas(levels))
  {
    hide LevelsMatch, AllMetas, FileName, LevelOf;
    var stale, inputs := NamesOf(0, lv.l0) + NamesOf(1, lv.l1), AllMetas(levels);
    InputCount(levels, lv);
    forall i: nat | i < |stale| ensures stale[i].level <= 1 && inputs[i].name == FileName(stale[i]) {
      var l := InputAt(levels, lv, i);
    }
  }

  lemma Level0Filled(levels: LevelList, lv: Levels<Table>)
    requires LevelsMatch(levels, lv) && levels != [] && levels[0] != []
    ensures lv.l0 != []
  {
    hide LevelsMatch;
    LevelSizes(levels, lv, 0);
  }

  /** The merged table, as handle and as what the machine holds. */
  ghost predicate MergedInto(s: Sys, output: Option<SstMeta>) {
    && s.mode.Runs? && s.mode.e.flusher.MergedTo? && |s.mode.e.flusher.out| == (if output.Some? then 1 else 0)
    && (output.Some? ==> output.value == MetaOf(1, s.mode.e.flusher.out[0])
                         && s.mode.e.flusher.out[0].meta.seqno <= U64_MAX)
  }

  /** What a compaction makes of the levels: one table without tombstones holding the merge of all
      of them, or nothing at all. */
  ghost predicate Compacted(before: Levels<Table>, seqno: nat, after: Levels<Table>) {
    exists out :: IsMerge(RunsOf(before.l0 + before.l1), out) && after == Levels([], MergedTable(seqno, out))
  }

  function MergedTable(seqno: nat, out: seq<Record>): seq<Table> {
    if out == [] then [] else [TableFrom(seqno, out)]
  }

  lemma CompactedShape(before: Levels<Table>, seqno: nat, after: Levels<Table>)
    requires Compacted(before, seqno, after)
    ensures after.l0 == [] && |after.l1| <= 1
  {
  }

  /** A compacted level holds no tombstone. */
  lemma CompactedHasNoTombstone(before: Levels<Table>, seqno: nat, after: Levels<Table>)
    requires Compacted(before, seqno, after)
    ensures forall t, i :: t in after.l1 && 0 <= i < |t.records| ==> !t.records[i].deleted
  {
    var out: seq<Record> :| IsMerge(RunsOf(before.l0 + before.l1), out) && after == Levels([], MergedTable(seqno, out));
    forall i | 0 <= i < |out| ensures !out[i].deleted {
      MergeDropsTombstones(RunsOf(before.l0 + before.l1), out, i);
    }
  }

  lemma MergeEffect(s: Sys, out: seq<Record>)
    requires s.mode.Runs?
    ensures var s' := DoCompactMerge(s, out);
            && s'.mode.Runs? && s'.hist == s.hist && s'.mode.e.writer == s.mode.e.writer
              && s'.mode.e.levels == s.mode.e.levels
            && s'.mode.e.flusher == MergedTo(MergedTable(s.mode.e.nextSeq, out))
            && (out != [] ==> TableFrom(s.mode.e.nextSeq, out).meta.seqno == s.mode.e.nextSeq
                              && TableFrom(s.mode.e.nextSeq, out).records == out)
  {
  }

  lemma MergedFileOk(s: Sys, out: seq<Record>)
    requires s.mode.Runs? && RunInv(DoCompactMerge(s, out)) && out != []
    ensures TableOk(TableFrom(s.mode.e.nextSeq, out))
  {
    hide RunInv, TableOk, TableFrom, DoCompactMerge;
    MergeEffect(s, out);
    MergedTableFits(DoCompactMerge(s, out));
    assert DoCompactMerge(s, out).mode.e.flusher.out[0] == TableFrom(s.mode.e.nextSeq, out);
  }

  lemma ReplaceEffect(s: Sys)
    requires s.mode.Runs? && s.mode.e.flusher.MergedTo?
    ensures var s' := ReplaceState(s);
            && s'.mode.Runs? && s'.hist == s.hist && s'.mode.e.writer == s.mode.e.writer
            && s'.mode.e.levels == Levels([], s.mode.e.flusher.out)
            && s'.mode.e.flusher == Purging(NamesOf(0, s.mode.e.levels.l0) + NamesOf(1, s.mode.e.levels.l1))
  {
  }

  // ---- Writing the MANIFEST ----

  lemma TrimFits(levels: LevelList)
    requires LevelListOk(levels)
    ensures forall l, i :: 0 <= l < |Trim(levels)| && 0 <= i < |Trim(levels)[l]| ==> MetaFits(Trim(levels)[l][i])
  {
    hide MetaFits;
    TrimOk(levels);
    forall l, i | 0 <= l < |Trim(levels)| && 0 <= i < |Trim(levels)[l]| ensures MetaFits(Trim(levels)[l][i]) {
      assert LevelOk(l, Trim(levels)[l]);
    }
  }

  lemma {:induction false} TrimKeepsBytes(levels: LevelList)
    ensures ManifestBytes(Trim(levels)) == ManifestBytes(levels)
  {
    if levels != [] && levels[|levels| - 1] == [] {
      var init := levels[..|levels| - 1];
      TrimKeepsBytes(init);
      EncodeLevelsSnoc(init, 0, []);
      assert levels == init + [[]] && EncodeLevels(init, 0) + [] == EncodeLevels(init, 0);
    }
  }

  /** Rebuilds the manifest from the levels, one `add` per handle. */
  method RebuildManifest(levels: LevelList) returns (m: Manifest)
    requires Named(levels) && LevelListOk(levels)
    ensures fresh(m) && m.levels == Trim(levels)
  {
    hide LevelOk, SeqsAscend, MetaFits, FileName, Added, InsertMeta, Partial, Padded;
    m := new Manifest();
    for l := 0 to |levels|
      invariant fresh(m) && m.levels == Trim(levels[..l])
    {
      ghost var done, ms := levels[..l], levels[l];
      assert LevelOk(l, ms);
      PartialEnds(done, ms);
      for i := 0 to |levels[l]|
        invariant fresh(m) && m.levels == Partial(done, ms, i)
      {
        var meta := levels[l][i].(level := l);
        assert meta == ms[i];
        AddNext(done, ms, i);
        m.Add(meta);
      }
      assert ms[..|ms|] == ms && levels[..l + 1] == done + [ms] && (done + [ms])[..l] == done;
    }
    assert levels[..|levels|] == levels;
  }

  lemma AddNext(done: LevelList, ms: seq<SstMeta>, i: nat)
    requires i < |ms| && LevelOk(|done|, ms)
    ensures ms[i].level == |done|
    ensures var grown := Padded(Partial(done, ms, i), |done| + 1);
            |done| < |grown| && grown[|done| := InsertMeta(grown[|done|], ms[i])] == Partial(done, ms, i + 1)
  {
    var l := |done|;
    var grown := Padded(Partial(done, ms, i), l + 1);
    PlaceNext(done, ms, i);
    assert grown[l] == ms[..i] by {
      if i == 0 {
        PadTrim(done);
        PadMore(Trim(done), l);
      } else {
        assert Padded(done + [ms[..i]], l + 1) == done + [ms[..i]];
      }
    }
    InsertLargest(ms[..i], ms[i]);
  }
}
