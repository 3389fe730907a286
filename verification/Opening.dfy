/** Opening a directory (src/engine.rs, `open_with_options`): load the MANIFEST, replay every log,
    re-append what was recovered to a fresh log, and only then delete the old ones. */
module EngineOpening {
  import opened Outcomes
  import opened Bytes
  import opened Records
  import opened Layers
  import opened BloomFilter
  import opened WriteAheadLog
  import opened Memtables
  import opened ManifestFile
  import opened Machine
  import opened Overlays
  import opened Invariants
  import opened OpenSteps
  import opened Guarantees
  import opened DiskImage
  import opened EngineRuns
  import opened EngineViews
  import opened KeyValueEngine
  import ManifestExact

  // ---- What the files of a directory say ----

  /** The tables the MANIFEST names; no file means no table. */
  function LoadedLevels(manifest: Option<Bytes>): Result<LevelList> {
    match manifest
    case None => Ok([])
    case Some(bytes) => ParseManifest(bytes)
  }

  ghost predicate AllPresent(levels: LevelList, ssts: map<Bytes, Bytes>) {
    forall l, i :: 0 <= l < |levels| && 0 <= i < |levels[l]| ==> levels[l][i].name in ssts
  }

  ghost predicate AllScan(logs: map<nat, Bytes>, gens: seq<nat>, crc: Checksum) {
    forall i :: 0 <= i < |gens| ==> gens[i] in logs && ScanFrom(crc, logs[gens[i]], 0).Ok?
  }

  /** What `open` accepts: a MANIFEST that decodes, all its tables' files, and no corrupt log. */
  ghost predicate Openable(f: Files, crc: Checksum) {
    && LoadedLevels(f.manifest).Ok? && AllPresent(LoadedLevels(f.manifest).value, f.ssts)
    && AllScan(f.logs, InOrder(f.logs.Keys), crc)
  }

  /** The complete entries of a log. */
  function Entries(crc: Checksum, log: Bytes): seq<WalEntry> {
    var r := ScanFrom(crc, log, 0);
    if r.Ok? then r.value else []
  }

  /** The logs `gens` replayed one after another into an empty memtable. */
  function ReplayedLogs(logs: map<nat, Bytes>, gens: seq<nat>, crc: Checksum): Mem {
    if gens == [] then map[]
    else
      var n := |gens| - 1;
      ReplayedLogs(logs, gens[..n], crc) + if gens[n] in logs then Replay(Entries(crc, logs[gens[n]])) else map[]
  }

  /** The size estimate after replaying them: every entry of every log counts. */
  function ReplayedSize(logs: map<nat, Bytes>, gens: seq<nat>, crc: Checksum): nat {
    if gens == [] then 0
    else
      var n := |gens| - 1;
      ReplayedSize(logs, gens[..n], crc) + if gens[n] in logs then ReplaySize(Entries(crc, logs[gens[n]])) else 0
  }

  lemma ReplayedNext(logs: map<nat, Bytes>, gens: seq<nat>, i: nat, crc: Checksum)
    requires i < |gens| && gens[i] in logs
    ensures ReplayedLogs(logs, gens[..i + 1], crc) ==
              ReplayedLogs(logs, gens[..i], crc) + Replay(Entries(crc, logs[gens[i]]))
    ensures ReplayedSize(logs, gens[..i + 1], crc) ==
              ReplayedSize(logs, gens[..i], crc) + ReplaySize(Entries(crc, logs[gens[i]]))
  {
    assert gens[..i + 1][..i] == gens[..i];
  }

  // ---- Re-appending is never refused ----

  ghost predicate MemFits(m: Mem) {
    forall k :: k in m ==> |k| <= MAX_KEY_LEN && |m[k].value| <= MAX_VALUE_LEN
  }

  lemma {:induction false} ReplayedFits(es: seq<WalEntry>)
    requires AllFramable(es)
    ensures MemFits(Replay(es))
  {
    if es != [] { ReplayedFits(es[..|es| - 1]); }
  }

  /** Whatever the logs hold, what they replay to can be logged again. */
  lemma {:induction false} RecoveredFits(logs: map<nat, Bytes>, gens: seq<nat>, crc: Checksum)
    ensures MemFits(ReplayedLogs(logs, gens, crc))
  {
    hide Entries, Replay;
    if gens != [] {
      var n := |gens| - 1;
      RecoveredFits(logs, gens[..n], crc);
      if gens[n] in logs {
        EntriesFramable(crc, logs[gens[n]]);
        ReplayedFits(Entries(crc, logs[gens[n]]));
      }
    }
  }

  lemma EntriesFramable(crc: Checksum, log: Bytes)
    ensures AllFramable(Entries(crc, log))
  {
    hide ScanFrom;
    if ScanFrom(crc, log, 0).Ok? { ScanExact(crc, log, 0); }
  }

  lemma RecordsLoggable(m: Mem, i: nat)
    requires MemFits(m) && i < |SortedRecords(m)|
    ensures var e := LogEntry(SortedRecords(m)[i]); EncodeOutcome(e.op, e.key, e.value) == Ok(())
  {
    hide SortedRecords;
    SortedRecordsCorrect(m);
    MemOfAt(SortedRecords(m), i);
  }

  lemma RecordToLog(rec: Record, op: WalOp, value: Bytes)
    requires op == (if rec.deleted then WalOp.Delete else WalOp.Put) && value == if rec.deleted then [] else rec.value
    ensures LogEntry(rec) == WalEntry(op, rec.key, value)
  {
  }

  lemma NothingToLog()
    ensures LogEntries(SortedRecords(map[])) == []
  {
  }

  // ---- The numbers in use ----

  ghost predicate LevelsUpTo(levels: LevelList, m: nat) {
    forall l, i :: 0 <= l < |levels| && 0 <= i < |levels[l]| ==> levels[l][i].seqno <= m
  }

  ghost predicate InLevels(levels: LevelList, m: nat) {
    exists l, i :: 0 <= l < |levels| && 0 <= i < |levels[l]| && levels[l][i].seqno == m
  }

  /** `m` is the largest number any table or log bears, and 0 when there is none. */
  ghost predicate LargestNumber(m: nat, levels: LevelList, gens: seq<nat>) {
    && LevelsUpTo(levels, m) && (forall i :: 0 <= i < |gens| ==> gens[i] <= m)
    && (m == 0 || m in gens || InLevels(levels, m))
  }

  lemma {:induction false} LargestIsIn(gs: seq<nat>)
    ensures Largest(gs) == 0 || Largest(gs) in gs
  {
    if gs != [] {
      LargestIsIn(gs[..|gs| - 1]);
      assert gs == gs[..|gs| - 1] + [gs[|gs| - 1]];
    }
  }

  /** The numbers the two levels list are those of the disk's manifest. */
  lemma NumberListed(levels: LevelList, manifest: Levels<Meta>, l: nat, i: nat)
    requires Named(levels) && LevelsAt(levels) == manifest
    ensures |levels| <= 2
    ensures l < |levels| && i < |levels[l]| ==>
              i < |SeqsOf(if l == 0 then manifest.l0 else manifest.l1)|
              && SeqsOf(if l == 0 then manifest.l0 else manifest.l1)[i] == levels[l][i].seqno
    ensures l <= 1 && i < |SeqsOf(if l == 0 then manifest.l0 else manifest.l1)| ==> l < |levels| && i < |levels[l]|
  {
    hide FileName;
  }

  lemma NumbersBelow(m: nat, levels: LevelList, manifest: Levels<Meta>, gens: seq<nat>, k: nat)
    requires Named(levels) && LevelsAt(levels) == manifest && LargestNumber(m, levels, gens)
    requires k in SeqsOf(manifest.l0) + SeqsOf(manifest.l1) + gens
    ensures k <= m
  {
    hide Named, LevelsAt, SeqsOf, InLevels;
    var a, b := SeqsOf(manifest.l0), SeqsOf(manifest.l1);
    if k in gens {
      var i :| 0 <= i < |gens| && gens[i] == k;
    } else if k in a {
      var i :| 0 <= i < |a| && a[i] == k;
      NumberListed(levels, manifest, 0, i);
    } else {
      var i :| 0 <= i < |b| && b[i] == k;
      NumberListed(levels, manifest, 1, i);
    }
  }

  lemma NumberIn(m: nat, levels: LevelList, manifest: Levels<Meta>, gens: seq<nat>)
    requires Named(levels) && LevelsAt(levels) == manifest && LargestNumber(m, levels, gens)
    ensures m == 0 || m in SeqsOf(manifest.l0) + SeqsOf(manifest.l1) + gens
  {
    hide Named, LevelsAt, SeqsOf, LevelsUpTo;
    if m != 0 && m !in gens {
      var l, i :| 0 <= l < |levels| && 0 <= i < |levels[l]| && levels[l][i].seqno == m;
      NumberListed(levels, manifest, l, i);
      assert m in SeqsOf(if l == 0 then manifest.l0 else manifest.l1);
    }
  }

  lemma NumbersOfDisk(m: nat, levels: LevelList, d: Disk)
    requires Named(levels) && LevelsAt(levels) == d.manifest && LargestNumber(m, levels, InOrder(d.wals.Keys))
    ensures FirstFree(d) == m + 1
  {
    hide InOrder, Named, LevelsAt, LargestNumber, SeqsOf, Largest;
    var gens := InOrder(d.wals.Keys);
    var all := SeqsOf(d.manifest.l0) + SeqsOf(d.manifest.l1) + gens;
    LargestIsIn(all);
    NumberIn(m, levels, d.manifest, gens);
    if Largest(all) in all { NumbersBelow(m, levels, d.manifest, gens, Largest(all)); }
  }

  // ---- Opening a directory that stands for a disk at rest ----

  lemma {:induction false} ReplayedIsOverlay(logs: map<nat, Bytes>, wals: map<nat, Wal>, gens: seq<nat>, crc: Checksum)
    requires LogsScan(logs, wals, crc) && forall i :: 0 <= i < |gens| ==> gens[i] in wals
    ensures AllScan(logs, gens, crc) && ReplayedLogs(logs, gens, crc) == OverlayMems(Logs(wals), gens)
  {
    hide ScanFrom, Replay;
    if gens != [] { ReplayedIsOverlay(logs, wals, gens[..|gens| - 1], crc); }
  }

  lemma RestOpens(f: Files, s: Sys, crc: Checksum, hash: Hash)
    requires DownInv(s) && RestImage(f, s.disk, crc, hash)
    ensures Openable(f, crc) && ReplayedLogs(f.logs, InOrder(f.logs.Keys), crc) == ReplayedMem(s.disk)
    ensures LoadedLevels(f.manifest).Ok? && Named(LoadedLevels(f.manifest).value)
            && LevelListOk(LoadedLevels(f.manifest).value)
    ensures LevelsAt(LoadedLevels(f.manifest).value) == s.disk.manifest
  {
    hide ScanFrom, ReplayedLogs, OverlayMems, ParseManifest, TableFile, FileName;
    hide InOrder, Recovered, ShowsPrefix, LevelsOk, Logs, History;
    InOrderCorrect(s.disk.wals.Keys);
    var gens := InOrder(s.disk.wals.Keys);
    forall i | 0 <= i < |gens| ensures gens[i] in s.disk.wals {
      assert gens[i] in Elements(gens);
    }
    ReplayedIsOverlay(f.logs, s.disk.wals, gens, crc);
    var levels := LoadedLevels(f.manifest).value;
    if f.manifest.Some? { DecodedIsCanonical(f.manifest.value); }
    ListedFilesPresent(levels, f.ssts, s.disk, hash);
  }

  lemma ListedFilesPresent(levels: LevelList, files: map<Bytes, Bytes>, d: Disk, hash: Hash)
    requires Named(levels) && LevelsAt(levels) == d.manifest && ManifestPresent(d.manifest, d.ssts)
             && SstsImage(files, d.ssts, hash)
    ensures AllPresent(levels, files)
  {
    hide TableFile, FileName;
    forall l, i | 0 <= l < |levels| && 0 <= i < |levels[l]| ensures levels[l][i].name in files {
      var n := Name(l, levels[l][i].seqno);
      assert (if l == 0 then d.manifest.l0[i] else d.manifest.l1[i]).seqno == levels[l][i].seqno;
      assert n in d.ssts;
    }
  }

  /** The fields `open` ends with, over a disk at rest. */
  ghost function OpenedFields(f: Files, levels: LevelList, mem: Mem, n: nat, crc: Checksum): Fields {
    var es := LogEntries(SortedRecords(mem));
    Fields(mem, [], levels, n, n + 1, es, Files(f.manifest, f.ssts, map[n := Frames(crc, es)]))
  }

  lemma OpenedViews(f: Files, s: Sys, crc: Checksum, hash: Hash)
    requires DownInv(s) && RestImage(f, s.disk, crc, hash)
    ensures LoadedLevels(f.manifest).Ok?
    ensures Views(OpenedFields(f, LoadedLevels(f.manifest).value, ReplayedMem(s.disk), FirstFree(s.disk), crc),
              OpenedState(s), crc, hash)
  {
    hide DownInv, RestImage, ManifestImage, SstsImage, TableFile, FileName;
    hide InOrder, ReplayedMem, FirstFree, SortedRecords, Frames;
    hide ManifestPresent, Listed, Openable, Named, LevelListOk, LevelsAt, LogImage;
    RestParts(f, s, crc, hash);
    RestOpens(f, s, crc, hash);
    var rs, n := ReplayedRecords(s.disk), FirstFree(s.disk);
    var es := LogEntries(rs);
    LoadedIsStored(s.disk.manifest, s.disk.ssts);
    FullLogImage(es, |rs|, crc);
    OneLogImage(n, Frames(crc, es), Wal(es, |rs|), crc);
  }

  lemma OneLogImage(n: nat, bytes: Bytes, w: Wal, crc: Checksum)
    requires LogImage(bytes, w, crc)
    ensures LogsImage(map[n := bytes], map[n := w], crc)
  {
  }

  lemma RestParts(f: Files, s: Sys, crc: Checksum, hash: Hash)
    requires DownInv(s) && RestImage(f, s.disk, crc, hash)
    ensures ManifestPresent(s.disk.manifest, s.disk.ssts)
    ensures ManifestImage(f.manifest, s.disk.manifest) && SstsImage(f.ssts, s.disk.ssts, hash)
    ensures AllFramable(LogEntries(ReplayedRecords(s.disk)))
  {
    hide LevelsOk, Recovered, ShowsPrefix, History, InOrder, Logs;
    hide OverlayMems, SortedRecords, ManifestImage, SstsImage, LogsScan;
    RecoveredAdmissible(s.disk.wals, InOrder(s.disk.wals.Keys));
    var rs := ReplayedRecords(s.disk);
    assert rs == SortedRecords(OverlayMems(Logs(s.disk.wals), InOrder(s.disk.wals.Keys)));
    forall i | 0 <= i < |rs| ensures Framable(LogEntries(rs)[i]) {
      assert Admissible(LogEntry(rs[i]));
    }
  }

  // ---- A kill while opening ----

  /** Opening this directory shows `hist`: it stands for a disk at rest with that history. */
  ghost predicate ShowsHistory(f: Files, hist: seq<WalEntry>, crc: Checksum, hash: Hash) {
    exists a :: RestsAs(f, a, hist, crc, hash)
  }

  ghost predicate RestsAs(f: Files, a: Sys, hist: seq<WalEntry>, crc: Checksum, hash: Hash) {
    DownInv(a) && RestImage(f, a.disk, crc, hash) && a.hist == hist
  }

  /** The directory while `open` works: the old logs as they were found, torn tails included, and of
      the fresh one whatever the operating system has. */
  ghost predicate OpeningImage(f: Files, s: Sys, crc: Checksum, hash: Hash) {
    && s.mode.Opens? && ManifestImage(f.manifest, s.disk.manifest) && SstsImage(f.ssts, s.disk.ssts, hash)
    && f.logs.Keys == s.disk.wals.Keys
    && forall g :: g in s.disk.wals ==>
         if g == s.mode.o.newSeq then LogImage(f.logs[g], s.disk.wals[g], crc)
         else ScanFrom(crc, f.logs[g], 0) == Ok(s.disk.wals[g].entries)
  }

  lemma CutsWhileOpening(logs: map<nat, Bytes>, wals: map<nat, Wal>, n: nat, crc: Checksum)
    requires logs.Keys == wals.Keys
    requires forall g :: g in wals ==>
               if g == n then LogImage(logs[g], wals[g], crc)
               else wals[g].kept == |wals[g].entries| && ScanFrom(crc, logs[g], 0) == Ok(wals[g].entries)
    ensures var cut := CutOf(logs, wals, crc);
            ValidCut(wals, cut) && LogsScan(logs, CutWals(wals, cut), crc)
  {
    hide ScanFrom, LogImage;
    var cut := CutOf(logs, wals, crc);
    forall g | g in wals
      ensures wals[g].kept <= cut[g] <= |wals[g].entries| && ScanFrom(crc, logs[g], 0) == Ok(wals[g].entries[..cut[g]])
    {
      if g == n {
        var m := CutOfLog(logs[g], wals[g], crc);
      } else {
        assert wals[g].entries[..|wals[g].entries|] == wals[g].entries;
      }
    }
  }

  lemma OpeningCut(f: Files, s: Sys, crc: Checksum, hash: Hash)
    requires OpenInv(s) && OpeningImage(f, s, crc, hash)
    ensures var cut := CutOf(f.logs, s.disk.wals, crc);
            ValidCut(s.disk.wals, cut) && LogsScan(f.logs, CutWals(s.disk.wals, cut), crc)
  {
    hide ListedOk, OpenLog, WalsAdmissible, ShowsPrefix, OverlayMems, ScanFrom;
    hide LogImage, ManifestImage, SstsImage, Elements, Increasing;
    hide CutOf, ValidCut, LogsScan, CutWals, Ascending, MemOf, Live, OverlayLevels;
    CutsWhileOpening(f.logs, s.disk.wals, s.mode.o.newSeq, crc);
  }

  /** Killed while opening, the process leaves a directory that shows the same history. */
  lemma KilledWhileOpening(f: Files, s: Sys, crc: Checksum, hash: Hash)
    requires OpenInv(s) && s.mode.Opens? && OpeningImage(f, s, crc, hash)
    ensures ShowsHistory(f, s.hist, crc, hash)
  {
    hide RunInv, DownInv, Inv, OpenInv, LogsScan, ManifestImage, SstsImage;
    hide CutOf, ValidCut, CutWals, Enabled, After, ScanFrom, LogImage;
    var cut := CutOf(f.logs, s.disk.wals, crc);
    OpeningCut(f, s, crc, hash);
    OpeningInv(s);
    CrashIsPossible(s, cut);
    OpenCrashKeepsInv(s, cut);
    CrashDisk(s, cut);
    CrashKeepsOpenHistory(s, cut);
    assert RestsAs(f, After(s, Crash(cut)), s.hist, crc, hash);
  }

  lemma OpeningInv(s: Sys)
    requires OpenInv(s)
    ensures Inv(s) && !s.mode.Down?
  {
  }

  lemma CrashKeepsOpenHistory(s: Sys, cut: map<nat, nat>)
    requires s.mode.Opens? && Enabled(s, Crash(cut))
    ensures After(s, Crash(cut)).hist == s.hist
  {
    hide CutWals;
  }

  /** After `k` records are re-appended, whatever part of their frames the operating system has. */
  lemma ReappendingImage(f: Files, s: Sys, k: nat, bytes: Bytes, crc: Checksum, hash: Hash)
    requires DownInv(s) && RestImage(f, s.disk, crc, hash) && k <= |ReplayedRecords(s.disk)|
    requires bytes <= Frames(crc, LogEntries(ReplayedRecords(s.disk)[..k]))
    ensures ManifestPresent(s.disk.manifest, s.disk.ssts)
    ensures OpeningImage(WithLog(f, FirstFree(s.disk), bytes), ReappendedState(s, k), crc, hash)
  {
    hide DownInv, ManifestImage, SstsImage, TableFile, FileName;
    hide InOrder, ReplayedMem, FirstFree, SortedRecords, ScanFrom;
    hide ManifestPresent, Listed, Frames, ReplayedRecords;
    RestParts(f, s, crc, hash);
    var rs := ReplayedRecords(s.disk);
    assert forall i :: 0 <= i < k ==> LogEntries(rs[..k])[i] == LogEntries(rs)[i];
    FreshLogImage(bytes, LogEntries(rs[..k]), crc);
  }

  lemma FreshLogImage(bytes: Bytes, es: seq<WalEntry>, crc: Checksum)
    requires AllFramable(es) && bytes <= Frames(crc, es)
    ensures LogImage(bytes, Wal(es, 0), crc)
  {
    assert es[..0] == [];
  }

  /** After the sync, with the oldest `k` generations deleted. */
  lemma DeletingImage(f: Files, s: Sys, k: nat, crc: Checksum, hash: Hash)
    requires DownInv(s) && RestImage(f, s.disk, crc, hash) && k <= |InOrder(s.disk.wals.Keys)|
    ensures ManifestPresent(s.disk.manifest, s.disk.ssts)
    ensures OpeningImage(BackedFiles(f, s, k, crc), BackedState(s, k), crc, hash)
  {
    hide DownInv, ManifestImage, SstsImage, TableFile, FileName;
    hide InOrder, ReplayedMem, FirstFree, SortedRecords, ScanFrom;
    hide ManifestPresent, Listed, Frames, ReplayedRecords, LogImage, Elements;
    RestParts(f, s, crc, hash);
    FreshStays(s.disk, k);
    var es := LogEntries(ReplayedRecords(s.disk));
    FullLogImage(es, |es|, crc);
  }

  ghost function BackedFiles(f: Files, s: Sys, k: nat, crc: Checksum): Files
    requires k <= |InOrder(s.disk.wals.Keys)|
  {
    f.(logs := f.logs[FirstFree(s.disk) := BackedLog(s, crc)] - Elements(InOrder(s.disk.wals.Keys)[..k]))
  }

  /** The fresh log with everything recovered in it. */
  ghost function BackedLog(s: Sys, crc: Checksum): Bytes {
    Frames(crc, LogEntries(ReplayedRecords(s.disk)))
  }

  lemma ReappendedInv(s: Sys, k: nat)
    requires DownInv(s) && ManifestPresent(s.disk.manifest, s.disk.ssts) && k <= |ReplayedRecords(s.disk)|
    ensures OpenInv(ReappendedState(s, k)) && ReappendedState(s, k).mode.Opens? && ReappendedState(s, k).hist == s.hist
  {
    hide DownInv, OpenInv, RunInv, Inv, Leads, InOrder;
    hide FirstFree, Listed, ManifestPresent, ReplayedMem, ReplayedRecords;
    InvOfDown(s);
    ReappendLeads(s, k);
    LeadsKeepsInv(s, StepsOfOpen(s)[..k + 1], ReappendedState(s, k));
    InvByMode(ReappendedState(s, k));
  }

  lemma BackedInv(s: Sys, k: nat)
    requires DownInv(s) && ManifestPresent(s.disk.manifest, s.disk.ssts) && k <= |InOrder(s.disk.wals.Keys)|
    ensures OpenInv(BackedState(s, k)) && BackedState(s, k).mode.Opens? && BackedState(s, k).hist == s.hist
  {
    hide DownInv, OpenInv, RunInv, Inv, Leads, InOrder;
    hide FirstFree, Listed, ManifestPresent, ReplayedMem, ReplayedRecords;
    InvOfDown(s);
    BackedLeads(s, k);
    LeadsKeepsInv(s, StepsOfOpen(s)[..|ReplayedRecords(s.disk)| + 2 + k], BackedState(s, k));
    InvByMode(BackedState(s, k));
  }

  /** A kill while re-appending, at any byte, loses nothing. */
  lemma KilledWhileReappending(f: Files, s: Sys, k: nat, bytes: Bytes, crc: Checksum, hash: Hash)
    requires DownInv(s) && RestImage(f, s.disk, crc, hash) && k <= |ReplayedRecords(s.disk)|
    requires bytes <= Frames(crc, LogEntries(ReplayedRecords(s.disk)[..k]))
    ensures ShowsHistory(WithLog(f, FirstFree(s.disk), bytes), s.hist, crc, hash)
  {
    hide DownInv, OpenInv, RestImage, OpeningImage, ReappendedState;
    hide FirstFree, ManifestPresent, ReplayedRecords, Frames, ShowsHistory;
    ReappendingImage(f, s, k, bytes, crc, hash);
    ReappendedInv(s, k);
    KilledWhileOpening(WithLog(f, FirstFree(s.disk), bytes), ReappendedState(s, k), crc, hash);
  }

  /** A kill between any two deletions of old generations loses nothing. */
  lemma KilledWhileDeleting(f: Files, s: Sys, k: nat, crc: Checksum, hash: Hash)
    requires DownInv(s) && RestImage(f, s.disk, crc, hash) && k <= |InOrder(s.disk.wals.Keys)|
    ensures ShowsHistory(BackedFiles(f, s, k, crc), s.hist, crc, hash)
  {
    hide DownInv, OpenInv, RestImage, OpeningImage, BackedState, BackedFiles, InOrder, ManifestPresent, ShowsHistory;
    DeletingImage(f, s, k, crc, hash);
    BackedInv(s, k);
    KilledWhileOpening(BackedFiles(f, s, k, crc), BackedState(s, k), crc, hash);
  }

  // ---- `open_with_options`, step by step ----

  /** Loads the MANIFEST and checks that every table it names has its file. */
  method LoadTables(dir: Directory) returns (r: Result<LevelList>)
    ensures r.Ok? <==> LoadedLevels(dir.manifest).Ok? && AllPresent(LoadedLevels(dir.manifest).value, dir.ssts)
    ensures r.Ok? ==> r == LoadedLevels(dir.manifest)
    ensures r.Err? ==> r.error == Corruption
  {
    hide ParseManifest;
    var levels: LevelList := [];
    if dir.manifest.Some? {
      var parsed := Decode(dir.manifest.value);
      if parsed.Err? {
        ManifestExact.ParseErrors(dir.manifest.value);
        return Err(parsed.error);
      }
      levels := parsed.value;
    }
    for l := 0 to |levels|
      invariant forall k, i :: 0 <= k < l && 0 <= i < |levels[k]| ==> levels[k][i].name in dir.ssts
    {
      for j := 0 to |levels[l]|
        invariant forall i :: 0 <= i < j ==> levels[l][i].name in dir.ssts
      {
        if levels[l][j].name !in dir.ssts { return Err(Corruption); }
      }
    }
    r := Ok(levels);
  }

  /** Replays every log into the memtable, oldest first; nothing is deleted yet. */
  method ReplayAll(dir: Directory, gens: seq<nat>, crc: Checksum, mem: MemTable) returns (r: Result<()>)
    requires mem.entries == map[] && forall i :: 0 <= i < |gens| ==> gens[i] in dir.logs
    modifies mem
    ensures r.Ok? <==> AllScan(dir.logs, gens, crc)
    ensures r.Ok? ==> mem.entries == ReplayedLogs(dir.logs, gens, crc)
    ensures r.Ok? ==> mem.approximateSize == old(mem.approximateSize) + ReplayedSize(dir.logs, gens, crc)
    ensures r.Err? ==> r.error == Corruption
  {
    hide ScanFrom, Replay, ReplaySize;
    for i := 0 to |gens|
      invariant AllScan(dir.logs, gens[..i], crc) && mem.entries == ReplayedLogs(dir.logs, gens[..i], crc)
      invariant mem.approximateSize == old(mem.approximateSize) + ReplayedSize(dir.logs, gens[..i], crc)
    {
      ReplayedNext(dir.logs, gens, i, crc);
      var replayed := ReplayInto(crc, dir.logs[gens[i]], mem);
      if replayed.Err? {
        assert !AllScan(dir.logs, gens, crc);
        return Err(replayed.error);
      }
    }
    assert gens[..|gens|] == gens;
    r := Ok(());
  }

  /** The largest file number in use, or 0. */
  method MaxNumber(levels: LevelList, gens: seq<nat>) returns (m: nat)
    ensures LargestNumber(m, levels, gens)
  {
    m := 0;
    for l := 0 to |levels|
      invariant LevelsUpTo(levels[..l], m) && (m == 0 || InLevels(levels, m))
    {
      for i := 0 to |levels[l]|
        invariant LevelsUpTo(levels[..l], m) && (m == 0 || InLevels(levels, m))
        invariant forall j :: 0 <= j < i ==> levels[l][j].seqno <= m
      {
        if levels[l][i].seqno > m { m := levels[l][i].seqno; }
      }
    }
    assert levels[..|levels|] == levels;
    for i := 0 to |gens|
      invariant LevelsUpTo(levels, m) && (m == 0 || m in gens || InLevels(levels, m))
      invariant forall j :: 0 <= j < i ==> gens[j] <= m
    {
      if gens[i] > m { m := gens[i]; }
    }
  }

  /** Re-appends the recovered memtable to the fresh log and syncs it. Of a directory at rest as `s`,
      every directory in between still shows the same history. */
  method BackUp(mem: MemTable, writer: WalWriter, ghost was: Files, ghost s: Sys, ghost hash: Hash)
    returns (r: Result<()>)
    requires writer.Valid() && writer.entries == [] && writer.file == [] && writer.buffered == []
             && MemFits(mem.entries)
    modifies writer
    ensures r.Ok? && writer.Valid() && writer.buffered == []
    ensures writer.entries == LogEntries(SortedRecords(mem.entries))
            && writer.file == Frames(writer.crc, writer.entries)
  {
    hide Frames, SortedRecords, EncodeOutcome, MemFits, Ascending, MemOf, LogEntries, LogEntry, DownInv, RestImage;
    hide ReplayedRecords, FirstFree, ShowsHistory, AllFramable;
    ghost var rests := Recovers(was, s, mem.entries, writer.crc, hash);
    var isEmpty := mem.IsEmpty();
    if isEmpty {
      NothingToLog();
      WholeIffNothingMore(writer.file, writer.buffered);
      return Ok(());
    }
    var records := mem.Iter();
    for i := 0 to |records|
      invariant writer.Valid() && writer.entries == LogEntries(records)[..i]
      invariant rests && i > 0 ==> ShowsHistory(WithLog(was, FirstFree(s.disk), writer.file), s.hist, writer.crc, hash)
    {
      RecordsLoggable(mem.entries, i);
      var op := if records[i].deleted then WalOp.Delete else WalOp.Put;
      var value := if records[i].deleted then [] else records[i].value;
      RecordToLog(records[i], op, value);
      var appended := writer.Append(op, records[i].key, value);
      EntriesNext(records, i);
      EntriesSoFar(records, i + 1);
      if rests { KilledWhileReappending(was, s, i + 1, writer.file, writer.crc, hash); }
    }
    AllEntries(records);
    writer.Sync();
    r := Ok(());
  }

  /** The directory `was` is at rest as `s`, and `mem` is what its logs replay to. */
  ghost predicate Recovers(was: Files, s: Sys, mem: Mem, crc: Checksum, hash: Hash) {
    DownInv(s) && RestImage(was, s.disk, crc, hash) && SortedRecords(mem) == ReplayedRecords(s.disk)
  }

  lemma EntriesNext(rs: seq<Record>, i: nat)
    requires i < |rs|
    ensures LogEntries(rs)[..i + 1] == LogEntries(rs)[..i] + [LogEntry(rs[i])]
  {
  }

  lemma AllEntries(rs: seq<Record>)
    ensures LogEntries(rs)[..|rs|] == LogEntries(rs)
  {
  }

  lemma EntriesSoFar(rs: seq<Record>, k: nat)
    requires k <= |rs|
    ensures LogEntries(rs[..k]) == LogEntries(rs)[..k]
  {
  }

  /** Removes the old generations, oldest first. With all that was recovered in the fresh log, every
      directory in between still shows the same history. */
  method DeleteLogs(dir: Directory, gens: seq<nat>, ghost was: Files, ghost s: Sys, ghost crc: Checksum,
                    ghost hash: Hash)
    requires was == dir.AllFiles() && gens == InOrder(was.logs.Keys)
    modifies dir`logs
    ensures dir.logs == old(dir.logs) - Elements(gens)
  {
    hide DownInv, RestImage, ShowsHistory, InOrder, FirstFree, Frames, ReplayedRecords, Elements;
    ghost var rests := DownInv(s) && RestImage(was, s.disk, crc, hash);
    if rests { RestKeys(was, s, crc, hash); }
    ElementsOfNone();
    assert gens[..0] == [] && dir.logs - {} == dir.logs;
    for i := 0 to |gens|
      invariant dir.logs == old(dir.logs) - Elements(gens[..i])
      invariant rests && i > 0 ==> ShowsHistory(WithLog(dir.AllFiles(), FirstFree(s.disk), BackedLog(s, crc)),
                  s.hist, crc, hash)
    {
      assert gens[..i + 1] == gens[..i] + [gens[i]];
      ElementsSnoc(gens[..i], gens[i]);
      dir.logs := dir.logs - {gens[i]};
      if rests {
        FreshStays(s.disk, i + 1);
        KilledWhileDeleting(was, s, i + 1, crc, hash);
        DeletedUnder(was.logs, FirstFree(s.disk), BackedLog(s, crc), Elements(gens[..i + 1]));
      }
    }
    assert gens[..|gens|] == gens;
  }

  lemma ElementsOfNone()
    ensures Elements([]) == {}
  {
  }

  lemma DeletedUnder(logs: map<nat, Bytes>, n: nat, log: Bytes, gone: set<nat>)
    requires n !in gone
    ensures logs[n := log] - gone == (logs - gone)[n := log]
  {
  }

  /** Opens any directory: refuses it and leaves it alone, or comes up with exactly what its files
      say. If the directory is that of a disk at rest after any run and any crash, it is accepted,
      and the engine shows exactly the history that disk holds. */
  method OpenWithOptions(dir: Directory, crc: Checksum, hash: Hash, options: Options, ghost s: Sys)
    returns (r: Result<LsmEngine>)
    requires forall n :: Usable(options.newBloom(n))
    modifies dir
    ensures r.Ok? <==> old(Openable(dir.AllFiles(), crc))
    ensures r.Err? ==> unchanged(dir) && r.error == Corruption
    ensures r.Ok? ==> fresh(r.value) && fresh(r.value.active) && fresh(r.value.writer)
    ensures r.Ok? ==> r.value.dir == dir && r.value.crc == crc && r.value.hash == hash && r.value.options == options
    ensures r.Ok? ==> r.value.walSeq > 0 && r.value.nextSeq == r.value.walSeq + 1
                      && LargestNumber(r.value.walSeq - 1, r.value.levels, old(InOrder(dir.logs.Keys)))
    ensures r.Ok? ==> dir.manifest == old(dir.manifest) && dir.ssts == old(dir.ssts) && dir.logs == map[]
    ensures r.Ok? ==> Ok(r.value.levels) == LoadedLevels(dir.manifest) && r.value.immutables == []
    ensures r.Ok? ==> r.value.active.entries == old(ReplayedLogs(dir.logs, InOrder(dir.logs.Keys), crc))
    ensures r.Ok? ==> r.value.active.approximateSize == old(ReplayedSize(dir.logs, InOrder(dir.logs.Keys), crc))
    ensures r.Ok? ==> r.value.writer.entries == LogEntries(SortedRecords(r.value.active.entries))
                      && r.value.writer.file == Frames(crc, r.value.writer.entries)
    ensures old(DownInv(s) && RestImage(dir.AllFiles(), s.disk, crc, hash)) ==>
              r.Ok? && r.value.Valid() && r.value.Hist() == s.hist
    ensures old(DownInv(s) && RestImage(dir.AllFiles(), s.disk, crc, hash)) ==>
              r.value.sys == OpenedState(s) && r.value.origin == s
  {
    hide DownInv, RestImage, ScanFrom, Replay, ReplayedLogs, SortedRecords;
    hide Frames, ParseManifest, InOrder, LevelsUpTo, InLevels;
    hide Reached, Views, RunInv, FirstFree, AllScan, AllPresent;
    hide LoadedLevels, MemFits, LargestNumber, LogEntries, StepsOfOpen, OpenedState, ReplayedSize;
    hide LsmEngine.Valid, LsmEngine.Hist, Elements, WalWriter.Valid, Usable, Named, LevelListOk, LevelsAt, ReplayedMem;
    ghost var files, rests := dir.AllFiles(), DownInv(s) && RestImage(dir.AllFiles(), s.disk, crc, hash);
    if rests { RestOpens(files, s, crc, hash); }
    var loaded := LoadTables(dir);
    if loaded.Err? { return Err(loaded.error); }
    var levels := loaded.value;
    var active := new MemTable();
    var gens := InOrder(dir.logs.Keys);
    LogsInOrder(dir.logs);
    var replayed := ReplayAll(dir, gens, crc, active);
    if replayed.Err? { return Err(replayed.error); }
    var maxSeq := MaxNumber(levels, gens);
    var walSeq := maxSeq + 1;
    var writer := new WalWriter(crc);
    RecoveredFits(dir.logs, gens, crc);
    var backed := BackUp(active, writer, files, s, hash);
    DeleteLogs(dir, gens, files, s, crc, hash);
    assert dir.logs == map[];
    var engine := new LsmEngine(dir, crc, hash, options, active, levels, writer, walSeq, s);
    r := Ok(engine);
    if rests { OpenedIsValid(engine, files, s, maxSeq); }
  }

  /** What `open` put together stands for the state its steps lead to. */
  lemma OpenedIsValid(engine: LsmEngine, files: Files, s: Sys, maxSeq: nat)
    requires DownInv(s) && RestImage(files, s.disk, engine.crc, engine.hash)
    requires engine.origin == s && engine.steps == StepsOfOpen(s) && engine.sys == OpenedState(s)
    requires LoadedLevels(files.manifest) == Ok(engine.levels) && engine.immutables == []
    requires engine.active.entries == ReplayedLogs(files.logs, InOrder(files.logs.Keys), engine.crc)
    requires LargestNumber(maxSeq, engine.levels, InOrder(files.logs.Keys))
    requires engine.walSeq == maxSeq + 1 && engine.nextSeq == maxSeq + 2
    requires engine.writer.Valid() && engine.writer.crc == engine.crc && forall n :: Usable(engine.options.newBloom(n))
    requires engine.writer.entries == LogEntries(SortedRecords(engine.active.entries))
    requires engine.writer.file == Frames(engine.crc, engine.writer.entries)
    requires engine.dir.manifest == files.manifest && engine.dir.ssts == files.ssts && engine.dir.logs == map[]
    ensures engine.Valid() && engine.Hist() == s.hist
  {
    hide DownInv, RestImage, ReplayedLogs, SortedRecords, Frames, InOrder, LevelsUpTo, InLevels, LargestNumber;
    hide Views, RunInv, FirstFree, LoadedLevels, Leads, StepsOfOpen;
    hide OpenedState, Openable, Named, LevelListOk, LevelsAt, ReplayedMem;
    RestOpens(files, s, engine.crc, engine.hash);
    RestKeys(files, s, engine.crc, engine.hash);
    NumbersOfDisk(maxSeq, engine.levels, s.disk);
    OpenedViews(files, s, engine.crc, engine.hash);
    OpenRuns(s);
    assert engine.View() == OpenedFields(files, engine.levels, engine.active.entries, engine.walSeq, engine.crc);
  }

  lemma LogsInOrder(logs: map<nat, Bytes>)
    ensures Elements(InOrder(logs.Keys)) == logs.Keys
    ensures forall i :: 0 <= i < |InOrder(logs.Keys)| ==> InOrder(logs.Keys)[i] in logs
  {
    hide InOrder;
    InOrderCorrect(logs.Keys);
    var gens := InOrder(logs.Keys);
    forall i | 0 <= i < |gens| ensures gens[i] in logs {
      assert gens[i] in Elements(gens);
    }
  }

  lemma RestKeys(f: Files, s: Sys, crc: Checksum, hash: Hash)
    requires RestImage(f, s.disk, crc, hash)
    ensures f.logs.Keys == s.disk.wals.Keys
  {
    hide ScanFrom, ManifestImage, SstsImage;
  }

  /** An empty directory stands for the state every run starts from. */
  lemma EmptyDirectoryIsFresh(crc: Checksum, hash: Hash)
    ensures DownInv(FRESH) && RestImage(Files(None, map[], map[]), FRESH.disk, crc, hash)
    ensures Leads(FRESH, [], FRESH)
  {
    hide RunInv, OpenInv;
    FreshHolds();
    InvByMode(FRESH);
  }

  // ---- Crash and reopen, end to end ----

  /** The process is killed at any moment between calls, even after a call that failed half-way,
      and the directory is opened again, from its bytes. The engine comes up and shows a prefix of
      the history, with everything durable in it. */
  method KillAndReopen(engine: LsmEngine) returns (r: Result<LsmEngine>)
    requires engine.Safe() && forall n :: Usable(engine.options.newBloom(n))
    modifies engine.dir
    ensures r.Ok? && r.value.Valid() && fresh(r.value) && r.value.dir == engine.dir
    ensures r.value.Hist() <= old(engine.Hist()) && old(engine.Durables()) <= |r.value.Hist()|
    ensures r.value.Map() == History(old(engine.Hist())[..|r.value.Hist()|])
    ensures exists cut :: Leads(old(engine.origin), old(engine.steps) + [Crash(cut)], r.value.origin)
    ensures old(engine.Kept()) ==> (r.value.Hist() == old(engine.Hist()) <==> old(engine.writer.buffered) == [])
  {
    hide RunInv, Leads, Inv, DownInv, LiveImage, RestImage, Durable, History, Views;
    hide Openable, LargestNumber, ReplayedLogs, LogEntries, LoadedLevels, Frames, OpenedState, InOrder, Reached, Usable;
    var dir := engine.dir;
    ghost var s := engine.sys;
    ghost var files := Files(dir.manifest, dir.ssts, dir.logs[engine.walSeq := engine.writer.file]);
    ghost var after, cut := KilledState(engine.origin, engine.steps, s, files, engine.crc, engine.hash);
    if engine.Kept() { BufferHidesRest(engine); }
    // What the operating system holds of the open log stays behind as an ordinary file.
    dir.logs := dir.logs[engine.walSeq := engine.writer.file];
    r := OpenWithOptions(dir, engine.crc, engine.hash, engine.options, after);
    assert after.hist == s.hist[..|after.hist|];
  }

  /** A clean drop syncs the log; opening the directory again then loses nothing. */
  method CloseAndReopen(engine: LsmEngine) returns (r: Result<LsmEngine>)
    requires engine.Valid()
    modifies engine`steps, engine`sys, engine.writer`file, engine.writer`buffered, engine.dir
    ensures r.Ok? && r.value.Valid() && fresh(r.value) && r.value.dir == engine.dir
    ensures r.value.Hist() == old(engine.Hist()) && r.value.Map() == old(engine.Map())
  {
    hide RunInv, Leads, Inv, DownInv, LiveImage, Durable, History, Views;
    engine.SyncLog();
    KeptIsSafe(engine);
    r := KillAndReopen(engine);
  }

  lemma KeptIsSafe(engine: LsmEngine)
    requires engine.Kept()
    ensures engine.Safe()
  {
    hide RunInv, Leads, LiveImage;
    Running(engine.origin, engine.steps, engine.sys);
    ViewFacts(engine.View(), engine.sys, engine.crc, engine.hash);
  }

  lemma KilledState(origin: Sys, steps: seq<Step>, s: Sys, f: Files, crc: Checksum, hash: Hash)
    returns (after: Sys, cut: map<nat, nat>)
    requires Reached(origin, steps, s) && LiveImage(f, s.disk, crc, hash)
    ensures Leads(origin, steps + [Crash(cut)], after)
    ensures DownInv(after) && RestImage(f, after.disk, crc, hash)
    ensures after.hist <= s.hist && Durable(s) <= |after.hist|
    ensures s.mode.e.walSeq in s.disk.wals && s.mode.e.walSeq in f.logs
    ensures after.hist == s.hist <==> f.logs[s.mode.e.walSeq] == Frames(crc, s.disk.wals[s.mode.e.walSeq].entries)
  {
    hide RunInv, DownInv, Inv, OpenInv, LiveImage, RestImage, Enabled, CutOf, Durable, Surviving, Leads, Frames;
    Running(origin, steps, s);
    SurvivesWhole(s, f, crc, hash);
    InvOfRunning(s);
    CrashLeavesImage(f, s, crc, hash);
    cut := CutOf(f.logs, s.disk.wals, crc);
    after := After(s, Crash(cut));
    LeadsOn(origin, steps, s, Crash(cut));
    CrashCuts(s, cut);
  }

  /** The crash that the bytes amount to takes nothing exactly when the system has the whole log. */
  lemma SurvivesWhole(s: Sys, f: Files, crc: Checksum, hash: Hash)
    requires s.mode.Runs? && RunInv(s) && LiveImage(f, s.disk, crc, hash)
    ensures s.mode.e.walSeq in s.disk.wals && f.logs.Keys == s.disk.wals.Keys
    ensures Surviving(s, CutOf(f.logs, s.disk.wals, crc)) == |s.hist|
            <==> f.logs[s.mode.e.walSeq] == Frames(crc, s.disk.wals[s.mode.e.walSeq].entries)
  {
    hide RunInv, ManifestImage, SstsImage, LogImage, Frames;
    Up(s);
    LogLengths(s);
    WholeLogSurvives(f.logs[s.mode.e.walSeq], s.disk.wals[s.mode.e.walSeq], crc);
  }

  /** Every operation `put` and `delete` have acknowledged survives a kill of the process exactly
      when the log writer's buffer is empty. */
  lemma AcknowledgedSurviveIffBufferEmpty(engine: LsmEngine)
    requires engine.Kept()
    ensures var logs := engine.dir.logs[engine.walSeq := engine.writer.file];
            && logs.Keys == engine.sys.disk.wals.Keys
            && (Surviving(engine.sys, CutOf(logs, engine.sys.disk.wals, engine.crc)) == |engine.Hist()|
                <==> engine.writer.buffered == [])
  {
    hide RunInv, Leads, LiveImage, Frames, Surviving, CutOf, Views;
    Running(engine.origin, engine.steps, engine.sys);
    ViewFacts(engine.View(), engine.sys, engine.crc, engine.hash);
    SurvivesWhole(engine.sys, engine.View().files, engine.crc, engine.hash);
    BufferHidesRest(engine);
  }

  lemma BufferHidesRest(engine: LsmEngine)
    requires engine.Kept()
    ensures engine.sys.mode.e.walSeq == engine.walSeq && engine.walSeq in engine.sys.disk.wals
    ensures engine.writer.file == Frames(engine.crc, engine.sys.disk.wals[engine.walSeq].entries) <==>
              engine.writer.buffered == []
  {
    hide RunInv, Leads, LiveImage, Frames, Views;
    Running(engine.origin, engine.steps, engine.sys);
    ViewFacts(engine.View(), engine.sys, engine.crc, engine.hash);
    WholeIffNothingMore(engine.writer.file, engine.writer.buffered);
  }

  lemma WholeIffNothingMore(file: Bytes, rest: Bytes)
    ensures file + rest == file <==> rest == []
  {
    if rest != [] { assert |file + rest| > |file|; }
  }

  /** One write and then a kill of the process. The write survives, and with it everything before
      it, exactly when it was synced, or froze the memtable, or bypassed the log writer's buffer:
      a caller can tell from the options and the sizes before making the call. */
  method PutThenKill(engine: LsmEngine, key: Bytes, value: Bytes) returns (accepted: Result<()>, r: Result<LsmEngine>)
    requires engine.Valid()
    modifies engine, engine.dir, engine.active, engine.writer
    ensures accepted == EncodeOutcome(WalOp.Put, key, value)
    ensures r.Ok? && r.value.Valid() && fresh(r.value)
    ensures accepted.Ok? ==>
              if old(engine.WritesThrough(key, value)) then r.value.Map() == old(engine.Map())[key := value]
              else r.value.Hist() <= old(engine.Hist())
  {
    hide RunInv, Leads, Inv, DownInv, LiveImage, RestImage, Durable, History, Views;
    accepted := engine.Put(key, value);
    KeptIsSafe(engine);
    r := KillAndReopen(engine);
    if accepted.Ok? { ShorterHistory(old(engine.Hist()), WalEntry(WalOp.Put, key, value), r.value.Hist()); }
  }

  lemma ShorterHistory(hist: seq<WalEntry>, e: WalEntry, left: seq<WalEntry>)
    requires left <= hist + [e]
    ensures left == hist + [e] || left <= hist
  {
    if |left| <= |hist| {
      assert left == (hist + [e])[..|left|] == hist[..|left|];
    } else {
      assert left == (hist + [e])[..|hist| + 1] == hist + [e];
    }
  }

  /** A concrete write that is acknowledged and then lost: into an empty directory, without
      `sync_per_write`, and small enough to stay in the buffer. */
  method AcknowledgedWriteCanBeLost(crc: Checksum, hash: Hash, newBloom: nat -> Bloom)
    returns (accepted: Result<()>, r: Result<LsmEngine>)
    requires forall n :: Usable(newBloom(n))
    ensures accepted == Ok(()) && r.Ok? && r.value.Valid()
    ensures r.value.Hist() == [] && r.value.Map() == map[]
  {
    hide RunInv, Leads, Inv, DownInv, LiveImage, RestImage, Durable, Views;
    var dir := new Directory();
    EmptyDirectoryIsFresh(crc, hash);
    var engine := OpenWithOptions(dir, crc, hash, Options(0, 0, false, newBloom), FRESH);
    accepted, r := PutThenKill(engine.value, [107], [118]);
  }

  lemma CrashCuts(s: Sys, cut: map<nat, nat>)
    requires s.mode.Runs? && RunInv(s) && Enabled(s, Crash(cut))
    ensures After(s, Crash(cut)).hist <= s.hist && Durable(s) <= |After(s, Crash(cut)).hist|
    ensures After(s, Crash(cut)).hist == s.hist <==> Surviving(s, cut) == |s.hist|
  {
    hide RunInv, Durable, Surviving;
    CrashRecoversPrefix(s, cut);
  }
}
