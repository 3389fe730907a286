/** The bytes in the engine's directory, and the abstract disk they stand for. */
module DiskImage {
  import opened Outcomes
  import opened Bytes
  import opened Records
  import opened Layers
  import opened BloomFilter
  import opened TableFormat
  import opened WriteAheadLog
  import opened ManifestFile
  import opened Machine
  import opened Invariants
  import opened OpenSteps
  import opened Guarantees

  /** The files by name; logs are keyed by their generation. */
  datatype Files = Files(manifest: Option<Bytes>, ssts: map<Bytes, Bytes>, logs: map<nat, Bytes>)

  // ---- Names ----

  function Digits(n: nat): (ds: Bytes)
    ensures forall i :: 0 <= i < |ds| ==> 48 <= ds[i] <= 57
  {
    if n < 10 then [48 + n] else Digits(n / 10) + [48 + n % 10]
  }

  function Zeros(n: nat): (zs: Bytes)
    ensures |zs| == n && forall i :: 0 <= i < n ==> zs[i] == 48
  {
    if n == 0 then [] else [48] + Zeros(n - 1)
  }

  /** `{:06}`. */
  function Padded6(n: nat): Bytes {
    var ds := Digits(n);
    if |ds| < 6 then Zeros(6 - |ds|) + ds else ds
  }

  function DigitsValue(ds: Bytes): int {
    if ds == [] then 0
    else
      var last: int := ds[|ds| - 1];
      10 * DigitsValue(ds[..|ds| - 1]) + last - 48
  }

  lemma DigitsValueSnoc(ds: Bytes, d: Byte)
    ensures DigitsValue(ds + [d]) == 10 * DigitsValue(ds) + d - 48
  {
    assert (ds + [d])[..|ds|] == ds;
  }

  lemma {:induction false} DigitsGiveNumber(n: nat, zeros: nat)
    ensures DigitsValue(Zeros(zeros) + Digits(n)) == n
    decreases n
  {
    hide DigitsValue;
    ZerosValue(zeros);
    if n < 10 {
      DigitsValueSnoc(Zeros(zeros), 48 + n);
    } else {
      var last: Byte := 48 + n % 10;
      DigitsGiveNumber(n / 10, zeros);
      DigitsValueSnoc(Zeros(zeros) + Digits(n / 10), last);
      ConcatAssoc(Zeros(zeros), Digits(n / 10), [last]);
    }
  }

  lemma {:induction false} ZerosValue(n: nat)
    ensures DigitsValue(Zeros(n)) == 0
    decreases n
  {
    if n > 0 {
      assert Zeros(n)[..n - 1] == Zeros(n - 1);
      ZerosValue(n - 1);
    }
  }

  lemma PaddedGivesNumber(n: nat)
    ensures DigitsValue(Padded6(n)) == n
  {
    var ds := Digits(n);
    DigitsGiveNumber(n, if |ds| < 6 then 6 - |ds| else 0);
    assert Zeros(0) + ds == ds;
  }

  /** `L<level>_<seqno>.sst`. */
  function FileName(n: Name): Bytes {
    ([76] + Digits(n.level) + [95]) + (Padded6(n.seqno) + [46, 115, 115, 116])
  }

  /** Where the level and the padded number stand in a name. */
  lemma NameParts(n: Name)
    requires n.level <= 1
    ensures var name := FileName(n);
            |name| >= 7 && name[1] == 48 + n.level && name[3..|name| - 4] == Padded6(n.seqno)
  {
    assert Digits(n.level) == [48 + n.level];
    hide Digits, Padded6;
    var name, digits := FileName(n), Padded6(n.seqno);
    assert name == [76, 48 + n.level, 95] + (digits + [46, 115, 115, 116]);
    SubSlice(name, 3, |name|, 0, |digits|);
    assert name[3..] == digits + [46, 115, 115, 116];
    assert (digits + [46, 115, 115, 116])[..|digits|] == digits;
  }

  lemma {:induction false} DigitsLead(n: nat)
    ensures Digits(n) != [] && (n >= 10 ==> Digits(n)[0] != 48)
  {
    if n >= 100 {
      DigitsLead(n / 10);
    } else if n >= 10 {
      assert Digits(n / 10) == [48 + n / 10];
    }
  }

  /** A name character by character: `L`, the level, `_`, the number in decimal with leading zeros to
      fill six digits and no more, `.sst`. */
  lemma FileNameLaid(n: Name)
    requires n.level <= 1
    ensures var name := FileName(n);
            && |name| >= 13 && name[0] == 76 && name[1] == 48 + n.level && name[2] == 95
            && name[|name| - 4..] == [46, 115, 115, 116]
            && (forall i :: 3 <= i < |name| - 4 ==> 48 <= name[i] <= 57)
            && DigitsValue(name[3..|name| - 4]) == n.seqno && (|name| > 13 ==> name[3] != 48)
  {
    hide DigitsValue, Digits, Zeros;
    NameParts(n);
    PaddedGivesNumber(n.seqno);
    var name, padded := FileName(n), Padded6(n.seqno);
    PaddedShape(n.seqno);
    OneDigit(n.level);
    assert name == [76, 48 + n.level, 95] + (padded + [46, 115, 115, 116]);
    assert forall i :: 3 <= i < |name| - 4 ==> name[i] == padded[i - 3];
  }

  lemma OneDigit(n: nat)
    requires n < 10
    ensures Digits(n) == [48 + n]
  {
  }

  lemma PaddedShape(n: nat)
    ensures var ps := Padded6(n);
            |ps| >= 6 && (forall i :: 0 <= i < |ps| ==> 48 <= ps[i] <= 57) && (|ps| > 6 ==> ps[0] != 48)
  {
    DigitsLead(n);
    if n < 10 { OneDigit(n); }
    hide Digits;
  }

  /** Names of different tables differ. */
  lemma FileNameInjective(a: Name, b: Name)
    requires a.level <= 1 && b.level <= 1 && FileName(a) == FileName(b)
    ensures a == b
  {
    hide FileName, Padded6, DigitsValue;
    NameParts(a);
    NameParts(b);
    PaddedGivesNumber(a.seqno);
    PaddedGivesNumber(b.seqno);
  }

  // ---- What the files stand for ----

  ghost predicate TableFile(bytes: Bytes, rs: seq<Record>, hash: Hash) {
    exists blocks, bloom :: IsTable(bytes, blocks, bloom, rs, hash)
  }

  ghost predicate SstsImage(files: map<Bytes, Bytes>, ssts: map<Name, seq<Record>>, hash: Hash) {
    forall n :: n in ssts ==> n.level <= 1 && FileName(n) in files && TableFile(files[FileName(n)], ssts[n], hash)
  }

  function MetasAt(levels: LevelList, l: nat): (ms: seq<Meta>)
    ensures |ms| == if l < |levels| then |levels[l]| else 0
    ensures forall i :: 0 <= i < |ms| ==> ms[i] == Meta(levels[l][i].seqno, levels[l][i].min, levels[l][i].max)
  {
    if l < |levels|
    then seq(|levels[l]|, i requires 0 <= i < |levels[l]| =>
        Meta(levels[l][i].seqno, levels[l][i].min, levels[l][i].max))
    else []
  }

  function LevelsAt(levels: LevelList): Levels<Meta> {
    Levels(MetasAt(levels, 0), MetasAt(levels, 1))
  }

  /** Every table is listed at its level under its file's name. */
  ghost predicate Named(levels: LevelList) {
    |levels| <= 2 &&
    forall l, i :: 0 <= l < |levels| && 0 <= i < |levels[l]| ==>
      levels[l][i].level == l && levels[l][i].name == FileName(Name(l, levels[l][i].seqno))
  }

  ghost predicate ManifestImage(file: Option<Bytes>, manifest: Levels<Meta>) {
    match file
    case None => manifest == Levels([], [])
    case Some(bytes) =>
      ParseManifest(bytes).Ok? && Named(ParseManifest(bytes).value) && LevelsAt(ParseManifest(bytes).value) == manifest
  }

  /** What the operating system holds of a log: a prefix of its frames that reaches at least to
      the end of the entries known to be kept. */
  ghost predicate LogImage(bytes: Bytes, w: Wal, crc: Checksum) {
    && AllFramable(w.entries) && w.kept <= |w.entries|
    && bytes <= Frames(crc, w.entries)
    && |Frames(crc, w.entries[..w.kept])| <= |bytes|
  }

  ghost predicate LogsImage(files: map<nat, Bytes>, wals: map<nat, Wal>, crc: Checksum) {
    files.Keys == wals.Keys && forall g :: g in wals ==> LogImage(files[g], wals[g], crc)
  }

  /** The image of a disk while a process writes to it. */
  ghost predicate LiveImage(f: Files, d: Disk, crc: Checksum, hash: Hash) {
    ManifestImage(f.manifest, d.manifest) && SstsImage(f.ssts, d.ssts, hash) && LogsImage(f.logs, d.wals, crc)
  }

  ghost predicate LogsScan(files: map<nat, Bytes>, wals: map<nat, Wal>, crc: Checksum) {
    files.Keys == wals.Keys && forall g :: g in wals ==> ScanFrom(crc, files[g], 0) == Ok(wals[g].entries)
  }

  /** The image of a disk at rest: scanning each log gives its entries. */
  ghost predicate RestImage(f: Files, d: Disk, crc: Checksum, hash: Hash) {
    ManifestImage(f.manifest, d.manifest) && SstsImage(f.ssts, d.ssts, hash) && LogsScan(f.logs, d.wals, crc)
  }

  // ---- A crash, in bytes ----

  lemma {:induction false} FramesMonotone(crc: Checksum, es: seq<WalEntry>, m: nat, n: nat)
    requires m < n <= |es|
    ensures |Frames(crc, es[..m])| < |Frames(crc, es[..n])|
    decreases n
  {
    assert es[..n] == es[..n - 1] + [es[n - 1]];
    FramesSnoc(crc, es[..n - 1], es[n - 1]);
    if m < n - 1 { FramesMonotone(crc, es, m, n - 1); }
  }

  /** The operating system's bytes of a log, scanned after the process is gone, give a prefix of
      its entries that includes every entry known to be kept. */
  lemma CutOfLog(bytes: Bytes, w: Wal, crc: Checksum) returns (n: nat)
    requires LogImage(bytes, w, crc)
    ensures w.kept <= n <= |w.entries| && ScanFrom(crc, bytes, 0) == Ok(w.entries[..n])
  {
    hide ScanFrom, Frames;
    var whole := Frames(crc, w.entries);
    n := TornTail(crc, w.entries, |bytes|);
    assert bytes == whole[..|bytes|];
    if n < w.kept {
      if n + 1 < w.kept { FramesMonotone(crc, w.entries, n + 1, w.kept); }
      assert false;
    }
  }

  /** All entries of a log survive exactly when the operating system has all of its bytes. */
  lemma WholeLogSurvives(bytes: Bytes, w: Wal, crc: Checksum)
    requires LogImage(bytes, w, crc)
    ensures ScannedLen(crc, bytes) <= |w.entries|
    ensures ScannedLen(crc, bytes) == |w.entries| <==> bytes == Frames(crc, w.entries)
  {
    hide ScanFrom, Frames;
    var whole := Frames(crc, w.entries);
    var n := TornTail(crc, w.entries, |bytes|);
    assert bytes == whole[..|bytes|] && w.entries[..|w.entries|] == w.entries;
    if bytes == whole && n < |w.entries| {
      if n + 1 < |w.entries| { FramesMonotone(crc, w.entries, n + 1, |w.entries|); }
      assert false;
    }
  }

  ghost function ScannedLen(crc: Checksum, bytes: Bytes): nat {
    var r := ScanFrom(crc, bytes, 0);
    if r.Ok? then |r.value| else 0
  }

  ghost function CutOf(files: map<nat, Bytes>, wals: map<nat, Wal>, crc: Checksum): map<nat, nat>
    requires files.Keys == wals.Keys
  {
    map g | g in wals :: ScannedLen(crc, files[g])
  }

  lemma CutOfValid(files: map<nat, Bytes>, wals: map<nat, Wal>, crc: Checksum)
    requires LogsImage(files, wals, crc)
    ensures var cut := CutOf(files, wals, crc);
            ValidCut(wals, cut) && LogsScan(files, CutWals(wals, cut), crc)
  {
    hide ScanFrom, LogImage;
    var cut := CutOf(files, wals, crc);
    forall g | g in wals
      ensures wals[g].kept <= cut[g] <= |wals[g].entries| && ScanFrom(crc, files[g], 0) == Ok(wals[g].entries[..cut[g]])
    {
      var n := CutOfLog(files[g], wals[g], crc);
    }
  }

  /** Crash refinement in bytes: whatever the operating system holds when the process dies, while
      running or while opening, is the image, at rest, of the disk after a crash step. */
  lemma CrashLeavesImage(f: Files, s: Sys, crc: Checksum, hash: Hash)
    requires Inv(s) && !s.mode.Down? && LiveImage(f, s.disk, crc, hash)
    ensures f.logs.Keys == s.disk.wals.Keys
    ensures var cut := CutOf(f.logs, s.disk.wals, crc);
            Enabled(s, Crash(cut)) && RestImage(f, After(s, Crash(cut)).disk, crc, hash)
              && DownInv(After(s, Crash(cut)))
  {
    hide RunInv, DownInv, OpenInv, Inv, ManifestImage, SstsImage, LogsScan, ValidCut, CutOf, Enabled, After;
    var cut := CutOf(f.logs, s.disk.wals, crc);
    CutOfValid(f.logs, s.disk.wals, crc);
    CrashIsPossible(s, cut);
    InvByMode(s);
    if s.mode.Runs? { RunCrashKeepsInv(s, cut); } else { OpenCrashKeepsInv(s, cut); }
    CrashDisk(s, cut);
  }

  lemma CrashDisk(s: Sys, cut: map<nat, nat>)
    requires Enabled(s, Crash(cut))
    ensures ValidCut(s.disk.wals, cut) && After(s, Crash(cut)).disk == s.disk.(wals := CutWals(s.disk.wals, cut))
  {
  }

  // ---- Rewriting the MANIFEST ----

  lemma {:induction false} TrimKeepsMetas(levels: LevelList, l: nat)
    ensures MetasAt(Trim(levels), l) == MetasAt(levels, l)
  {
    if levels != [] && levels[|levels| - 1] == [] { TrimKeepsMetas(levels[..|levels| - 1], l); }
  }

  lemma {:induction false} TrimKeepsNames(levels: LevelList)
    requires Named(levels)
    ensures Named(Trim(levels))
  {
    if levels != [] && levels[|levels| - 1] == [] { TrimKeepsNames(levels[..|levels| - 1]); }
  }

  lemma WrittenManifestImage(levels: LevelList)
    requires LevelListOk(levels) && Named(levels)
    ensures ManifestImage(Some(ManifestBytes(levels)), LevelsAt(levels))
  {
    hide ManifestBytes, ParseManifest, LevelListOk, Named;
    WriteThenRead(levels);
    TrimKeepsMetas(levels, 0);
    TrimKeepsMetas(levels, 1);
    TrimKeepsNames(levels);
  }

  // ---- Table files come and go ----

  lemma SstsAdd(files: map<Bytes, Bytes>, ssts: map<Name, seq<Record>>, hash: Hash, n: Name, bytes: Bytes,
                rs: seq<Record>)
    requires SstsImage(files, ssts, hash) && n.level <= 1 && TableFile(bytes, rs, hash)
    ensures SstsImage(files[FileName(n) := bytes], ssts[n := rs], hash)
  {
    hide TableFile, FileName;
    forall m | m in ssts && m != n ensures m.level <= 1 && FileName(m) != FileName(n) {
      if FileName(m) == FileName(n) { FileNameInjective(m, n); }
    }
  }

  lemma SstsRemove(files: map<Bytes, Bytes>, ssts: map<Name, seq<Record>>, hash: Hash, n: Name)
    requires SstsImage(files, ssts, hash) && n.level <= 1
    ensures SstsImage(files - {FileName(n)}, ssts - {n}, hash)
  {
    hide TableFile, FileName;
    forall m | m in ssts && m != n ensures m.level <= 1 && FileName(m) != FileName(n) {
      if FileName(m) == FileName(n) { FileNameInjective(m, n); }
    }
  }

  // ---- Logs grow ----

  lemma LogsUpdate(files: map<nat, Bytes>, wals: map<nat, Wal>, crc: Checksum, g: nat, bytes: Bytes, w: Wal)
    requires LogsImage(files, wals, crc) && LogImage(bytes, w, crc)
    ensures LogsImage(files[g := bytes], wals[g := w], crc)
  {
    hide LogImage;
  }

  lemma LogsDrop(files: map<nat, Bytes>, wals: map<nat, Wal>, crc: Checksum, g: nat)
    requires LogsImage(files, wals, crc)
    ensures LogsImage(files - {g}, wals - {g}, crc)
  {
    hide LogImage;
  }

  lemma EmptyLogImage(crc: Checksum)
    ensures LogImage([], Wal([], 0), crc)
  {
    var none: seq<WalEntry> := [];
    assert none[..0] == [];
  }

  /** A log all of whose frames are with the operating system. */
  lemma FullLogImage(es: seq<WalEntry>, kept: nat, crc: Checksum)
    requires AllFramable(es) && kept <= |es|
    ensures LogImage(Frames(crc, es), Wal(es, kept), crc)
  {
    assert es[..|es|] == es;
    if kept < |es| { FramesMonotone(crc, es, kept, |es|); }
  }

  /** Appending keeps what was kept, however much of the new frame has been handed on. */
  lemma AppendLogImage(bytes: Bytes, bytes': Bytes, w: Wal, e: WalEntry, crc: Checksum)
    requires LogImage(bytes, w, crc) && Framable(e) && bytes <= bytes' <= Frames(crc, w.entries + [e])
    ensures LogImage(bytes', AppendTo(w, e), crc)
  {
    hide Frames;
    assert (w.entries + [e])[..w.kept] == w.entries[..w.kept];
  }
}
