/** The MANIFEST: which tables exist at which level (src/manifest.rs). */
module ManifestFile {
  import opened Outcomes
  import opened Bytes

  /** "LSMMANIFEST01". */
  const MAGIC_MANIFEST: Bytes := [0x4C, 0x53, 0x4D, 0x4D, 0x41, 0x4E, 0x49, 0x46, 0x45, 0x53, 0x54, 0x30, 0x31]
  const MAGIC_LEN: nat := 13
  const FIXED_HEADER_LEN: nat := 4 + 8 + 4

  datatype SstMeta = SstMeta(level: nat, seqno: nat, name: Bytes, min: Bytes, max: Bytes)

  type LevelList = seq<seq<SstMeta>>

  // ---- The shape the engine relies on ----

  /** Fields that fit their encoding. */
  ghost predicate MetaFits(m: SstMeta) {
    m.seqno <= U64_MAX && |m.name| <= U32_MAX && IsUtf8(m.name) && |m.min| <= U32_MAX && |m.max| <= U32_MAX
  }

  ghost predicate SeqsAscend(ms: seq<SstMeta>) {
    forall i, j :: 0 <= i < j < |ms| ==> ms[i].seqno < ms[j].seqno
  }

  ghost predicate LevelOk(l: nat, ms: seq<SstMeta>) {
    SeqsAscend(ms) && forall i :: 0 <= i < |ms| ==> MetaFits(ms[i]) && ms[i].level == l
  }

  ghost predicate LevelListOk(levels: LevelList) {
    |levels| <= U32_MAX + 1 && forall l :: 0 <= l < |levels| ==> LevelOk(l, levels[l])
  }

  /** Every table sits in the level it names, each level ascends, the last level is not empty. */
  ghost predicate Canonical(levels: LevelList) {
    LevelListOk(levels) && (levels != [] ==> levels[|levels| - 1] != [])
  }

  /** What survives a write and a read: empty levels at the end leave no trace in the file. */
  function Trim(levels: LevelList): LevelList {
    if levels != [] && levels[|levels| - 1] == [] then Trim(levels[..|levels| - 1]) else levels
  }

  function Padded(levels: LevelList, n: nat): (r: LevelList)
    ensures |r| == if |levels| < n then n else |levels|
    ensures forall l :: 0 <= l < |levels| ==> r[l] == levels[l]
    ensures forall l :: |levels| <= l < |r| ==> r[l] == []
    decreases n
  {
    if |levels| >= n then levels else Padded(levels, n - 1) + [[]]
  }

  lemma {:induction false} PadTrim(levels: LevelList)
    ensures |Trim(levels)| <= |levels| && Padded(Trim(levels), |levels|) == levels
  {
    if levels != [] && levels[|levels| - 1] == [] {
      var init := levels[..|levels| - 1];
      PadTrim(init);
      assert levels == init + [[]];
      assert forall l :: 0 <= l < |levels| ==> Padded(Trim(levels), |levels|)[l] == levels[l];
    }
  }

  lemma {:induction false} TrimOk(levels: LevelList)
    requires LevelListOk(levels)
    ensures Canonical(Trim(levels))
  {
    if levels != [] && levels[|levels| - 1] == [] { TrimOk(levels[..|levels| - 1]); }
  }

  // ---- Adding ----

  /** `partition_point` and `insert`: before the first table with a number not below the new one. */
  function InsertMeta(ms: seq<SstMeta>, m: SstMeta): seq<SstMeta> {
    if ms == [] || ms[0].seqno >= m.seqno then [m] + ms else [ms[0]] + InsertMeta(ms[1..], m)
  }

  lemma {:induction false} InsertKeepsTables(ms: seq<SstMeta>, m: SstMeta)
    ensures multiset(InsertMeta(ms, m)) == multiset(ms) + multiset{m}
  {
    if ms != [] && ms[0].seqno < m.seqno {
      InsertKeepsTables(ms[1..], m);
      assert ms == [ms[0]] + ms[1..];
    }
  }

  lemma {:induction false} InsertKeepsOrder(ms: seq<SstMeta>, m: SstMeta)
    requires SeqsAscend(ms) && forall i :: 0 <= i < |ms| ==> ms[i].seqno != m.seqno
    ensures SeqsAscend(InsertMeta(ms, m))
  {
    if ms != [] && ms[0].seqno < m.seqno {
      var rest := InsertMeta(ms[1..], m);
      InsertKeepsOrder(ms[1..], m);
      InsertKeepsTables(ms[1..], m);
      hide InsertMeta;
      forall i | 0 <= i < |rest| ensures ms[0].seqno < rest[i].seqno {
        assert rest[i] in multiset(rest);
        assert rest[i] in ms[1..] || rest[i] == m;
      }
    }
  }

  lemma {:induction false} InsertLargest(ms: seq<SstMeta>, m: SstMeta)
    requires forall i :: 0 <= i < |ms| ==> ms[i].seqno < m.seqno
    ensures InsertMeta(ms, m) == ms + [m]
  {
    if ms != [] {
      InsertLargest(ms[1..], m);
      assert ms == [ms[0]] + ms[1..];
    }
  }

  /** `after` is `before` with `m` put in at one place: behind every smaller number, and in front of
      the first that is not smaller. */
  ghost predicate PutInPlace(before: seq<SstMeta>, m: SstMeta, after: seq<SstMeta>) {
    exists p: nat :: PutAt(before, m, after, p)
  }

  ghost predicate PutAt(before: seq<SstMeta>, m: SstMeta, after: seq<SstMeta>, p: nat) {
    && p <= |before| && after == before[..p] + [m] + before[p..]
    && (forall i :: 0 <= i < p ==> before[i].seqno < m.seqno)
    && (p < |before| ==> before[p].seqno >= m.seqno)
  }

  lemma {:induction false} InsertPutsInPlace(ms: seq<SstMeta>, m: SstMeta) returns (p: nat)
    ensures PutAt(ms, m, InsertMeta(ms, m), p)
  {
    if ms == [] || ms[0].seqno >= m.seqno {
      p := 0;
      assert ms[..0] + [m] + ms[0..] == [m] + ms;
    } else {
      var q := InsertPutsInPlace(ms[1..], m);
      p := q + 1;
      assert ms[..p] == [ms[0]] + ms[1..][..q] && ms[p..] == ms[1..][q..];
    }
  }

  function LevelAt(levels: LevelList, l: nat): seq<SstMeta> {
    if l < |levels| then levels[l] else []
  }

  /** What adding `m` does to the levels, in the terms of a caller: its own level gains just `m`, in
      its place, and stays in order if the number is new; no other level changes. */
  ghost predicate Added(before: LevelList, m: SstMeta, after: LevelList) {
    && |before| <= |after| && m.level < |after| && (m.level < |before| ==> |after| == |before|)
    && PutInPlace(LevelAt(before, m.level), m, after[m.level])
    && multiset(after[m.level]) == multiset(LevelAt(before, m.level)) + multiset{m}
    && (SeqsAscend(LevelAt(before, m.level)) && (forall t :: t in LevelAt(before, m.level) ==> t.seqno != m.seqno) ==>
          SeqsAscend(after[m.level]))
    && (forall l :: 0 <= l < |after| && l != m.level ==> after[l] == LevelAt(before, l))
  }

  lemma AddedByInsert(before: LevelList, m: SstMeta)
    ensures var grown := Padded(before, m.level + 1);
            Added(before, m, grown[m.level := InsertMeta(grown[m.level], m)])
  {
    hide Padded, InsertMeta, PutInPlace, SeqsAscend;
    PaddedAt(before, m.level);
    InsertedInOrder(LevelAt(before, m.level), m);
  }

  lemma PaddedAt(levels: LevelList, l: nat)
    ensures var grown := Padded(levels, l + 1);
            && |grown| == (if l < |levels| then |levels| else l + 1)
            && forall k :: 0 <= k < |grown| ==> grown[k] == LevelAt(levels, k)
  {
  }

  lemma InsertedInOrder(ms: seq<SstMeta>, m: SstMeta)
    ensures PutInPlace(ms, m, InsertMeta(ms, m)) && multiset(InsertMeta(ms, m)) == multiset(ms) + multiset{m}
    ensures SeqsAscend(ms) && (forall t :: t in ms ==> t.seqno != m.seqno) ==> SeqsAscend(InsertMeta(ms, m))
  {
    hide InsertMeta, SeqsAscend, PutAt;
    var p := InsertPutsInPlace(ms, m);
    InsertKeepsTables(ms, m);
    if SeqsAscend(ms) && forall t :: t in ms ==> t.seqno != m.seqno { InsertKeepsOrder(ms, m); }
  }

  class Manifest {
    var levels: LevelList

    constructor ()
      ensures levels == []
    {
      levels := [];
    }

    /** Puts `m` into its level, keeping the level in ascending order. */
    method Add(m: SstMeta)
      modifies this
      ensures Added(old(levels), m, levels)
      ensures levels == var grown := Padded(old(levels), m.level + 1); grown[m.level := InsertMeta(grown[m.level], m)]
    {
      hide Added, InsertMeta;
      AddedByInsert(levels, m);
      if |levels| <= m.level {
        levels := Padded(levels, m.level + 1);
      } else {
        PadFits(levels, m.level + 1);
      }
      levels := levels[m.level := InsertMeta(levels[m.level], m)];
    }
  }

  // ---- Encoding ----

  function EncodeMeta(l: nat, m: SstMeta): (bs: Bytes)
    ensures |bs| >= FIXED_HEADER_LEN
  {
    PutU32(l) + (PutU64(m.seqno) + (PutU32(|m.name|) + (m.name
      + (PutU32(|m.min|) + (m.min + (PutU32(|m.max|) + m.max))))))
  }

  function EncodeMetas(l: nat, ms: seq<SstMeta>): Bytes {
    if ms == [] then [] else EncodeMeta(l, ms[0]) + EncodeMetas(l, ms[1..])
  }

  /** The levels of `levels`, the first of which is level `from`. */
  function EncodeLevels(levels: LevelList, from: nat): Bytes {
    if levels == [] then [] else EncodeMetas(from, levels[0]) + EncodeLevels(levels[1..], from + 1)
  }

  function ManifestBytes(levels: LevelList): Bytes {
    MAGIC_MANIFEST + EncodeLevels(levels, 0)
  }

  lemma {:induction false} EncodeMetasSnoc(l: nat, ms: seq<SstMeta>, m: SstMeta)
    ensures EncodeMetas(l, ms + [m]) == EncodeMetas(l, ms) + EncodeMeta(l, m)
  {
    hide EncodeMeta;
    if ms == [] {
      assert [m][1..] == [] && ms + [m] == [m];
    } else {
      EncodeMetasSnoc(l, ms[1..], m);
      assert (ms + [m])[1..] == ms[1..] + [m];
      ConcatAssoc(EncodeMeta(l, ms[0]), EncodeMetas(l, ms[1..]), EncodeMeta(l, m));
    }
  }

  lemma {:induction false} EncodeLevelsSnoc(levels: LevelList, from: nat, ms: seq<SstMeta>)
    ensures EncodeLevels(levels + [ms], from) == EncodeLevels(levels, from) + EncodeMetas(from + |levels|, ms)
    decreases |levels|
  {
    hide EncodeMetas;
    if levels == [] {
      assert [ms][1..] == [] && levels + [ms] == [ms];
    } else {
      EncodeLevelsSnoc(levels[1..], from + 1, ms);
      assert (levels + [ms])[1..] == levels[1..] + [ms];
      ConcatAssoc(EncodeMetas(from, levels[0]), EncodeLevels(levels[1..], from + 1), EncodeMetas(from + |levels|, ms));
    }
  }

  /** Writes every record, level by level. The source stops the program on a length that does not
      fit its field; callers never pass one. */
  method Encode(levels: LevelList) returns (buf: Bytes)
    requires forall l, i :: 0 <= l < |levels| && 0 <= i < |levels[l]| ==> MetaFits(levels[l][i])
    ensures buf == ManifestBytes(levels)
  {
    hide EncodeMeta, EncodeMetas, EncodeLevels;
    buf := MAGIC_MANIFEST;
    EncodeNothing();
    for l := 0 to |levels|
      invariant buf == MAGIC_MANIFEST + EncodeLevels(levels[..l], 0)
    {
      ghost var before := buf;
      assert levels[..l + 1] == levels[..l] + [levels[l]];
      EncodeLevelsSnoc(levels[..l], 0, levels[l]);
      for i := 0 to |levels[l]|
        invariant buf == before + EncodeMetas(l, levels[l][..i])
      {
        var m := levels[l][i];
        ghost var start := buf;
        assert levels[l][..i + 1] == levels[l][..i] + [m];
        EncodeMetasSnoc(l, levels[l][..i], m);
        buf := buf + PutU32(l);
        buf := buf + PutU64(m.seqno);
        buf := buf + PutU32(|m.name|);
        buf := buf + m.name;
        buf := buf + PutU32(|m.min|);
        buf := buf + m.min;
        buf := buf + PutU32(|m.max|);
        buf := buf + m.max;
        MetaWritten(start, l, m);
      }
      assert levels[l][..|levels[l]|] == levels[l];
    }
    assert levels[..|levels|] == levels;
  }

  lemma EncodeNothing()
    ensures EncodeLevels([], 0) == [] && forall l :: EncodeMetas(l, []) == []
  {
  }

  lemma MetaWritten(start: Bytes, l: nat, m: SstMeta)
    ensures start + PutU32(l) + PutU64(m.seqno) + PutU32(|m.name|) + m.name + PutU32(|m.min|) + m.min
            + PutU32(|m.max|) + m.max
         == start + EncodeMeta(l, m)
  {
    hide PutU32, PutU64;
  }

  // ---- Decoding ----

  datatype Payload = Payload(bytes: Bytes, next: nat)

  /** The `len` bytes at `offset`, and where they end. */
  function ReadPayload(bytes: Bytes, offset: nat, len: nat): (r: Result<Payload>)
    ensures r.Ok? ==> r.value.next == offset + len <= |bytes| && r.value.bytes == bytes[offset..offset + len]
  {
    if offset + len > |bytes| then Err(Corruption) else Ok(Payload(bytes[offset..offset + len], offset + len))
  }

  /** A length-prefixed payload. */
  function ReadField(bytes: Bytes, offset: nat): (r: Result<Payload>)
    ensures r.Ok? ==> offset + 4 <= r.value.next <= |bytes|
  {
    var len :- ReadU32(bytes, offset);
    ReadPayload(bytes, offset + 4, len)
  }

  datatype DecodedMeta = DecodedMeta(meta: SstMeta, next: nat)

  function ReadMeta(bytes: Bytes, offset: nat): (r: Result<DecodedMeta>)
    requires offset <= |bytes|
    ensures r.Ok? ==> offset + FIXED_HEADER_LEN <= r.value.next <= |bytes|
    ensures r.Ok? ==> MetaFits(r.value.meta) && r.value.meta.level <= U32_MAX
  {
    if |bytes| - offset < FIXED_HEADER_LEN then Err(Corruption)
    else
      var level := ReadU32(bytes, offset).value;
      var seqno := ReadU64(bytes, offset + 4).value;
      var name :- ReadField(bytes, offset + 12);
      if !IsUtf8(name.bytes) then Err(Corruption)
      else
        var min :- ReadField(bytes, name.next);
        var max :- ReadField(bytes, min.next);
        Ok(DecodedMeta(SstMeta(level, seqno, name.bytes, min.bytes, max.bytes), max.next))
  }

  /** Grows the list of levels as needed and appends; numbers must ascend within a level. */
  function Place(levels: LevelList, m: SstMeta): Result<LevelList> {
    var grown := Padded(levels, m.level + 1);
    var ms := grown[m.level];
    if ms != [] && ms[|ms| - 1].seqno >= m.seqno then Err(Corruption)
    else Ok(grown[m.level := ms + [m]])
  }

  function DecodeFrom(bytes: Bytes, offset: nat, levels: LevelList): Result<LevelList>
    requires offset <= |bytes|
    decreases |bytes| - offset
  {
    if offset == |bytes| then Ok(levels)
    else
      var d :- ReadMeta(bytes, offset);
      var placed :- Place(levels, d.meta);
      DecodeFrom(bytes, d.next, placed)
  }

  function ParseManifest(bytes: Bytes): Result<LevelList> {
    if |bytes| < MAGIC_LEN || bytes[..MAGIC_LEN] != MAGIC_MANIFEST then Err(Corruption)
    else DecodeFrom(bytes, MAGIC_LEN, [])
  }

  lemma ParseByMagic(bytes: Bytes)
    ensures ParseManifest(bytes) ==
            if |bytes| < MAGIC_LEN || bytes[..MAGIC_LEN] != MAGIC_MANIFEST then Err(Corruption)
              else DecodeFrom(bytes, MAGIC_LEN, [])
  {
    hide DecodeFrom;
  }

  lemma PlaceByParts(levels: LevelList, m: SstMeta)
    ensures var grown := Padded(levels, m.level + 1);
            var ms := grown[m.level];
            Place(levels, m) == if ms != [] && ms[|ms| - 1].seqno >= m.seqno then Err(Corruption)
              else Ok(grown[m.level := ms + [m]])
  {
  }

  lemma DecodeAtEnd(bytes: Bytes)
    ensures forall levels :: DecodeFrom(bytes, |bytes|, levels) == Ok(levels)
  {
  }

  lemma DecodeNext(bytes: Bytes, offset: nat, levels: LevelList)
    requires offset < |bytes|
    ensures DecodeFrom(bytes, offset, levels) ==
            var d := ReadMeta(bytes, offset);
            if d.Err? then Err(d.error)
            else
              var placed := Place(levels, d.value.meta);
              if placed.Err? then Err(placed.error) else DecodeFrom(bytes, d.value.next, placed.value)
  {
    hide ReadMeta, Place;
  }

  /** The count-free walk over the records. */
  method Decode(bytes: Bytes) returns (r: Result<LevelList>)
    ensures r == ParseManifest(bytes)
  {
    hide ReadMeta, Padded, MetaFits, DecodeFrom, Place, ParseManifest;
    ParseByMagic(bytes);
    DecodeAtEnd(bytes);
    if |bytes| < MAGIC_LEN || bytes[..MAGIC_LEN] != MAGIC_MANIFEST { return Err(Corruption); }
    var levels: LevelList := [];
    var offset := MAGIC_LEN;
    while offset < |bytes|
      invariant offset <= |bytes|
      invariant DecodeFrom(bytes, MAGIC_LEN, []) == DecodeFrom(bytes, offset, levels)
    {
      DecodeNext(bytes, offset, levels);
      var d := ReadMeta(bytes, offset);
      if d.Err? { return Err(d.error); }
      var m := d.value.meta;
      PlaceByParts(levels, m);
      if |levels| <= m.level {
        levels := Padded(levels, m.level + 1);
      } else {
        PadFits(levels, m.level + 1);
      }
      var ms := levels[m.level];
      if ms != [] && ms[|ms| - 1].seqno >= m.seqno { return Err(Corruption); }
      levels := levels[m.level := ms + [m]];
      offset := d.value.next;
    }
    r := Ok(levels);
  }

  // ---- One record, byte by byte ----

  /** A length-prefixed payload, byte by byte. */
  ghost predicate FieldLaid(bytes: Bytes, offset: nat, payload: Bytes) {
    && offset + 4 + |payload| <= |bytes| && U32At(bytes, offset) == |payload|
    && bytes[offset + 4..offset + 4 + |payload|] == payload
  }

  /** A record, byte by byte: level, number, name, smallest and largest key. */
  ghost predicate MetaLaid(bytes: Bytes, offset: nat, m: SstMeta) {
    && offset + 16 <= |bytes| && U32At(bytes, offset) == m.level && U64At(bytes, offset + 4) == m.seqno
    && FieldLaid(bytes, offset + 12, m.name) && IsUtf8(m.name)
    && FieldLaid(bytes, offset + 16 + |m.name|, m.min)
    && FieldLaid(bytes, offset + 20 + |m.name| + |m.min|, m.max)
  }

  function MetaLen(m: SstMeta): nat {
    24 + |m.name| + |m.min| + |m.max|
  }

  lemma FieldStands(bytes: Bytes, offset: nat, payload: Bytes)
    requires |payload| <= U32_MAX
    ensures At(bytes, offset, PutU32(|payload|) + payload) <==> FieldLaid(bytes, offset, payload)
  {
    hide PutU32, U32At, At;
    AtSplit(bytes, offset, PutU32(|payload|), payload);
    U32Stands(bytes, offset, |payload|);
    AtIs(bytes, offset + 4, payload);
  }

  ghost predicate Writable(m: SstMeta) {
    MetaFits(m) && m.level <= U32_MAX
  }

  lemma LaidIsWritable(bytes: Bytes, offset: nat, m: SstMeta)
    requires MetaLaid(bytes, offset, m)
    ensures Writable(m) && offset + MetaLen(m) <= |bytes|
  {
    hide U32At, U64At, IsUtf8;
  }

  /** The encoding of a record is exactly what is laid out. */
  lemma MetaStands(bytes: Bytes, offset: nat, m: SstMeta)
    ensures Writable(m) && At(bytes, offset, EncodeMeta(m.level, m)) <==> MetaLaid(bytes, offset, m)
    ensures |EncodeMeta(m.level, m)| == MetaLen(m)
  {
    hide PutU32, PutU64, U32At, U64At, At, FieldLaid, IsUtf8;
    var name, min, max := PutU32(|m.name|) + m.name, PutU32(|m.min|) + m.min, PutU32(|m.max|) + m.max;
    assert EncodeMeta(m.level, m) == PutU32(m.level) + (PutU64(m.seqno) + (name + (min + max)));
    if MetaLaid(bytes, offset, m) { LaidIsWritable(bytes, offset, m); }
    if Writable(m) {
      AtSplit(bytes, offset, PutU32(m.level), PutU64(m.seqno) + (name + (min + max)));
      AtSplit(bytes, offset + 4, PutU64(m.seqno), name + (min + max));
      AtSplit(bytes, offset + 12, name, min + max);
      AtSplit(bytes, offset + 12 + |name|, min, max);
      U32Stands(bytes, offset, m.level);
      U64Stands(bytes, offset + 4, m.seqno);
      FieldStands(bytes, offset + 12, m.name);
      FieldStands(bytes, offset + 12 + |name|, m.min);
      FieldStands(bytes, offset + 12 + |name| + |min|, m.max);
      FieldFits(bytes, offset + 12, m.name);
    }
  }

  lemma FieldFits(bytes: Bytes, offset: nat, payload: Bytes)
    ensures FieldLaid(bytes, offset, payload) ==> offset + 4 + |payload| <= |bytes|
  {
  }

  lemma ReadFieldIff(bytes: Bytes, offset: nat, payload: Bytes)
    ensures ReadField(bytes, offset) == Ok(Payload(payload, offset + 4 + |payload|)) <==>
              FieldLaid(bytes, offset, payload)
    ensures ReadField(bytes, offset).Ok? ==>
              FieldLaid(bytes, offset, ReadField(bytes, offset).value.bytes)
              && ReadField(bytes, offset).value.next == offset + 4 + |ReadField(bytes, offset).value.bytes|
    ensures ReadField(bytes, offset).Err? ==> ReadField(bytes, offset).error == Corruption
  {
    hide U32At, ReadU32;
    if offset + 4 <= |bytes| { ReadU32Is(bytes, offset); } else { ShortRead(bytes, offset); }
  }

  lemma ShortRead(bytes: Bytes, offset: nat)
    requires offset + 4 > |bytes|
    ensures ReadU32(bytes, offset) == Err(Corruption)
  {
  }

  /** On any bytes: a record is read exactly where one is laid out, and otherwise it is corruption. */
  lemma ReadMetaIff(bytes: Bytes, offset: nat, m: SstMeta)
    requires offset <= |bytes|
    ensures MetaLaid(bytes, offset, m) ==> ReadMeta(bytes, offset) == Ok(DecodedMeta(m, offset + MetaLen(m)))
    ensures ReadMeta(bytes, offset).Ok? && ReadMeta(bytes, offset).value.meta == m ==> MetaLaid(bytes, offset, m)
    ensures ReadMeta(bytes, offset).Err? ==> ReadMeta(bytes, offset).error == Corruption
  {
    hide U32At, U64At, ReadU32, ReadU64, FieldLaid, ReadField, IsUtf8;
    if offset + 16 <= |bytes| {
      ReadU32Is(bytes, offset);
      ReadU64Is(bytes, offset + 4);
      var name := ReadField(bytes, offset + 12);
      ReadFieldIff(bytes, offset + 12, m.name);
      if name.Ok? {
        var min := ReadField(bytes, name.value.next);
        ReadFieldIff(bytes, name.value.next, m.min);
        if min.Ok? { ReadFieldIff(bytes, min.value.next, m.max); }
      }
    }
  }

  // ---- Round trips ----

  lemma ReadMetaAt(bytes: Bytes, offset: nat, l: nat, m: SstMeta)
    requires MetaFits(m) && l == m.level <= U32_MAX && offset <= |bytes| && At(bytes, offset, EncodeMeta(l, m))
    ensures ReadMeta(bytes, offset) == Ok(DecodedMeta(m, offset + |EncodeMeta(l, m)|))
  {
    hide MetaLaid, ReadMeta, EncodeMeta, MetaFits;
    MetaStands(bytes, offset, m);
    ReadMetaIff(bytes, offset, m);
  }

  /** The levels after `done` and the first `i` tables of the next level have been read. */
  function Partial(done: LevelList, ms: seq<SstMeta>, i: nat): LevelList
    requires i <= |ms|
  {
    if i == 0 then Trim(done) else done + [ms[..i]]
  }

  lemma PlaceNext(done: LevelList, ms: seq<SstMeta>, i: nat)
    requires i < |ms| && LevelOk(|done|, ms)
    ensures Place(Partial(done, ms, i), ms[i]) == Ok(Partial(done, ms, i + 1))
  {
    hide Trim, Padded;
    var l := |done|;
    assert ms[..i + 1] == ms[..i] + [ms[i]] && ms[..0] == [];
    if i == 0 {
      assert ms[..1] == [ms[0]] == [] + [ms[0]];
      PadTrim(done);
      PadMore(Trim(done), l);
      SetLast(done, [], [ms[0]]);
    } else {
      PadFits(done + [ms[..i]], l + 1);
      SetLast(done, ms[..i], ms[..i + 1]);
      assert ms[..i][|ms[..i]| - 1] == ms[i - 1];
    }
  }

  lemma SetLast(done: LevelList, a: seq<SstMeta>, b: seq<SstMeta>)
    ensures (done + [a])[|done|] == a && (done + [a])[|done| := b] == done + [b]
  {
  }

  lemma PadFits(levels: LevelList, n: nat)
    requires |levels| >= n
    ensures Padded(levels, n) == levels
  {
  }

  lemma PadMore(levels: LevelList, n: nat)
    requires |levels| <= n
    ensures Padded(levels, n + 1) == Padded(levels, n) + [[]]
  {
  }

  /** One record of the level being read. */
  lemma DecodeOne(bytes: Bytes, offset: nat, done: LevelList, ms: seq<SstMeta>, i: nat)
    requires i < |ms| && LevelOk(|done|, ms) && |done| <= U32_MAX && offset <= |bytes|
    requires At(bytes, offset, EncodeMeta(|done|, ms[i]))
    ensures DecodeFrom(bytes, offset, Partial(done, ms, i))
         == DecodeFrom(bytes, offset + |EncodeMeta(|done|, ms[i])|, Partial(done, ms, i + 1))
  {
    hide EncodeMeta, ReadMeta, Place, Partial;
    MetaOfLevel(|done|, ms, i);
    ReadMetaAt(bytes, offset, |done|, ms[i]);
    PlaceNext(done, ms, i);
  }

  lemma MetasSplit(bytes: Bytes, offset: nat, l: nat, ms: seq<SstMeta>, i: nat)
    requires i < |ms| && At(bytes, offset, EncodeMetas(l, ms[i..]))
    ensures var next := offset + |EncodeMeta(l, ms[i])|;
            && At(bytes, offset, EncodeMeta(l, ms[i])) && At(bytes, next, EncodeMetas(l, ms[i + 1..]))
              && next <= |bytes|
            && offset + |EncodeMetas(l, ms[i..])| == next + |EncodeMetas(l, ms[i + 1..])|
  {
    hide EncodeMeta;
    assert ms[i..][0] == ms[i] && ms[i..][1..] == ms[i + 1..];
    AtSplit(bytes, offset, EncodeMeta(l, ms[i]), EncodeMetas(l, ms[i + 1..]));
  }

  lemma {:induction false} DecodeLevel(bytes: Bytes, offset: nat, done: LevelList, ms: seq<SstMeta>, i: nat)
    requires i <= |ms| && LevelOk(|done|, ms) && |done| <= U32_MAX && offset <= |bytes|
    requires At(bytes, offset, EncodeMetas(|done|, ms[i..]))
    ensures offset + |EncodeMetas(|done|, ms[i..])| <= |bytes|
    ensures DecodeFrom(bytes, offset, Partial(done, ms, i))
         == DecodeFrom(bytes, offset + |EncodeMetas(|done|, ms[i..])|, Partial(done, ms, |ms|))
    decreases |ms| - i
  {
    hide EncodeMeta, Partial, LevelOk, DecodeFrom;
    if i < |ms| {
      hide At, EncodeMetas;
      MetasSplit(bytes, offset, |done|, ms, i);
      DecodeOne(bytes, offset, done, ms, i);
      DecodeLevel(bytes, offset + |EncodeMeta(|done|, ms[i])|, done, ms, i + 1);
    }
  }

  lemma MetaOfLevel(l: nat, ms: seq<SstMeta>, i: nat)
    requires LevelOk(l, ms) && i < |ms|
    ensures MetaFits(ms[i]) && ms[i].(level := l) == ms[i]
  {
  }

  lemma DecodeNone(bytes: Bytes, offset: nat, done: LevelList, rest: LevelList)
    requires rest == [] && offset + |EncodeLevels(rest, |done|)| == |bytes|
    ensures DecodeFrom(bytes, offset, Trim(done)) == Ok(Trim(done + rest))
  {
    assert done + rest == done;
  }

  lemma {:induction false} DecodeRest(bytes: Bytes, offset: nat, done: LevelList, rest: LevelList)
    requires LevelListOk(done + rest) && offset <= |bytes|
    requires At(bytes, offset, EncodeLevels(rest, |done|)) && offset + |EncodeLevels(rest, |done|)| == |bytes|
    ensures DecodeFrom(bytes, offset, Trim(done)) == Ok(Trim(done + rest))
    decreases |rest|
  {
    hide EncodeMetas, LevelOk, DecodeFrom, At, EncodeLevels, Trim, LevelListOk, Partial;
    if rest == [] {
      DecodeNone(bytes, offset, done, rest);
    } else {
      var ms, l := rest[0], |done|;
      NextLevelOk(done, rest);
      RestEncoded(bytes, offset, rest, l);
      PartialEnds(done, ms);
      assert ms[0..] == ms;
      DecodeLevel(bytes, offset, done, ms, 0);
      Regroup(done, rest);
      DecodeRest(bytes, offset + |EncodeMetas(l, ms)|, done + [ms], rest[1..]);
    }
  }

  lemma Regroup<T>(a: seq<T>, b: seq<T>)
    requires b != []
    ensures a + b == (a + [b[0]]) + b[1..] && (a + b)[|a|] == b[0]
  {
  }

  lemma NextLevelOk(done: LevelList, rest: LevelList)
    requires rest != [] && LevelListOk(done + rest)
    ensures LevelOk(|done|, rest[0]) && |done| <= U32_MAX
  {
    hide LevelOk;
    assert (done + rest)[|done|] == rest[0];
  }

  /** The rest of the file starts with the records of its first level. */
  lemma RestEncoded(bytes: Bytes, offset: nat, rest: LevelList, l: nat)
    requires rest != [] && At(bytes, offset, EncodeLevels(rest, l))
    ensures At(bytes, offset, EncodeMetas(l, rest[0]))
    ensures At(bytes, offset + |EncodeMetas(l, rest[0])|, EncodeLevels(rest[1..], l + 1))
    ensures |EncodeLevels(rest, l)| == |EncodeMetas(l, rest[0])| + |EncodeLevels(rest[1..], l + 1)|
  {
    hide EncodeMetas, At;
    AtSplit(bytes, offset, EncodeMetas(l, rest[0]), EncodeLevels(rest[1..], l + 1));
  }

  lemma PartialEnds(done: LevelList, ms: seq<SstMeta>)
    ensures Partial(done, ms, 0) == Trim(done) && Partial(done, ms, |ms|) == Trim(done + [ms])
  {
    assert ms[..|ms|] == ms && (done + [ms])[..|done|] == done;
  }

  /** Reading what was written gives the same tables; only empty levels at the end are gone. */
  lemma WriteThenRead(levels: LevelList)
    requires LevelListOk(levels)
    ensures ParseManifest(ManifestBytes(levels)) == Ok(Trim(levels))
  {
    var bytes := ManifestBytes(levels);
    AtWhole(bytes);
    AtSplit(bytes, 0, MAGIC_MANIFEST, EncodeLevels(levels, 0));
    var none: LevelList := [];
    assert none + levels == levels;
    DecodeRest(bytes, MAGIC_LEN, none, levels);
  }

  lemma PlaceKeepsCanonical(levels: LevelList, m: SstMeta)
    requires Canonical(levels) && MetaFits(m) && m.level <= U32_MAX && Place(levels, m).Ok?
    ensures Canonical(Place(levels, m).value)
  {
    var grown := Padded(levels, m.level + 1);
    var placed := Place(levels, m).value;
    forall l | 0 <= l < |placed| ensures LevelOk(l, placed[l]) {
      if l < |levels| { assert LevelOk(l, levels[l]); }
    }
  }

  lemma {:induction false} DecodeKeepsCanonical(bytes: Bytes, offset: nat, levels: LevelList)
    requires offset <= |bytes| && Canonical(levels) && DecodeFrom(bytes, offset, levels).Ok?
    ensures Canonical(DecodeFrom(bytes, offset, levels).value)
    decreases |bytes| - offset
  {
    if offset < |bytes| {
      hide ReadMeta, Place, Canonical;
      var d := ReadMeta(bytes, offset).value;
      PlaceKeepsCanonical(levels, d.meta);
      DecodeKeepsCanonical(bytes, d.next, Place(levels, d.meta).value);
    }
  }

  /** Whatever bytes it reads, `decode` only ever delivers manifests of the shape the engine
      relies on. */
  lemma DecodedIsCanonical(bytes: Bytes)
    requires ParseManifest(bytes).Ok?
    ensures Canonical(ParseManifest(bytes).value)
  {
    DecodeKeepsCanonical(bytes, MAGIC_LEN, []);
  }

  lemma TrimCanonical(levels: LevelList)
    requires Canonical(levels)
    ensures Trim(levels) == levels
  {
  }

  /** The MANIFEST round trip holds for exactly the canonical manifests. */
  lemma RoundTripIffCanonical(levels: LevelList)
    ensures ParseManifest(ManifestBytes(levels)) == Ok(levels) <==> Canonical(levels)
  {
    if Canonical(levels) {
      WriteThenRead(levels);
      TrimCanonical(levels);
    }
    if ParseManifest(ManifestBytes(levels)) == Ok(levels) {
      DecodedIsCanonical(ManifestBytes(levels));
    }
  }

  /** Rewriting an accepted MANIFEST, even one with its records in another order, keeps it. */
  lemma RewriteKeepsManifest(bytes: Bytes)
    requires ParseManifest(bytes).Ok?
    ensures ParseManifest(ManifestBytes(ParseManifest(bytes).value)) == ParseManifest(bytes)
  {
    DecodedIsCanonical(bytes);
    RoundTripIffCanonical(ParseManifest(bytes).value);
  }
}
