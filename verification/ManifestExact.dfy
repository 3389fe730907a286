/** Which bytes are a MANIFEST (src/manifest.rs, `decode`): exactly the magic and then whole records,
    ascending within each level. */
module ManifestExact {
  import opened Outcomes
  import opened Bytes
  import opened ManifestFile

  // ---- All records ----

  ghost predicate AllWritable(ms: seq<SstMeta>) {
    forall i :: 0 <= i < |ms| ==> Writable(ms[i])
  }

  function EncodeAll(ms: seq<SstMeta>): Bytes {
    if ms == [] then [] else EncodeMeta(ms[0].level, ms[0]) + EncodeAll(ms[1..])
  }

  /** The records placed one after another. */
  function PlaceAll(levels: LevelList, ms: seq<SstMeta>): Result<LevelList>
    decreases |ms|
  {
    if ms == [] then Ok(levels)
    else
      var placed :- Place(levels, ms[0]);
      PlaceAll(placed, ms[1..])
  }

  /** Bytes that are whole records decode to those records, placed in order. */
  lemma {:induction false} RecordsDecode(bytes: Bytes, offset: nat, levels: LevelList, ms: seq<SstMeta>)
    requires offset <= |bytes| && AllWritable(ms) && bytes[offset..] == EncodeAll(ms)
    ensures DecodeFrom(bytes, offset, levels) == PlaceAll(levels, ms)
    decreases |ms|
  {
    hide ReadMeta, Place, EncodeMeta, Writable, MetaLaid;
    if ms == [] {
      DecodeAtEnd(bytes);
    } else {
      var next := offset + |EncodeMeta(ms[0].level, ms[0])|;
      FirstRecord(bytes, offset, EncodeMeta(ms[0].level, ms[0]), EncodeAll(ms[1..]));
      MetaStands(bytes, offset, ms[0]);
      ReadMetaIff(bytes, offset, ms[0]);
      var placed := Place(levels, ms[0]);
      if placed.Ok? { RecordsDecode(bytes, next, placed.value, ms[1..]); }
    }
  }

  lemma FirstRecord(bytes: Bytes, offset: nat, first: Bytes, rest: Bytes)
    requires offset <= |bytes| && bytes[offset..] == first + rest
    ensures At(bytes, offset, first) && offset + |first| <= |bytes| && bytes[offset + |first|..] == rest
  {
    assert bytes[offset..][..|first|] == bytes[offset..offset + |first|];
    assert bytes[offset..][|first|..] == bytes[offset + |first|..];
  }

  /** Whatever is accepted is whole records up to the end. */
  lemma {:induction false} DecodedRecords(bytes: Bytes, offset: nat, levels: LevelList) returns (ms: seq<SstMeta>)
    requires offset <= |bytes| && DecodeFrom(bytes, offset, levels).Ok?
    ensures AllWritable(ms) && bytes[offset..] == EncodeAll(ms)
    decreases |bytes| - offset
  {
    hide ReadMeta, Place, EncodeMeta, Writable, MetaLaid;
    if offset == |bytes| {
      ms := [];
    } else {
      var d := ReadMeta(bytes, offset).value;
      ReadMetaIff(bytes, offset, d.meta);
      LaidIsWritable(bytes, offset, d.meta);
      MetaStands(bytes, offset, d.meta);
      var rest := DecodedRecords(bytes, d.next, Place(levels, d.meta).value);
      AtIs(bytes, offset, EncodeMeta(d.meta.level, d.meta));
      assert bytes[offset..] == bytes[offset..d.next] + bytes[d.next..];
      ms := [d.meta] + rest;
    }
  }

  lemma {:induction false} DecodeErrors(bytes: Bytes, offset: nat, levels: LevelList)
    requires offset <= |bytes|
    ensures DecodeFrom(bytes, offset, levels).Err? ==> DecodeFrom(bytes, offset, levels).error == Corruption
    decreases |bytes| - offset
  {
    hide ReadMeta, Padded;
    if offset < |bytes| {
      var d := ReadMeta(bytes, offset);
      ReadMetaIff(bytes, offset, if d.Ok? then d.value.meta else SstMeta(0, 0, [], [], []));
      if d.Ok? {
        var placed := Place(levels, d.value.meta);
        if placed.Ok? { DecodeErrors(bytes, d.value.next, placed.value); }
      }
    }
  }

  // ---- Which levels the records make ----

  /** The records of level `l`, in file order. */
  function OfLevel(ms: seq<SstMeta>, l: nat): seq<SstMeta> {
    if ms == [] then []
    else OfLevel(ms[..|ms| - 1], l) + if ms[|ms| - 1].level == l then [ms[|ms| - 1]] else []
  }

  /** `levels` holds exactly the records `ms`, each in its level, in file order. */
  ghost predicate Lists(levels: LevelList, ms: seq<SstMeta>) {
    && (forall i :: 0 <= i < |ms| ==> ms[i].level < |levels|)
    && (forall l :: 0 <= l < |levels| ==> levels[l] == OfLevel(ms, l))
    && (levels != [] ==> levels[|levels| - 1] != [])
  }

  ghost predicate AllAscend(levels: LevelList) {
    forall l :: 0 <= l < |levels| ==> SeqsAscend(levels[l])
  }

  /** The levels the records make, whatever their order. */
  function Grouped(ms: seq<SstMeta>): LevelList {
    if ms == [] then []
    else
      var m := ms[|ms| - 1];
      var grown := Padded(Grouped(ms[..|ms| - 1]), m.level + 1);
      grown[m.level := grown[m.level] + [m]]
  }

  lemma {:induction false} PlaceAllSnoc(levels: LevelList, ms: seq<SstMeta>, m: SstMeta)
    ensures PlaceAll(levels, ms + [m]) ==
            if PlaceAll(levels, ms).Err? then PlaceAll(levels, ms) else Place(PlaceAll(levels, ms).value, m)
    decreases |ms|
  {
    hide Place;
    if ms == [] {
      assert ms + [m] == [m] && [m][1..] == [];
    } else {
      assert (ms + [m])[0] == ms[0] && (ms + [m])[1..] == ms[1..] + [m];
      var placed := Place(levels, ms[0]);
      if placed.Ok? { PlaceAllSnoc(placed.value, ms[1..], m); }
    }
  }

  lemma PlaceWhenLarger(levels: LevelList, m: SstMeta)
    requires AllAscend(levels)
    ensures var grown := Padded(levels, m.level + 1);
            var after := grown[m.level := grown[m.level] + [m]];
            Place(levels, m) == if AllAscend(after) then Ok(after) else Err(Corruption)
  {
    var grown: LevelList := Padded(levels, m.level + 1);
    var ms: seq<SstMeta>, after: LevelList := grown[m.level], grown[m.level := grown[m.level] + [m]];
    assert SeqsAscend(ms);
    if ms != [] && ms[|ms| - 1].seqno >= m.seqno {
      assert after[m.level][|ms| - 1].seqno >= after[m.level][|ms|].seqno;
      assert !SeqsAscend(after[m.level]);
    } else {
      forall l | 0 <= l < |after| ensures SeqsAscend(after[l]) {
        if l != m.level { assert SeqsAscend(grown[l]); }
      }
    }
  }

  lemma PaddedAscends(levels: LevelList, m: SstMeta)
    ensures var grown := Padded(levels, m.level + 1);
            AllAscend(grown[m.level := grown[m.level] + [m]]) ==> AllAscend(levels)
  {
    var grown := Padded(levels, m.level + 1);
    var after := grown[m.level := grown[m.level] + [m]];
    if AllAscend(after) {
      forall l | 0 <= l < |levels| ensures SeqsAscend(levels[l]) {
        assert SeqsAscend(after[l]);
        assert forall i :: 0 <= i < |levels[l]| ==> after[l][i] == levels[l][i];
      }
    }
  }

  /** Placing succeeds exactly when each level comes in ascending order. */
  lemma {:induction false} PlacedIsGrouped(ms: seq<SstMeta>)
    ensures PlaceAll([], ms) == if AllAscend(Grouped(ms)) then Ok(Grouped(ms)) else Err(Corruption)
  {
    hide Place, AllAscend, Padded;
    if ms == [] {
      NothingAscends();
    } else {
      var n := |ms| - 1;
      PlacedIsGrouped(ms[..n]);
      assert ms[..n] + [ms[n]] == ms;
      PlaceAllSnoc([], ms[..n], ms[n]);
      PaddedAscends(Grouped(ms[..n]), ms[n]);
      if AllAscend(Grouped(ms[..n])) { PlaceWhenLarger(Grouped(ms[..n]), ms[n]); }
    }
  }

  lemma NothingAscends()
    ensures AllAscend([])
  {
  }

  lemma OfLevelSnoc(ms: seq<SstMeta>, m: SstMeta, l: nat)
    ensures OfLevel(ms + [m], l) == OfLevel(ms, l) + if m.level == l then [m] else []
  {
    assert (ms + [m])[..|ms|] == ms;
  }

  /** One record more. */
  lemma ListsMore(levels: LevelList, ms: seq<SstMeta>, m: SstMeta)
    requires Lists(levels, ms)
    ensures var grown := Padded(levels, m.level + 1);
            Lists(grown[m.level := grown[m.level] + [m]], ms + [m])
  {
    hide OfLevel, Padded;
    var grown: LevelList := Padded(levels, m.level + 1);
    var after: LevelList := grown[m.level := grown[m.level] + [m]];
    forall l | 0 <= l < |after| ensures after[l] == OfLevel(ms + [m], l) {
      OfLevelSnoc(ms, m, l);
      if l >= |levels| { NoneOfLevel(ms, l); }
      assert grown[l] == OfLevel(ms, l);
    }
    forall i | 0 <= i < |ms + [m]| ensures (ms + [m])[i].level < |after| {
      if i < |ms| { assert (ms + [m])[i] == ms[i]; }
    }
    LastStays(grown, m.level, m);
  }

  lemma LastStays(grown: LevelList, l: nat, m: SstMeta)
    requires l < |grown| && (|grown| == l + 1 || grown[|grown| - 1] != [])
    ensures var after := grown[l := grown[l] + [m]]; after[|after| - 1] != []
  {
    assert |grown[l] + [m]| > 0;
  }

  lemma {:induction false} GroupedLists(ms: seq<SstMeta>)
    ensures Lists(Grouped(ms), ms)
  {
    if ms != [] {
      hide Lists, Padded;
      var n := |ms| - 1;
      GroupedLists(ms[..n]);
      ListsMore(Grouped(ms[..n]), ms[..n], ms[n]);
      assert ms[..n] + [ms[n]] == ms;
    }
  }

  lemma {:induction false} NoneOfLevel(ms: seq<SstMeta>, l: nat)
    requires forall i :: 0 <= i < |ms| ==> ms[i].level < l
    ensures OfLevel(ms, l) == []
  {
    if ms != [] { NoneOfLevel(ms[..|ms| - 1], l); }
  }

  lemma {:induction false} SomeOfLevel(ms: seq<SstMeta>, l: nat) returns (i: nat)
    requires OfLevel(ms, l) != []
    ensures i < |ms| && ms[i].level == l
  {
    var n := |ms| - 1;
    if ms[n].level == l { i := n; } else { i := SomeOfLevel(ms[..n], l); }
  }

  /** The records decide the levels. */
  lemma ListsOnce(a: LevelList, b: LevelList, ms: seq<SstMeta>)
    requires Lists(a, ms) && Lists(b, ms)
    ensures a == b
  {
    if a != [] { var i := SomeOfLevel(ms, |a| - 1); }
    if b != [] { var i := SomeOfLevel(ms, |b| - 1); }
  }

  // ---- The whole file ----

  /** `bytes` is the file of exactly the records `ms`, and `levels` holds exactly these. */
  ghost predicate FileOf(bytes: Bytes, ms: seq<SstMeta>, levels: LevelList) {
    AllWritable(ms) && bytes == MAGIC_MANIFEST + EncodeAll(ms) && Lists(levels, ms) && AllAscend(levels)
  }

  lemma MagicFirst(bytes: Bytes)
    ensures |bytes| >= MAGIC_LEN && bytes[..MAGIC_LEN] == MAGIC_MANIFEST ==>
              bytes == MAGIC_MANIFEST + bytes[MAGIC_LEN..]
    ensures forall rest :: bytes == MAGIC_MANIFEST + rest ==>
              |bytes| >= MAGIC_LEN && bytes[..MAGIC_LEN] == MAGIC_MANIFEST && bytes[MAGIC_LEN..] == rest
  {
  }

  lemma FileParses(bytes: Bytes, ms: seq<SstMeta>, levels: LevelList)
    requires FileOf(bytes, ms, levels)
    ensures ParseManifest(bytes) == Ok(levels)
  {
    hide DecodeFrom, EncodeAll, PlaceAll, Lists, AllAscend, AllWritable;
    MagicFirst(bytes);
    RecordsDecode(bytes, MAGIC_LEN, [], ms);
    PlacedIsGrouped(ms);
    GroupedLists(ms);
    ListsOnce(levels, Grouped(ms), ms);
  }

  lemma ParsedIsFile(bytes: Bytes) returns (ms: seq<SstMeta>)
    requires ParseManifest(bytes).Ok?
    ensures FileOf(bytes, ms, ParseManifest(bytes).value)
  {
    hide DecodeFrom, EncodeAll, PlaceAll, Lists, AllAscend, AllWritable;
    MagicFirst(bytes);
    ms := DecodedRecords(bytes, MAGIC_LEN, []);
    RecordsDecode(bytes, MAGIC_LEN, [], ms);
    PlacedIsGrouped(ms);
    GroupedLists(ms);
  }

  /** On any bytes, both ways round: a MANIFEST is accepted, as `levels`, exactly when it is the magic
      and whole records, which are those of `levels` and ascend in each; all else is corruption. */
  lemma DecodesIff(bytes: Bytes, levels: LevelList)
    ensures ParseManifest(bytes) == Ok(levels) <==> exists ms :: FileOf(bytes, ms, levels)
    ensures ParseManifest(bytes).Err? ==> ParseManifest(bytes).error == Corruption
  {
    hide ParseManifest, FileOf;
    if ParseManifest(bytes) == Ok(levels) { var ms := ParsedIsFile(bytes); }
    forall ms | FileOf(bytes, ms, levels) ensures ParseManifest(bytes) == Ok(levels) { FileParses(bytes, ms, levels); }
    ParseErrors(bytes);
  }

  lemma ParseErrors(bytes: Bytes)
    ensures ParseManifest(bytes).Err? ==> ParseManifest(bytes).error == Corruption
  {
    hide DecodeFrom;
    if |bytes| >= MAGIC_LEN { DecodeErrors(bytes, MAGIC_LEN, []); }
  }

  // ---- A file cut short ----

  lemma {:induction false} CutInside(ms: seq<SstMeta>, cut: seq<SstMeta>, n: nat)
    requires AllWritable(ms) && AllWritable(cut) && n <= |EncodeAll(ms)| && EncodeAll(cut) == EncodeAll(ms)[..n]
    ensures cut <= ms
    decreases |cut|
  {
    hide EncodeMeta, Writable, MetaLaid, EncodeAll;
    CutStarts(ms, cut, n);
    if cut != [] {
      var a, c := cut[0], EncodeMeta(cut[0].level, cut[0]);
      AllStarts(ms);
      AllStarts(cut);
      CutHead(EncodeAll(ms), c, EncodeAll(cut[1..]), n);
      MetaStands(EncodeAll(ms), 0, a);
      MetaStands(EncodeAll(ms), 0, ms[0]);
      ReadMetaIff(EncodeAll(ms), 0, a);
      ReadMetaIff(EncodeAll(ms), 0, ms[0]);
      CutTail(c, EncodeAll(ms[1..]), EncodeAll(cut[1..]), n);
      CutInside(ms[1..], cut[1..], n - |c|);
      assert cut == [a] + cut[1..] && ms == [a] + ms[1..];
    }
  }

  lemma CutStarts(ms: seq<SstMeta>, cut: seq<SstMeta>, n: nat)
    requires n <= |EncodeAll(ms)| && EncodeAll(cut) == EncodeAll(ms)[..n]
    ensures cut != [] ==> ms != []
  {
    if cut != [] { assert |EncodeAll(cut)| > 0; }
  }

  /** The first record of a file stands at its start. */
  lemma AllStarts(ms: seq<SstMeta>)
    requires ms != []
    ensures var c := EncodeMeta(ms[0].level, ms[0]);
            EncodeAll(ms) == c + EncodeAll(ms[1..]) && At(EncodeAll(ms), 0, c)
  {
    hide EncodeMeta;
    var c := EncodeMeta(ms[0].level, ms[0]);
    assert EncodeAll(ms)[0..|c|] == c;
  }

  lemma CutHead(bytes: Bytes, c: Bytes, cutRest: Bytes, n: nat)
    requires n <= |bytes| && c + cutRest == bytes[..n]
    ensures At(bytes, 0, c)
  {
    assert bytes[0..|c|] == bytes[..n][..|c|] == (c + cutRest)[..|c|] == c;
  }

  lemma CutTail(c: Bytes, rest: Bytes, cutRest: Bytes, n: nat)
    requires n <= |c + rest| && c + cutRest == (c + rest)[..n]
    ensures |c| <= n && cutRest == rest[..n - |c|]
  {
    assert cutRest == (c + cutRest)[|c|..] == (c + rest)[..n][|c|..];
  }

  lemma {:induction false} PrefixAscends(ms: seq<SstMeta>, k: nat)
    requires k <= |ms| && AllAscend(Grouped(ms))
    ensures AllAscend(Grouped(ms[..k]))
    decreases |ms|
  {
    hide AllAscend;
    if k < |ms| {
      var n := |ms| - 1;
      PaddedAscends(Grouped(ms[..n]), ms[n]);
      PrefixAscends(ms[..n], k);
      assert ms[..n][..k] == ms[..k];
    } else {
      assert ms[..k] == ms;
    }
  }

  lemma PrefixParses(ms: seq<SstMeta>, levels: LevelList, k: nat)
    requires k <= |ms| && AllWritable(ms) && Lists(levels, ms) && AllAscend(levels)
    ensures ParseManifest(MAGIC_MANIFEST + EncodeAll(ms[..k])).Ok?
  {
    hide ParseManifest, EncodeAll, Lists, AllAscend, Writable;
    GroupedLists(ms);
    ListsOnce(levels, Grouped(ms), ms);
    PrefixAscends(ms, k);
    GroupedLists(ms[..k]);
    FileParses(MAGIC_MANIFEST + EncodeAll(ms[..k]), ms[..k], Grouped(ms[..k]));
  }

  ghost predicate CutBetween(bytes: Bytes, ms: seq<SstMeta>, k: nat) {
    k <= |ms| && bytes == MAGIC_MANIFEST + EncodeAll(ms[..k])
  }

  /** A MANIFEST cut short is accepted exactly when the cut falls between two records. */
  lemma CutIsRefused(bytes: Bytes, ms: seq<SstMeta>, levels: LevelList, n: nat)
    requires FileOf(bytes, ms, levels) && n <= |bytes|
    ensures ParseManifest(bytes[..n]).Ok? <==> exists k :: CutBetween(bytes[..n], ms, k)
  {
    hide ParseManifest, EncodeAll, AllWritable, Lists, AllAscend;
    if ParseManifest(bytes[..n]).Ok? {
      var cut := ParsedIsFile(bytes[..n]);
      assert n == MAGIC_LEN + |EncodeAll(cut)|;
      assert EncodeAll(cut) == bytes[..n][MAGIC_LEN..] == EncodeAll(ms)[..n - MAGIC_LEN];
      CutInside(ms, cut, n - MAGIC_LEN);
      assert ms[..|cut|] == cut;
      assert CutBetween(bytes[..n], ms, |cut|);
    }
    forall k | CutBetween(bytes[..n], ms, k) ensures ParseManifest(bytes[..n]).Ok? { PrefixParses(ms, levels, k); }
  }
}
