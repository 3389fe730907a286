/** The sparse index of a table (src/sstable/index.rs). */
module SparseIndex {
  import opened Outcomes
  import opened Bytes
  import opened Records

  const INDEX_ENTRY_HEADER_LEN: nat := 2 + 8 + 8

  datatype IndexEntry = IndexEntry(firstKey: Bytes, offset: nat, size: nat)

  ghost predicate Encodable(e: IndexEntry) {
    |e.firstKey| <= MAX_KEY_LEN && e.offset <= U64_MAX && e.size <= U64_MAX
  }

  ghost predicate AllEncodable(es: seq<IndexEntry>) {
    forall i :: 0 <= i < |es| ==> Encodable(es[i])
  }

  /** `[key_len u16][first_key][offset u64][size u64]`. */
  function EncodeEntry(e: IndexEntry): (bs: Bytes)
    ensures |bs| == INDEX_ENTRY_HEADER_LEN + |e.firstKey|
  {
    PutU16(|e.firstKey|) + (e.firstKey + (PutU64(e.offset) + PutU64(e.size)))
  }

  /** The layout byte by byte. */
  ghost predicate EntryLaid(bytes: Bytes, offset: nat, e: IndexEntry) {
    var keyEnd := offset + 2 + |e.firstKey|;
    && keyEnd + 16 <= |bytes| && U16At(bytes, offset) == |e.firstKey| && bytes[offset + 2..keyEnd] == e.firstKey
    && U64At(bytes, keyEnd) == e.offset && U64At(bytes, keyEnd + 8) == e.size
  }

  /** The encoding of an entry is exactly what is laid out. */
  lemma EntryStands(bytes: Bytes, offset: nat, e: IndexEntry)
    ensures Encodable(e) && At(bytes, offset, EncodeEntry(e)) <==> EntryLaid(bytes, offset, e)
  {
    hide PutU16, PutU64, U16At, U64At, At;
    if Encodable(e) {
      AtSplit(bytes, offset, PutU16(|e.firstKey|), e.firstKey + (PutU64(e.offset) + PutU64(e.size)));
      AtSplit(bytes, offset + 2, e.firstKey, PutU64(e.offset) + PutU64(e.size));
      AtSplit(bytes, offset + 2 + |e.firstKey|, PutU64(e.offset), PutU64(e.size));
      U16Stands(bytes, offset, |e.firstKey|);
      U64Stands(bytes, offset + 2 + |e.firstKey|, e.offset);
      U64Stands(bytes, offset + 10 + |e.firstKey|, e.size);
      AtIs(bytes, offset + 2, e.firstKey);
    }
  }

  function EncodeEntries(es: seq<IndexEntry>): Bytes {
    if es == [] then [] else EncodeEntry(es[0]) + EncodeEntries(es[1..])
  }

  lemma {:induction false} EncodeEntriesSnoc(es: seq<IndexEntry>, e: IndexEntry)
    ensures EncodeEntries(es + [e]) == EncodeEntries(es) + EncodeEntry(e)
  {
    hide EncodeEntry;
    if es == [] {
      assert [e][1..] == [] && es + [e] == [e];
    } else {
      EncodeEntriesSnoc(es[1..], e);
      assert (es + [e])[1..] == es[1..] + [e];
    }
  }

  /** All keys are checked before the first byte is written. */
  method EncodeIndex(buf: Bytes, entries: seq<IndexEntry>) returns (r: Result<()>, out: Bytes)
    ensures r.Ok? <==> forall i :: 0 <= i < |entries| ==> |entries[i].firstKey| <= MAX_KEY_LEN
    ensures r.Err? ==> exists i :: 0 <= i < |entries| && |entries[i].firstKey| > MAX_KEY_LEN
                                   && r.error == KeyTooLarge(|entries[i].firstKey|, 65535)
                                   && forall j :: 0 <= j < i ==> |entries[j].firstKey| <= MAX_KEY_LEN
    ensures out == if r.Ok? then buf + EncodeEntries(entries) else buf
  {
    out := buf;
    for i := 0 to |entries|
      invariant forall j :: 0 <= j < i ==> |entries[j].firstKey| <= MAX_KEY_LEN
    {
      if |entries[i].firstKey| > MAX_KEY_LEN {
        return Err(KeyTooLarge(|entries[i].firstKey|, MAX_KEY_LEN)), out;
      }
    }
    for i := 0 to |entries|
      invariant out == buf + EncodeEntries(entries[..i])
    {
      var e := entries[i];
      assert entries[..i + 1] == entries[..i] + [e];
      EncodeEntriesSnoc(entries[..i], e);
      ghost var before := out;
      out := out + PutU16(|e.firstKey|);
      out := out + e.firstKey;
      out := out + PutU64(e.offset);
      out := out + PutU64(e.size);
      assert out == before + EncodeEntry(e);
    }
    assert entries[..|entries|] == entries;
    r := Ok(());
  }

  datatype DecodedEntry = DecodedEntry(entry: IndexEntry, len: nat)

  function ReadEntry(bytes: Bytes, offset: nat): (r: Result<DecodedEntry>)
    requires offset <= |bytes|
    ensures r.Ok? ==> INDEX_ENTRY_HEADER_LEN <= r.value.len && offset + r.value.len <= |bytes|
  {
    var remaining := |bytes| - offset;
    if remaining < INDEX_ENTRY_HEADER_LEN then Err(Corruption)
    else
      var keyLen := ReadU16(bytes, offset).value;
      var entryLen := INDEX_ENTRY_HEADER_LEN + keyLen;
      if entryLen > remaining then Err(Corruption)
      else
        var keyEnd := offset + 2 + keyLen;
        var blockOffset := ReadU64(bytes, keyEnd).value;
        var size := ReadU64(bytes, keyEnd + 8).value;
        Ok(DecodedEntry(IndexEntry(bytes[offset + 2..keyEnd], blockOffset, size), entryLen))
  }

  function ParseEntries(bytes: Bytes, offset: nat): Result<seq<IndexEntry>>
    requires offset <= |bytes|
    decreases |bytes| - offset
  {
    if offset == |bytes| then Ok([])
    else
      var d :- ReadEntry(bytes, offset);
      Prefixed([d.entry], ParseEntries(bytes, offset + d.len))
  }

  /** The count-free walk: the buffer must be used up exactly. */
  method ParseIndex(bytes: Bytes) returns (r: Result<seq<IndexEntry>>)
    ensures r == ParseEntries(bytes, 0)
  {
    hide ReadEntry, Prefixed;
    var entries: seq<IndexEntry> := [];
    var offset := 0;
    PrefixedNone(entries, ParseEntries(bytes, 0));
    while offset < |bytes|
      invariant offset <= |bytes|
      invariant ParseEntries(bytes, 0) == Prefixed(entries, ParseEntries(bytes, offset))
    {
      var d := ReadEntry(bytes, offset);
      if d.Err? {
        StoppedWalk(entries, bytes, offset);
        return Err(d.error);
      }
      PrefixedStep(entries, d.value.entry, ParseEntries(bytes, offset + d.value.len));
      entries := entries + [d.value.entry];
      offset := offset + d.value.len;
    }
    PrefixedNone(entries, ParseEntries(bytes, 0));
    r := Ok(entries);
  }

  lemma StoppedWalk(entries: seq<IndexEntry>, bytes: Bytes, offset: nat)
    requires offset < |bytes| && ReadEntry(bytes, offset).Err?
    ensures Prefixed(entries, ParseEntries(bytes, offset)) == Err(ReadEntry(bytes, offset).error)
  {
  }

  /** On any bytes: an entry is read exactly where one is laid out. */
  lemma ReadEntryIff(bytes: Bytes, offset: nat, e: IndexEntry)
    requires offset <= |bytes|
    ensures ReadEntry(bytes, offset) == Ok(DecodedEntry(e, 18 + |e.firstKey|)) <==> EntryLaid(bytes, offset, e)
    ensures ReadEntry(bytes, offset).Ok? && ReadEntry(bytes, offset).value.entry == e <==> EntryLaid(bytes, offset, e)
    ensures ReadEntry(bytes, offset).Err? ==> ReadEntry(bytes, offset).error == Corruption
  {
    hide U16At, U64At, ReadU16, ReadU64;
    if offset + 18 <= |bytes| {
      ReadU16Is(bytes, offset);
      var keyEnd := offset + 2 + U16At(bytes, offset);
      if keyEnd + 16 <= |bytes| {
        ReadU64Is(bytes, keyEnd);
        ReadU64Is(bytes, keyEnd + 8);
      }
    }
  }

  lemma ReadEntryAt(bytes: Bytes, offset: nat, e: IndexEntry)
    requires Encodable(e) && offset <= |bytes| && At(bytes, offset, EncodeEntry(e))
    ensures ReadEntry(bytes, offset) == Ok(DecodedEntry(e, INDEX_ENTRY_HEADER_LEN + |e.firstKey|))
  {
    hide EntryLaid, ReadEntry, EncodeEntry;
    EntryStands(bytes, offset, e);
    ReadEntryIff(bytes, offset, e);
  }

  lemma ParseNext(bytes: Bytes, offset: nat, es: seq<IndexEntry>)
    requires es != [] && At(bytes, offset, EncodeEntries(es))
    ensures At(bytes, offset, EncodeEntry(es[0])) && At(bytes, offset + |EncodeEntry(es[0])|, EncodeEntries(es[1..]))
    ensures |EncodeEntries(es)| == |EncodeEntry(es[0])| + |EncodeEntries(es[1..])|
    ensures offset + |EncodeEntry(es[0])| <= |bytes|
  {
    hide EncodeEntry;
    AtSplit(bytes, offset, EncodeEntry(es[0]), EncodeEntries(es[1..]));
  }

  lemma ParseStep(bytes: Bytes, offset: nat, e: IndexEntry, len: nat, rest: seq<IndexEntry>)
    requires offset < offset + len <= |bytes| && ReadEntry(bytes, offset) == Ok(DecodedEntry(e, len))
    requires ParseEntries(bytes, offset + len) == Ok(rest)
    ensures ParseEntries(bytes, offset) == Ok([e] + rest)
  {
    hide ReadEntry;
  }

  lemma ParseNothing(bytes: Bytes)
    ensures EncodeEntries([]) == [] && ParseEntries(bytes, |bytes|) == Ok([])
  {
  }

  lemma RestEncodable(es: seq<IndexEntry>)
    requires es != [] && AllEncodable(es)
    ensures Encodable(es[0]) && AllEncodable(es[1..]) && es == [es[0]] + es[1..]
  {
    hide Encodable;
  }

  /** Parsing undoes encoding. */
  lemma {:induction false} ParseEncoded(bytes: Bytes, offset: nat, es: seq<IndexEntry>)
    requires AllEncodable(es) && At(bytes, offset, EncodeEntries(es)) && offset + |EncodeEntries(es)| == |bytes|
    ensures ParseEntries(bytes, offset) == Ok(es)
    decreases |es|
  {
    hide EncodeEntry, EncodeEntries, ReadEntry, ParseEntries, At, Encodable, AllEncodable;
    if es == [] {
      ParseNothing(bytes);
    } else {
      RestEncodable(es);
      ParseNext(bytes, offset, es);
      ReadEntryAt(bytes, offset, es[0]);
      ParseEncoded(bytes, offset + |EncodeEntry(es[0])|, es[1..]);
      ParseStep(bytes, offset, es[0], |EncodeEntry(es[0])|, es[1..]);
    }
  }

  lemma ReadEntryExact(bytes: Bytes, offset: nat)
    requires offset <= |bytes| && ReadEntry(bytes, offset).Ok?
    ensures var d := ReadEntry(bytes, offset).value;
            Encodable(d.entry) && d.len == |EncodeEntry(d.entry)| && At(bytes, offset, EncodeEntry(d.entry))
  {
    hide EntryLaid, ReadEntry, EncodeEntry;
    var e := ReadEntry(bytes, offset).value.entry;
    ReadEntryIff(bytes, offset, e);
    EntryStands(bytes, offset, e);
  }

  /** What is left to parse starts with one entry. */
  lemma ParsedFirst(bytes: Bytes, offset: nat) returns (e: IndexEntry, next: nat, rest: seq<IndexEntry>)
    requires offset < |bytes| && ParseEntries(bytes, offset).Ok?
    ensures offset < next <= |bytes| && Encodable(e) && next == offset + |EncodeEntry(e)|
            && bytes[offset..next] == EncodeEntry(e)
    ensures ParseEntries(bytes, next) == Ok(rest) && ParseEntries(bytes, offset).value == [e] + rest
  {
    hide ReadEntry, EncodeEntry;
    var d := ReadEntry(bytes, offset).value;
    ReadEntryExact(bytes, offset);
    e, next := d.entry, offset + d.len;
    rest := ParseEntries(bytes, next).value;
  }

  lemma EntriesFrom(e: IndexEntry, rest: seq<IndexEntry>)
    ensures EncodeEntries([e] + rest) == EncodeEntry(e) + EncodeEntries(rest)
    ensures Encodable(e) && AllEncodable(rest) ==> AllEncodable([e] + rest)
  {
    hide EncodeEntry, Encodable;
    assert ([e] + rest)[1..] == rest;
  }

  /** What parses is exactly the encoding of what was parsed: nothing is skipped or ignored. */
  lemma {:induction false} ParseExact(bytes: Bytes, offset: nat)
    requires offset <= |bytes| && ParseEntries(bytes, offset).Ok?
    ensures AllEncodable(ParseEntries(bytes, offset).value)
    ensures bytes[offset..] == EncodeEntries(ParseEntries(bytes, offset).value)
    decreases |bytes| - offset
  {
    hide ReadEntry, EncodeEntry, EncodeEntries, ParseEntries, Encodable;
    if offset == |bytes| {
      ParseNothing(bytes);
    } else {
      var e, next, rest := ParsedFirst(bytes, offset);
      ParseExact(bytes, next);
      EntriesFrom(e, rest);
      assert bytes[offset..] == bytes[offset..next] + bytes[next..];
    }
  }

  // ---- Locating the block of a key ----

  /** `partition_point`: how many leading entries start at or before `key`. */
  function PartitionPoint(es: seq<IndexEntry>, key: Bytes): (n: nat)
    ensures n <= |es|
  {
    if es == [] || !AtMost(es[0].firstKey, key) then 0 else 1 + PartitionPoint(es[1..], key)
  }

  /** The rightmost block whose first key is not past `key`. */
  function LocateBlock(es: seq<IndexEntry>, key: Bytes): (r: Option<nat>)
    ensures r.Some? ==> r.value < |es|
  {
    var split := PartitionPoint(es, key);
    if split == 0 then None else Some(split - 1)
  }

  ghost predicate FirstKeysAscend(es: seq<IndexEntry>) {
    forall i, j :: 0 <= i < j < |es| ==> Less(es[i].firstKey, es[j].firstKey)
  }

  lemma {:induction false} PartitionPointSplits(es: seq<IndexEntry>, key: Bytes)
    requires FirstKeysAscend(es)
    ensures var n := PartitionPoint(es, key);
            && (forall i :: 0 <= i < n ==> AtMost(es[i].firstKey, key))
            && (forall i :: n <= i < |es| ==> Less(key, es[i].firstKey))
  {
    hide Less;
    if es != [] {
      if AtMost(es[0].firstKey, key) {
        PartitionPointSplits(es[1..], key);
        assert forall i :: 1 <= i < |es| ==> es[i] == es[1..][i - 1];
      } else {
        LessTotal(es[0].firstKey, key);
        forall i | 0 <= i < |es| ensures Less(key, es[i].firstKey) {
          if i > 0 { LessTransitive(key, es[0].firstKey, es[i].firstKey); }
        }
      }
    }
  }

  /** The located block is the only one that can hold `key`: its first key is at most `key`, and
      every later block starts past it; with no block located, every block starts past it. */
  lemma LocateBlockCorrect(es: seq<IndexEntry>, key: Bytes)
    requires FirstKeysAscend(es)
    ensures match LocateBlock(es, key)
            case None => forall i :: 0 <= i < |es| ==> Less(key, es[i].firstKey)
            case Some(b) => AtMost(es[b].firstKey, key) && forall i :: b < i < |es| ==> Less(key, es[i].firstKey)
  {
    PartitionPointSplits(es, key);
  }
}
