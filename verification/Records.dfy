/** The record codec of sstable data blocks (src/sstable/record.rs, src/sstable/mod.rs). */
module Records {
  import opened Outcomes
  import opened Bytes

  const MAX_KEY_LEN: nat := 65535
  const MAX_VALUE_LEN: nat := U32_MAX
  const FLAG_DELETED: Byte := 1
  const RECORD_HEADER_LEN: nat := 2 + 1 + 4

  /** One table record: `(key, value, deleted)`. */
  datatype Record = Record(key: Bytes, value: Bytes, deleted: bool)

  predicate Fits(r: Record) {
    |r.key| <= MAX_KEY_LEN && |r.value| <= MAX_VALUE_LEN
  }

  ghost predicate AllFit(rs: seq<Record>) {
    forall i :: 0 <= i < |rs| ==> Fits(rs[i])
  }

  function RecordLen(keyLen: nat, valueLen: nat): nat {
    RECORD_HEADER_LEN + keyLen + valueLen
  }

  /** The on-disk layout `[key_len u16][flags u8][value_len u32][key][value]`. */
  function EncodeRecord(r: Record): (bs: Bytes)
    ensures |bs| == RecordLen(|r.key|, |r.value|)
  {
    PutU16(|r.key|) + ([if r.deleted then FLAG_DELETED else 0] + (PutU32(|r.value|) + (r.key + r.value)))
  }

  /** The layout byte by byte, on any bytes: of the flags only bit 0 counts. */
  ghost predicate RecordLaid(bytes: Bytes, offset: nat, rec: Record) {
    var keyEnd := offset + 7 + |rec.key|;
    && keyEnd + |rec.value| <= |bytes|
    && U16At(bytes, offset) == |rec.key| && U32At(bytes, offset + 3) == |rec.value|
    && (bytes[offset + 2] % 2 == 1 <==> rec.deleted)
    && bytes[offset + 7..keyEnd] == rec.key && bytes[keyEnd..keyEnd + |rec.value|] == rec.value
  }

  /** The encoding of a record is what is laid out with no other flag set. */
  lemma RecordStands(bytes: Bytes, offset: nat, rec: Record)
    ensures Fits(rec) && At(bytes, offset, EncodeRecord(rec)) <==>
              RecordLaid(bytes, offset, rec) && bytes[offset + 2] == if rec.deleted then 1 else 0
  {
    hide PutU16, PutU32, U16At, U32At, At;
    if Fits(rec) {
      var flag: Bytes := [if rec.deleted then FLAG_DELETED else 0];
      AtSplit(bytes, offset, PutU16(|rec.key|), flag + (PutU32(|rec.value|) + (rec.key + rec.value)));
      AtSplit(bytes, offset + 2, flag, PutU32(|rec.value|) + (rec.key + rec.value));
      AtSplit(bytes, offset + 3, PutU32(|rec.value|), rec.key + rec.value);
      AtSplit(bytes, offset + 7, rec.key, rec.value);
      U16Stands(bytes, offset, |rec.key|);
      U32Stands(bytes, offset + 3, |rec.value|);
      AtIs(bytes, offset + 2, flag);
      AtIs(bytes, offset + 7, rec.key);
      AtIs(bytes, offset + 7 + |rec.key|, rec.value);
    }
  }

  function EncodeRecords(rs: seq<Record>): Bytes {
    if rs == [] then [] else EncodeRecord(rs[0]) + EncodeRecords(rs[1..])
  }

  /** Appends one record to `buf`; a rejected record leaves `buf` alone. */
  method PutRecord(buf: Bytes, key: Bytes, value: Bytes, deleted: bool) returns (r: Result<()>, out: Bytes)
    ensures |key| > MAX_KEY_LEN ==> r == Err(KeyTooLarge(|key|, MAX_KEY_LEN))
    ensures |key| <= MAX_KEY_LEN && |value| > MAX_VALUE_LEN ==> r == Err(ValueTooLarge(|value|, MAX_VALUE_LEN))
    ensures r.Ok? <==> |key| <= 65535 && |value| <= 0xFFFF_FFFF
    ensures r.Ok? ==> |out| == |buf| + 7 + |key| + |value| && out[..|buf|] == buf
                      && U16At(out, |buf|) == |key| && U32At(out, |buf| + 3) == |value|
                      && out[|buf| + 2] == (if deleted then 1 else 0)
                      && out[|buf| + 7..|buf| + 7 + |key|] == key && out[|buf| + 7 + |key|..] == value
    ensures out == if r.Ok? then buf + EncodeRecord(Record(key, value, deleted)) else buf
  {
    out := buf;
    if |key| > MAX_KEY_LEN {
      return Err(KeyTooLarge(|key|, MAX_KEY_LEN)), out;
    }
    if |value| > MAX_VALUE_LEN {
      return Err(ValueTooLarge(|value|, MAX_VALUE_LEN)), out;
    }
    var flags: Byte := if deleted then FLAG_DELETED else 0;
    out := out + PutU16(|key|);
    out := out + [flags];
    out := out + PutU32(|value|);
    out := out + key;
    out := out + value;
    r := Ok(());
    RecordBehind(buf, Record(key, value, deleted));
    assert out == buf + EncodeRecord(Record(key, value, deleted));
  }

  lemma RecordBehind(buf: Bytes, rec: Record)
    requires Fits(rec)
    ensures var out := buf + EncodeRecord(rec);
            && |out| == |buf| + 7 + |rec.key| + |rec.value| && out[..|buf|] == buf
            && RecordLaid(out, |buf|, rec) && out[|buf| + 2] == (if rec.deleted then 1 else 0)
            && out[|buf| + 7 + |rec.key|..] == rec.value
  {
    hide EncodeRecord, Fits;
    var out := buf + EncodeRecord(rec);
    assert out[|buf|..|out|] == EncodeRecord(rec);
    RecordStands(out, |buf|, rec);
  }

  datatype Decoded = Decoded(record: Record, consumed: nat)

  /** Decodes one record at `offset`. Only bit 0 of the flags byte is meaningful. */
  function ReadRecord(bytes: Bytes, offset: nat): (r: Result<Decoded>)
    ensures r.Ok? ==> r.value.consumed >= RECORD_HEADER_LEN && offset + r.value.consumed <= |bytes|
    ensures r.Ok? ==> Fits(r.value.record)
    ensures r.Ok? ==> r.value.consumed == RecordLen(|r.value.record.key|, |r.value.record.value|)
  {
    var remaining := if offset > |bytes| then 0 else |bytes| - offset;
    if remaining < RECORD_HEADER_LEN then Err(Corruption)
    else
      var keyLen := ReadU16(bytes, offset).value;
      var flags := bytes[offset + 2];
      var valueLen := ReadU32(bytes, offset + 3).value;
      var total := RecordLen(keyLen, valueLen);
      if total > remaining then Err(Corruption)
      else
        var keyStart := offset + RECORD_HEADER_LEN;
        var valueStart := keyStart + keyLen;
        Ok(Decoded(Record(bytes[keyStart..valueStart], bytes[valueStart..offset + total], flags % 2 == 1), total))
  }

  /** On any bytes: a record is read exactly where one is laid out, and otherwise it is corruption. */
  lemma ReadRecordIff(bytes: Bytes, offset: nat, rec: Record)
    ensures ReadRecord(bytes, offset) == Ok(Decoded(rec, 7 + |rec.key| + |rec.value|)) <==>
              RecordLaid(bytes, offset, rec)
    ensures ReadRecord(bytes, offset).Ok? && ReadRecord(bytes, offset).value.record == rec <==>
              RecordLaid(bytes, offset, rec)
    ensures ReadRecord(bytes, offset).Err? ==> ReadRecord(bytes, offset).error == Corruption
  {
    hide U16At, U32At, ReadU16, ReadU32;
    if offset + 7 <= |bytes| {
      ReadU16Is(bytes, offset);
      ReadU32Is(bytes, offset + 3);
    }
  }

  /** Decoding undoes encoding, wherever the record stands in the buffer. */
  lemma ReadRecordAt(bytes: Bytes, offset: nat, rec: Record)
    requires Fits(rec) && At(bytes, offset, EncodeRecord(rec))
    ensures ReadRecord(bytes, offset) == Ok(Decoded(rec, RecordLen(|rec.key|, |rec.value|)))
  {
    hide RecordLaid, ReadRecord, EncodeRecord;
    RecordStands(bytes, offset, rec);
    ReadRecordIff(bytes, offset, rec);
  }

  lemma {:induction false} EncodeRecordsAppend(a: seq<Record>, b: seq<Record>)
    ensures EncodeRecords(a + b) == EncodeRecords(a) + EncodeRecords(b)
  {
    if a == [] {
      assert a + b == b;
    } else {
      hide EncodeRecord;
      EncodeRecordsAppend(a[1..], b);
      assert (a + b)[1..] == a[1..] + b && (a + b)[0] == a[0];
      ConcatAssoc(EncodeRecord(a[0]), EncodeRecords(a[1..]), EncodeRecords(b));
    }
  }

  lemma EncodeRecordsSnoc(a: seq<Record>, r: Record)
    ensures EncodeRecords(a + [r]) == EncodeRecords(a) + EncodeRecord(r)
  {
    EncodeRecordsAppend(a, [r]);
    assert EncodeRecords([r]) == EncodeRecord(r) + EncodeRecords([r][1..]);
    assert EncodeRecords([r]) == EncodeRecord(r);
  }

  // ---- Walking a region of records ----

  /** Decodes record after record until the buffer is used up, as the table scan does. */
  function WalkRecords(bytes: Bytes, offset: nat): (r: Result<seq<Record>>)
    requires offset <= |bytes|
    decreases |bytes| - offset
  {
    if offset == |bytes| then Ok([])
    else
      var d :- ReadRecord(bytes, offset);
      Prefixed([d.record], WalkRecords(bytes, offset + d.consumed))
  }

  // ---- Damaged regions ----

  /** The records `rs` are laid out one after another from `offset` to `end`. */
  ghost predicate Tiles(bytes: Bytes, offset: nat, rs: seq<Record>, end: nat)
    decreases |rs|
  {
    if rs == [] then offset == end <= |bytes|
    else RecordLaid(bytes, offset, rs[0]) && Tiles(bytes, offset + 7 + |rs[0].key| + |rs[0].value|, rs[1..], end)
  }

  /** There is no whole record at `offset`; at the end of the bytes there never is. */
  ghost predicate NoRecord(bytes: Bytes, offset: nat) {
    forall rec :: !RecordLaid(bytes, offset, rec)
  }

  lemma NoRecordRead(bytes: Bytes, offset: nat)
    ensures NoRecord(bytes, offset) <==> ReadRecord(bytes, offset) == Err(Corruption)
  {
    hide ReadRecord, RecordLaid;
    forall rec ensures RecordLaid(bytes, offset, rec) <==>
                         ReadRecord(bytes, offset).Ok? && ReadRecord(bytes, offset).value.record == rec
    {
      ReadRecordIff(bytes, offset, rec);
    }
    ReadRecordIff(bytes, offset, Record([], [], false));
    if ReadRecord(bytes, offset).Ok? { ReadRecordIff(bytes, offset, ReadRecord(bytes, offset).value.record); }
  }

  /** Any bytes are whole records up to some point, and no record behind. */
  lemma {:induction false} SomeRecords(bytes: Bytes, offset: nat) returns (rs: seq<Record>, end: nat)
    requires offset <= |bytes|
    ensures offset <= end <= |bytes| && Tiles(bytes, offset, rs, end) && NoRecord(bytes, end)
    decreases |bytes| - offset
  {
    hide ReadRecord, RecordLaid, NoRecord;
    var d := ReadRecord(bytes, offset);
    NoRecordRead(bytes, offset);
    if d.Err? {
      ReadRecordIff(bytes, offset, Record([], [], false));
      rs, end := [], offset;
    } else {
      var rest;
      ReadRecordIff(bytes, offset, d.value.record);
      rest, end := SomeRecords(bytes, offset + d.value.consumed);
      rs := [d.value.record] + rest;
    }
  }

  /** A scan gives all the records if they are all there is; anything behind the last whole record
      is corruption. */
  lemma {:induction false} WalkDecides(bytes: Bytes, offset: nat, rs: seq<Record>, end: nat)
    requires offset <= |bytes| && Tiles(bytes, offset, rs, end) && NoRecord(bytes, end)
    ensures WalkRecords(bytes, offset) == if end == |bytes| then Ok(rs) else Err(Corruption)
    decreases |rs|
  {
    hide ReadRecord, RecordLaid, NoRecord;
    if rs == [] {
      NoRecordRead(bytes, offset);
    } else {
      ReadRecordIff(bytes, offset, rs[0]);
      WalkDecides(bytes, offset + 7 + |rs[0].key| + |rs[0].value|, rs[1..], end);
      assert [rs[0]] + rs[1..] == rs;
    }
  }

  lemma WalkNext(bytes: Bytes, offset: nat, rs: seq<Record>)
    requires rs != [] && At(bytes, offset, EncodeRecords(rs))
    ensures At(bytes, offset, EncodeRecord(rs[0])) && At(bytes, offset + |EncodeRecord(rs[0])|, EncodeRecords(rs[1..]))
    ensures |EncodeRecords(rs)| == |EncodeRecord(rs[0])| + |EncodeRecords(rs[1..])|
    ensures offset + |EncodeRecord(rs[0])| <= |bytes|
  {
    hide EncodeRecord;
    AtSplit(bytes, offset, EncodeRecord(rs[0]), EncodeRecords(rs[1..]));
  }

  lemma WalkStep(bytes: Bytes, offset: nat, rec: Record, len: nat, rest: seq<Record>)
    requires offset < offset + len <= |bytes| && ReadRecord(bytes, offset) == Ok(Decoded(rec, len))
    requires WalkRecords(bytes, offset + len) == Ok(rest)
    ensures WalkRecords(bytes, offset) == Ok([rec] + rest)
  {
    hide ReadRecord;
  }

  lemma WalkNothing(bytes: Bytes)
    ensures EncodeRecords([]) == [] && WalkRecords(bytes, |bytes|) == Ok([])
  {
  }

  lemma RestFits(rs: seq<Record>)
    requires rs != [] && AllFit(rs)
    ensures Fits(rs[0]) && AllFit(rs[1..]) && rs == [rs[0]] + rs[1..]
  {
    hide Fits;
  }

  lemma {:induction false} WalkEncoded(bytes: Bytes, offset: nat, rs: seq<Record>)
    requires AllFit(rs) && At(bytes, offset, EncodeRecords(rs)) && offset + |EncodeRecords(rs)| == |bytes|
    ensures WalkRecords(bytes, offset) == Ok(rs)
    decreases |rs|
  {
    hide At, EncodeRecord, EncodeRecords, ReadRecord, Fits, AllFit, WalkRecords;
    if rs == [] {
      WalkNothing(bytes);
    } else {
      RestFits(rs);
      WalkNext(bytes, offset, rs);
      ReadRecordAt(bytes, offset, rs[0]);
      WalkEncoded(bytes, offset + |EncodeRecord(rs[0])|, rs[1..]);
      WalkStep(bytes, offset, rs[0], |EncodeRecord(rs[0])|, rs[1..]);
    }
  }
}
