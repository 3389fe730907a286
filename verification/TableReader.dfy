/** The table reader (src/sstable/reader.rs): footer, index and bloom at open, then one-block
    lookups and full scans. */
module TableReader {
  import opened Outcomes
  import opened Bytes
  import opened Records
  import opened Layers
  import opened SparseIndex
  import opened BloomFilter
  import opened TableFormat

  datatype LookupValue = Present(value: Bytes) | Deleted

  /** An open table: the file and what `open` loaded from it. */
  datatype SsTableReader = SsTableReader(file: Bytes, indexOffset: nat, index: seq<IndexEntry>, bloom: Option<Bloom>)

  // ---- Open ----

  /** `file` is the image of data, index and bloom as `t` has them: what `open` must accept. */
  ghost predicate Opens(file: Bytes, t: SsTableReader) {
    && t.file == file && t.indexOffset <= |file| <= U64_MAX && AllEncodable(t.index)
    && (t.bloom.Some? ==> Usable(t.bloom.value) && t.indexOffset + |EncodeEntries(t.index)| > 0)
    && file == Image(file[..t.indexOffset], t.index, t.bloom)
  }

  /** Where the regions of the image of `t` lie, and what reading the footer gives. */
  ghost predicate Footed(file: Bytes, t: SsTableReader) {
    && FOOTER_LEN <= |file|
    && var end := |file| - FOOTER_LEN;
       var indexEnd := t.indexOffset + |EncodeEntries(t.index)|;
    && indexEnd <= end && t.file == file
    && file[end..] == Footer(t.indexOffset, if t.bloom.None? then 0 else indexEnd)
    && file[t.indexOffset..indexEnd] == EncodeEntries(t.index)
    && (t.bloom.None? ==> indexEnd == end)
    && (t.bloom.Some? ==> indexEnd > 0 && Usable(t.bloom.value) && file[indexEnd..end] == BloomBytes(t.bloom.value))
    && AllEncodable(t.index)
  }

  lemma ImageIsFooted(file: Bytes, t: SsTableReader)
    requires Opens(file, t)
    ensures Footed(file, t)
  {
    hide EncodeEntries, BloomBytes, Footer;
    var data, footer := file[..t.indexOffset],
      Footer(t.indexOffset, BloomOffset(file[..t.indexOffset], t.index, t.bloom));
    AtWhole(file);
    AtSplit(file, 0, data, EncodeEntries(t.index) + (BloomBlock(t.bloom) + footer));
    AtSplit(file, |data|, EncodeEntries(t.index), BloomBlock(t.bloom) + footer);
    AtSplit(file, |data| + |EncodeEntries(t.index)|, BloomBlock(t.bloom), footer);
  }

  lemma FourParts(file: Bytes, a: nat, b: nat, c: nat)
    requires a <= b <= c <= |file|
    ensures file == file[..a] + (file[a..b] + (file[b..c] + file[c..]))
  {
    assert file[b..] == file[b..c] + file[c..];
    assert file[a..] == file[a..b] + file[b..];
  }

  lemma FootedParts(file: Bytes, t: SsTableReader)
    requires Footed(file, t)
    ensures var end, indexEnd, data := |file| - FOOTER_LEN, t.indexOffset + |EncodeEntries(t.index)|,
            file[..t.indexOffset];
            && t.indexOffset <= indexEnd <= end && file[t.indexOffset..indexEnd] == EncodeEntries(t.index)
            && file[indexEnd..end] == BloomBlock(t.bloom)
              && file[end..] == Footer(|data|, BloomOffset(data, t.index, t.bloom))
            && t.file == file && AllEncodable(t.index) && (t.bloom.Some? ==> Usable(t.bloom.value) && indexEnd > 0)
  {
    hide EncodeEntries, BloomBytes, Footer, AllEncodable, Usable;
  }

  lemma FootedIsImage(file: Bytes, t: SsTableReader)
    requires Footed(file, t) && |file| <= U64_MAX
    ensures Opens(file, t)
  {
    hide Footed, EncodeEntries, BloomBlock, BloomOffset, Footer, AllEncodable, Usable;
    FootedParts(file, t);
    FourParts(file, t.indexOffset, t.indexOffset + |EncodeEntries(t.index)|, |file| - FOOTER_LEN);
  }

  /** The footer's fields, read back. */
  lemma FooterReads(footer: Bytes, indexOffset: nat, bloomOffset: nat)
    requires indexOffset <= U64_MAX && bloomOffset <= U64_MAX && footer == Footer(indexOffset, bloomOffset)
    ensures ReadU64(footer, 0) == Ok(indexOffset) && ReadU64(footer, 8) == Ok(bloomOffset) && footer[16..] == MAGIC
  {
    AtWhole(footer);
    AtSplit(footer, 0, PutU64(indexOffset), PutU64(bloomOffset) + MAGIC);
    AtSplit(footer, 8, PutU64(bloomOffset), MAGIC);
    ReadU64At(footer, 0, indexOffset);
    ReadU64At(footer, 8, bloomOffset);
  }

  lemma FooterExact(footer: Bytes)
    requires |footer| == FOOTER_LEN && footer[16..] == MAGIC
    ensures footer == Footer(ReadU64(footer, 0).value, ReadU64(footer, 8).value)
  {
    assert footer == footer[0..8] + (footer[8..16] + footer[16..]);
  }

  /** What the steps of `open` see in a file that is an image. */
  ghost predicate Readable(file: Bytes, t: SsTableReader) {
    && FOOTER_LEN <= |file|
    && var footer, end := file[|file| - FOOTER_LEN..], |file| - FOOTER_LEN;
       var bloomOffset := ReadU64(footer, 8).value;
       var indexEnd := if bloomOffset == 0 then end else bloomOffset;
    && t.file == file && footer[FOOTER_LEN - 8..] == MAGIC && t.indexOffset == ReadU64(footer, 0).value
    && t.indexOffset <= indexEnd <= end
    && ParseEntries(file[t.indexOffset..indexEnd], 0) == Ok(t.index)
    && (t.bloom.Some? <==> bloomOffset != 0)
    && (t.bloom.Some? ==> DecodeBloom(file[indexEnd..end]) == Ok(t.bloom.value))
  }

  lemma ImageIsReadable(file: Bytes, t: SsTableReader)
    requires Opens(file, t)
    ensures Readable(file, t)
  {
    hide EncodeEntries, BloomBytes, ParseEntries, DecodeBloom, Image, Footer, ReadU64;
    ImageIsFooted(file, t);
    var indexEnd := t.indexOffset + |EncodeEntries(t.index)|;
    FooterReads(file[|file| - FOOTER_LEN..], t.indexOffset, if t.bloom.None? then 0 else indexEnd);
    AtWhole(EncodeEntries(t.index));
    ParseEncoded(EncodeEntries(t.index), 0, t.index);
    if t.bloom.Some? { DecodeEncodedBloom(t.bloom.value); }
  }

  lemma ReadableIsImage(file: Bytes, t: SsTableReader)
    requires Readable(file, t) && |file| <= U64_MAX
    ensures Opens(file, t)
  {
    hide EncodeEntries, BloomBytes, ParseEntries, DecodeBloom, Image, Footer, ReadU64, Usable, AllEncodable, Opens;
    var footer, end := file[|file| - FOOTER_LEN..], |file| - FOOTER_LEN;
    var bloomOffset := ReadU64(footer, 8).value;
    var indexEnd := if bloomOffset == 0 then end else bloomOffset;
    FooterExact(footer);
    ParseIff(file[t.indexOffset..indexEnd], t.index);
    if t.bloom.Some? { BloomIff(file[indexEnd..end], t.bloom.value); }
    FootedIsImage(file, t);
  }

  /** Where everything stands in a table file, byte by byte: the offsets of index and bloom block in
      the last 24 bytes, before the magic; no bloom block when its offset is 0. */
  ghost predicate TableLaid(file: Bytes, t: SsTableReader) {
    && 24 <= |file| <= U64_MAX && t.file == file
    && var end := |file| - 24;
       var bloomOffset := U64At(file, end + 8);
       var indexEnd := if bloomOffset == 0 then end else bloomOffset;
    && file[end + 16..] == MAGIC && t.indexOffset == U64At(file, end) <= indexEnd <= end
    && AllEncodable(t.index) && file[t.indexOffset..indexEnd] == EncodeEntries(t.index)
    && (t.bloom.Some? <==> bloomOffset != 0)
    && (t.bloom.Some? ==> Usable(t.bloom.value) && file[indexEnd..end] == BloomBytes(t.bloom.value))
  }

  /** The files `open` accepts are exactly those so laid out. */
  lemma OpensIffLaid(file: Bytes, t: SsTableReader)
    ensures Opens(file, t) <==> TableLaid(file, t)
  {
    hide Opens, Readable, TableLaid;
    if Opens(file, t) { ImageIsReadable(file, t); OpensFits(file, t); }
    ReadableIffLaid(file, t);
    if |file| <= U64_MAX && Readable(file, t) { ReadableIsImage(file, t); }
  }

  lemma OpensFits(file: Bytes, t: SsTableReader)
    requires Opens(file, t)
    ensures |file| <= U64_MAX
  {
  }

  lemma ReadableIffLaid(file: Bytes, t: SsTableReader)
    ensures Readable(file, t) && |file| <= U64_MAX <==> TableLaid(file, t)
  {
    hide U64At, ReadU64, EncodeEntries, ParseEntries, BloomBytes, DecodeBloom, AllEncodable;
    if 24 <= |file| {
      var end := |file| - 24;
      var footer := file[end..];
      FooterInFile(file, end);
      var bloomOffset := U64At(file, end + 8);
      var indexEnd := if bloomOffset == 0 then end else bloomOffset;
      if t.indexOffset <= indexEnd <= end {
        ParseIff(file[t.indexOffset..indexEnd], t.index);
        if t.bloom.Some? { BloomIff(file[indexEnd..end], t.bloom.value); }
      }
    }
  }

  lemma FooterInFile(file: Bytes, end: nat)
    requires end + 24 == |file|
    ensures ReadU64(file[end..], 0) == Ok(U64At(file, end)) && ReadU64(file[end..], 8) == Ok(U64At(file, end + 8))
    ensures file[end..][16..] == file[end + 16..]
  {
    ReadU64Is(file[end..], 0);
    ReadU64Is(file[end..], 8);
  }

  lemma BloomIff(bytes: Bytes, b: Bloom)
    ensures DecodeBloom(bytes) == Ok(b) <==> Usable(b) && bytes == BloomBytes(b)
  {
    hide BloomBytes;
    if Usable(b) { DecodeEncodedBloom(b); }
    if DecodeBloom(bytes) == Ok(b) { DecodeBloomExact(bytes); }
  }

  lemma ParseIff(bytes: Bytes, es: seq<IndexEntry>)
    ensures ParseEntries(bytes, 0) == Ok(es) <==> AllEncodable(es) && bytes == EncodeEntries(es)
  {
    hide AllEncodable, EncodeEntries, ParseEntries;
    if ParseEntries(bytes, 0) == Ok(es) { ParseExact(bytes, 0); }
    if AllEncodable(es) && bytes == EncodeEntries(es) {
      AtWhole(bytes);
      ParseEncoded(bytes, 0, es);
    }
  }

  /** Reads and validates a table file step by step. It accepts exactly the images of a data
      section, an index and an optional bloom block, and gives back what the image was made of. */
  method OpenTable(file: Bytes) returns (r: Result<SsTableReader>)
    requires |file| <= U64_MAX
    ensures r.Ok? ==> Opens(file, r.value)
    ensures forall t :: Opens(file, t) ==> r == Ok(t)
    ensures r.Err? ==> r.error == Corruption
  {
    hide Opens, ParseEntries, DecodeBloom, ReadU64;
    forall t | Opens(file, t) ensures Readable(file, t) { ImageIsReadable(file, t); }
    var fileLen := |file|;
    if fileLen < FOOTER_LEN { return Err(Corruption); }
    var footer := file[fileLen - FOOTER_LEN..];
    if footer[FOOTER_LEN - 8..] != MAGIC { return Err(Corruption); }
    var indexOffset := ReadU64(footer, 0).value;
    var bloomOffset := ReadU64(footer, 8).value;
    var bloomEnd := fileLen - FOOTER_LEN;
    if bloomOffset != 0 && bloomOffset > bloomEnd { return Err(Corruption); }
    var endOfIndex := if bloomOffset == 0 then bloomEnd else bloomOffset;
    if indexOffset > endOfIndex || endOfIndex > fileLen { return Err(Corruption); }
    var index := ParseIndex(file[indexOffset..endOfIndex]);
    if index.Err? {
      ParseErrors(file[indexOffset..endOfIndex], 0);
      return Err(index.error);
    }
    var bloom: Option<Bloom> := None;
    if bloomOffset != 0 {
      var decoded := DecodeBloom(file[bloomOffset..bloomEnd]);
      if decoded.Err? {
        DecodeErrors(file[bloomOffset..bloomEnd]);
        return Err(decoded.error);
      }
      bloom := Some(decoded.value);
    }
    r := Ok(SsTableReader(file, indexOffset, index.value, bloom));
    ReadableIsImage(file, r.value);
  }

  lemma {:induction false} ParseErrors(bytes: Bytes, offset: nat)
    requires offset <= |bytes|
    ensures ParseEntries(bytes, offset).Err? ==> ParseEntries(bytes, offset).error == Corruption
    decreases |bytes| - offset
  {
    if offset < |bytes| && ReadEntry(bytes, offset).Ok? {
      ParseErrors(bytes, offset + ReadEntry(bytes, offset).value.len);
    }
  }

  lemma DecodeErrors(bytes: Bytes)
    ensures DecodeBloom(bytes).Err? ==> DecodeBloom(bytes).error == Corruption
  {
  }

  // ---- Lookup ----

  predicate BloomRejects(hash: Hash, bloom: Option<Bloom>, key: Bytes) {
    bloom.Some? && bloom.value.words != [] && !Contains(hash, bloom.value, key)
  }

  /** Scanning a block for `key`: the first equal key decides, a greater key ends the scan. */
  function ScanBlock(block: Bytes, offset: nat, key: Bytes): Result<Option<LookupValue>>
    requires offset <= |block|
    decreases |block| - offset
  {
    if offset == |block| then Ok(None)
    else
      var d :- ReadRecord(block, offset);
      if d.record.key == key then Ok(Some(if d.record.deleted then Deleted else Present(d.record.value)))
      else if Less(key, d.record.key) then Ok(None)
      else ScanBlock(block, offset + d.consumed, key)
  }

  /** What `get` finds through bloom, index and block. */
  function TableGet(hash: Hash, t: SsTableReader, key: Bytes): Result<Option<LookupValue>> {
    if BloomRejects(hash, t.bloom, key) then Ok(None)
    else
      match LocateBlock(t.index, key)
      case None => Ok(None)
      case Some(b) =>
        var entry := t.index[b];
        if entry.offset + entry.size > U64_MAX || entry.offset + entry.size > |t.file| then Err(Corruption)
        else ScanBlock(t.file[entry.offset..entry.offset + entry.size], 0, key)
  }

  /** A lookup in a block on any bytes: the first record not below the key decides, whatever comes
      behind it; only if there is none, bytes behind the last whole record are corruption. */
  lemma {:induction false} ScanDecides(block: Bytes, offset: nat, rs: seq<Record>, end: nat, key: Bytes, i: nat)
    requires offset <= |block| && Tiles(block, offset, rs, end) && NoRecord(block, end)
    requires i <= |rs| && (forall j :: 0 <= j < i ==> Less(rs[j].key, key)) && (i < |rs| ==> !Less(rs[i].key, key))
    ensures ScanBlock(block, offset, key) ==
            if i == |rs| then if end == |block| then Ok(None) else Err(Corruption)
            else if rs[i].key != key then Ok(None)
            else Ok(Some(if rs[i].deleted then Deleted else Present(rs[i].value)))
    decreases |rs|
  {
    hide ReadRecord, RecordLaid, NoRecord, Less;
    if rs == [] {
      NoRecordRead(block, offset);
    } else {
      ReadRecordIff(block, offset, rs[0]);
      LessTotal(rs[0].key, key);
      LessIrreflexive(key);
      if i > 0 {
        LessAsymmetric(rs[0].key, key);
        ScanDecides(block, offset + 7 + |rs[0].key| + |rs[0].value|, rs[1..], end, key, i - 1);
      }
    }
  }

  /** The block breaks off behind records that are all below the key. */
  ghost predicate Damaged(block: Bytes, key: Bytes) {
    exists rs: seq<Record>, end: nat :: Tiles(block, 0, rs, end) && NoRecord(block, end) && end != |block|
                      && forall j :: 0 <= j < |rs| ==> Less(rs[j].key, key)
  }

  lemma FirstNotBelow(rs: seq<Record>, key: Bytes) returns (i: nat)
    ensures i <= |rs| && (forall j :: 0 <= j < i ==> Less(rs[j].key, key)) && (i < |rs| ==> !Less(rs[i].key, key))
  {
    hide Less;
    i := 0;
    while i < |rs| && Less(rs[i].key, key)
      invariant i <= |rs| && forall j :: 0 <= j < i ==> Less(rs[j].key, key)
    {
      i := i + 1;
    }
  }

  lemma ScanFailsIff(block: Bytes, key: Bytes)
    ensures ScanBlock(block, 0, key).Err? <==> Damaged(block, key)
    ensures ScanBlock(block, 0, key).Err? ==> ScanBlock(block, 0, key).error == Corruption
  {
    hide ScanBlock, Tiles, NoRecord, Less;
    var rs, end := SomeRecords(block, 0);
    var i := FirstNotBelow(rs, key);
    ScanDecides(block, 0, rs, end, key, i);
    if Damaged(block, key) {
      var rs': seq<Record>, end': nat :| Tiles(block, 0, rs', end') && NoRecord(block, end') && end' != |block|
                       && forall j :: 0 <= j < |rs'| ==> Less(rs'[j].key, key);
      ScanDecides(block, 0, rs', end', key, |rs'|);
    }
  }

  /** A lookup in any accepted file fails exactly when the block it is sent to lies beyond the file
      or breaks off before the key; every failure is corruption. */
  lemma GetFailsIff(hash: Hash, t: SsTableReader, key: Bytes)
    requires |t.file| <= U64_MAX
    ensures TableGet(hash, t, key).Err? <==>
              && !BloomRejects(hash, t.bloom, key) && LocateBlock(t.index, key).Some?
              && var e := t.index[LocateBlock(t.index, key).value];
                 e.offset + e.size > |t.file| || Damaged(t.file[e.offset..e.offset + e.size], key)
    ensures TableGet(hash, t, key).Err? ==> TableGet(hash, t, key).error == Corruption
  {
    hide BloomRejects, LocateBlock, Damaged, ScanBlock;
    if LocateBlock(t.index, key).Some? {
      var e := t.index[LocateBlock(t.index, key).value];
      if e.offset + e.size <= |t.file| { ScanFailsIff(t.file[e.offset..e.offset + e.size], key); }
    }
  }

  /** One bit of the key that is not set in the bloom block ends the lookup before anything is read. */
  lemma UnsetBitEndsLookup(hash: Hash, t: SsTableReader, key: Bytes, i: nat)
    requires t.bloom.Some? && t.bloom.value.words != []
    requires i < |Positions(hash, t.bloom.value, key)| && !Bit(t.bloom.value, Positions(hash, t.bloom.value, key)[i])
    ensures TableGet(hash, t, key) == Ok(None)
  {
    hide Bit, LocateBlock, ScanBlock, Positions;
  }

  method Get(hash: Hash, t: SsTableReader, key: Bytes) returns (r: Result<Option<LookupValue>>)
    ensures r == TableGet(hash, t, key)
  {
    hide Less, ReadRecord, BloomRejects;
    if BloomRejects(hash, t.bloom, key) { return Ok(None); }
    var located := LocateBlock(t.index, key);
    if located.None? { return Ok(None); }
    var entry := t.index[located.value];
    var blockEnd := entry.offset + entry.size;
    if blockEnd > U64_MAX { return Err(Corruption); }
    if blockEnd > |t.file| { return Err(Corruption); }
    var block := t.file[entry.offset..blockEnd];
    var offset := 0;
    while offset < |block|
      invariant offset <= |block|
      invariant ScanBlock(block, 0, key) == ScanBlock(block, offset, key)
    {
      var d := ReadRecord(block, offset);
      if d.Err? { return Err(d.error); }
      var rec := d.value.record;
      if rec.key == key { return Ok(Some(if rec.deleted then Deleted else Present(rec.value))); }
      if Less(key, rec.key) { return Ok(None); }
      offset := offset + d.value.consumed;
    }
    r := Ok(None);
  }

  /** Every record of the table, in file order. */
  method AllRecords(t: SsTableReader) returns (r: Result<seq<Record>>)
    requires t.indexOffset <= |t.file|
    ensures r == WalkRecords(t.file[..t.indexOffset], 0)
  {
    hide ReadRecord, Prefixed;
    var data := t.file[..t.indexOffset];
    var out: seq<Record> := [];
    var offset := 0;
    PrefixedNone(out, WalkRecords(data, 0));
    while offset < |data|
      invariant offset <= |data|
      invariant WalkRecords(data, 0) == Prefixed(out, WalkRecords(data, offset))
    {
      var d := ReadRecord(data, offset);
      if d.Err? {
        StoppedWalk(out, data, offset);
        return Err(d.error);
      }
      PrefixedStep(out, d.value.record, WalkRecords(data, offset + d.value.consumed));
      out := out + [d.value.record];
      offset := offset + d.value.consumed;
    }
    PrefixedNone(out, WalkRecords(data, 0));
    r := Ok(out);
  }

  lemma StoppedWalk(out: seq<Record>, data: Bytes, offset: nat)
    requires offset < |data| && ReadRecord(data, offset).Err?
    ensures Prefixed(out, WalkRecords(data, offset)) == Err(ReadRecord(data, offset).error)
  {
  }

  // ---- The built table, opened ----

  /** The reader that opening a built table gives. */
  ghost predicate OpenedTable(t: SsTableReader, blocks: seq<seq<Record>>, bloom: Option<Bloom>, rs: seq<Record>,
                              hash: Hash) {
    && IsTable(t.file, blocks, bloom, rs, hash)
    && t == SsTableReader(t.file, |EncodeBlocks(blocks)|, IndexOf(blocks), bloom)
  }

  lemma {:induction false} IndexEncodable(blocks: seq<seq<Record>>)
    requires NoEmptyBlock(blocks) && AllFit(Flatten(blocks)) && |EncodeBlocks(blocks)| <= U64_MAX
    ensures AllEncodable(IndexOf(blocks))
  {
    if blocks != [] {
      var n := |blocks| - 1;
      assert Flatten(blocks)[|Flatten(blocks[..n])|] == blocks[n][0];
      assert AllFit(Flatten(blocks[..n])) by {
        assert forall i :: 0 <= i < |Flatten(blocks[..n])| ==> Flatten(blocks)[i] == Flatten(blocks[..n])[i];
      }
      IndexEncodable(blocks[..n]);
    }
  }

  /** Opening what the builder wrote gives the builder's index and bloom. */
  lemma BuiltTableOpens(file: Bytes, blocks: seq<seq<Record>>, bloom: Option<Bloom>, rs: seq<Record>, hash: Hash)
    requires IsTable(file, blocks, bloom, rs, hash)
    ensures Opens(file, SsTableReader(file, |EncodeBlocks(blocks)|, IndexOf(blocks), bloom))
  {
    hide Ascending, Footer, BloomBytes;
    var data, index := EncodeBlocks(blocks), IndexOf(blocks);
    IndexEncodable(blocks);
    assert file[..|data|] == data;
    if bloom.Some? {
      assert index != [];
      assert EncodeEntries(index) != [];
    }
  }

  /** Table round trip: scanning a built table gives back exactly the records added. */
  lemma ScanGivesAdded(t: SsTableReader, blocks: seq<seq<Record>>, bloom: Option<Bloom>, rs: seq<Record>, hash: Hash)
    requires OpenedTable(t, blocks, bloom, rs, hash)
    ensures t.indexOffset <= |t.file| && WalkRecords(t.file[..t.indexOffset], 0) == Ok(rs)
  {
    hide Ascending, BloomCovers, EncodeEntries, WalkRecords, EncodeRecords, Footer, BloomBlock;
    var data := EncodeBlocks(blocks);
    BlocksAreRecords(blocks);
    assert t.file[..t.indexOffset] == data;
    AtWhole(data);
    WalkEncoded(data, 0, rs);
  }

  // ---- Indexed lookup equals linear search ----

  function AsLookup(e: Option<Entry>): Option<LookupValue> {
    match e
    case None => None
    case Some(found) => Some(if found.deleted then Deleted else Present(found.value))
  }

  /** Searching the list of records the table was built from. */
  function LinearSearch(rs: seq<Record>, key: Bytes): Option<LookupValue> {
    AsLookup(Search(rs, key))
  }

  lemma {:induction false} SearchMisses(rs: seq<Record>, key: Bytes)
    requires forall i :: 0 <= i < |rs| ==> rs[i].key != key
    ensures LinearSearch(rs, key) == None
  {
    if rs != [] { SearchMisses(rs[1..], key); }
  }

  lemma {:induction false} SearchAppend(a: seq<Record>, b: seq<Record>, key: Bytes)
    ensures LinearSearch(a + b, key) == if LinearSearch(a, key).Some? then LinearSearch(a, key)
            else LinearSearch(b, key)
  {
    if a == [] {
      assert a + b == b;
    } else {
      SearchAppend(a[1..], b, key);
      assert (a + b)[1..] == a[1..] + b;
    }
  }

  lemma ScanNext(block: Bytes, offset: nat, rec: Record, len: nat, key: Bytes)
    requires offset < offset + len <= |block| && ReadRecord(block, offset) == Ok(Decoded(rec, len))
    ensures ScanBlock(block, offset, key) ==
            if rec.key == key then Ok(Some(if rec.deleted then Deleted else Present(rec.value)))
            else if Less(key, rec.key) then Ok(None)
            else ScanBlock(block, offset + len, key)
  {
    hide Less, ReadRecord;
  }

  lemma ScanNothing(block: Bytes, key: Bytes)
    ensures EncodeRecords([]) == [] && ScanBlock(block, |block|, key) == Ok(None) && LinearSearch([], key) == None
  {
  }

  lemma SearchNext(rs: seq<Record>, key: Bytes)
    requires rs != []
    ensures LinearSearch(rs, key) ==
            if rs[0].key == key then Some(if rs[0].deleted then Deleted else Present(rs[0].value))
              else LinearSearch(rs[1..], key)
  {
  }

  lemma RestSorted(rs: seq<Record>)
    requires rs != [] && AllFit(rs) && Ascending(rs)
    ensures Fits(rs[0]) && AllFit(rs[1..]) && Ascending(rs[1..])
  {
    hide Less, Fits;
  }

  /** The early exit loses nothing: past a greater key the sorted block cannot hold the key. */
  lemma {:induction false} ScanIsSearch(block: Bytes, offset: nat, rs: seq<Record>, key: Bytes)
    requires AllFit(rs) && Ascending(rs) && At(block, offset, EncodeRecords(rs))
             && offset + |EncodeRecords(rs)| == |block|
    ensures ScanBlock(block, offset, key) == Ok(LinearSearch(rs, key))
    decreases |rs|
  {
    hide Less, AllFit, Ascending, Fits, EncodeRecord, ReadRecord, At, EncodeRecords, ScanBlock, LinearSearch;
    if rs == [] {
      ScanNothing(block, key);
    } else {
      RestSorted(rs);
      WalkNext(block, offset, rs);
      ReadRecordAt(block, offset, rs[0]);
      ScanNext(block, offset, rs[0], |EncodeRecord(rs[0])|, key);
      SearchNext(rs, key);
      if rs[0].key != key {
        if Less(key, rs[0].key) {
          PastKey(rs, key);
        } else {
          ScanIsSearch(block, offset + |EncodeRecord(rs[0])|, rs[1..], key);
        }
      }
    }
  }

  lemma PastKey(rs: seq<Record>, key: Bytes)
    requires rs != [] && Ascending(rs) && Less(key, rs[0].key)
    ensures LinearSearch(rs, key) == None
  {
    hide Less;
    forall i | 0 <= i < |rs| ensures rs[i].key != key {
      LessIrreflexive(key);
      if i > 0 { LessTransitive(key, rs[0].key, rs[i].key); }
    }
    SearchMisses(rs, key);
  }

  /** Only the located block can hold the key. */
  lemma OtherBlocksMiss(blocks: seq<seq<Record>>, rs: seq<Record>, key: Bytes, b: nat)
    requires NoEmptyBlock(blocks) && Flatten(blocks) == rs && Ascending(rs) && b < |blocks|
    requires AtMost(blocks[b][0].key, key)
    requires b + 1 < |blocks| ==> Less(key, blocks[b + 1][0].key)
    ensures LinearSearch(rs, key) == LinearSearch(blocks[b], key) && Ascending(blocks[b])
  {
    hide Less;
    var before, after := Flatten(blocks[..b]), Flatten(blocks[b + 1..]);
    FlattenSplit(blocks, b);
    assert forall i :: 0 <= i < |blocks[b]| ==> rs[|before| + i] == blocks[b][i];
    forall i | 0 <= i < |before| ensures before[i].key != key {
      assert rs[i] == before[i] && Less(rs[i].key, rs[|before|].key);
      if before[i].key == key { LessAsymmetric(rs[i].key, rs[|before|].key); LessIrreflexive(key); }
    }
    SearchMisses(before, key);
    if b + 1 < |blocks| {
      LaterBlocks(blocks, rs, key, b);
      PastKey(after, key);
    } else {
      assert after == [];
    }
    SearchAppend(before + blocks[b], after, key);
    SearchAppend(before, blocks[b], key);
  }

  lemma SuffixSorted(before: seq<Record>, after: seq<Record>)
    requires Ascending(before + after)
    ensures Ascending(after)
  {
    hide Less;
    var rs := before + after;
    assert forall i :: 0 <= i < |after| ==> rs[|before| + i] == after[i];
  }

  lemma StartsWithFirst(blocks: seq<seq<Record>>)
    requires blocks != [] && blocks[0] != []
    ensures Flatten(blocks) != [] && Flatten(blocks)[0] == blocks[0][0]
  {
    FlattenSplit(blocks, 0);
    assert blocks[..0] == [];
  }

  lemma LaterBlocks(blocks: seq<seq<Record>>, rs: seq<Record>, key: Bytes, b: nat)
    requires NoEmptyBlock(blocks) && Flatten(blocks) == rs && Ascending(rs) && b + 1 < |blocks|
    ensures var after := Flatten(blocks[b + 1..]);
            Ascending(after) && after != [] && after[0] == blocks[b + 1][0]
  {
    assert blocks[b + 1] != [];
    hide Flatten, NoEmptyBlock, Ascending;
    FlattenSplit(blocks, b);
    SuffixSorted(Flatten(blocks[..b]) + blocks[b], Flatten(blocks[b + 1..]));
    StartsWithFirst(blocks[b + 1..]);
  }

  lemma FirstKeysAscending(blocks: seq<seq<Record>>, rs: seq<Record>)
    requires NoEmptyBlock(blocks) && Flatten(blocks) == rs && Ascending(rs)
    ensures FirstKeysAscend(IndexOf(blocks))
  {
    hide Less;
    forall i, j | 0 <= i < j < |blocks| ensures Less(IndexOf(blocks)[i].firstKey, IndexOf(blocks)[j].firstKey) {
      IndexTiles(blocks, i);
      IndexTiles(blocks, j);
      FlattenSplit(blocks, i);
      FlattenSplit(blocks, j);
      StartsAscend(blocks, i, j);
      assert rs[|Flatten(blocks[..i])|] == blocks[i][0] && rs[|Flatten(blocks[..j])|] == blocks[j][0];
    }
  }

  lemma {:induction false} StartsAscend(blocks: seq<seq<Record>>, i: nat, j: nat)
    requires NoEmptyBlock(blocks) && i < j < |blocks|
    ensures |Flatten(blocks[..i])| < |Flatten(blocks[..j])|
    decreases j
  {
    assert blocks[..j][..j - 1] == blocks[..j - 1] && blocks[..j][j - 1] == blocks[j - 1];
    if i < j - 1 { StartsAscend(blocks, i, j - 1); }
  }

  /** Indexed lookup equals linear search: with or without a bloom block, across block
      boundaries, `get` on a built table answers as searching the list of added records would. */
  lemma IndexedGetIsLinearSearch(t: SsTableReader, blocks: seq<seq<Record>>, bloom: Option<Bloom>, rs: seq<Record>,
                                 hash: Hash, key: Bytes)
    requires OpenedTable(t, blocks, bloom, rs, hash)
    ensures TableGet(hash, t, key) == Ok(LinearSearch(rs, key))
  {
    hide Less, ScanBlock, EncodeEntries, EncodeRecords, EncodeBlocks, Flatten;
    hide LinearSearch, Footer, BloomBlock, IndexOf, AllFit, Contains;
    if BloomRejects(hash, t.bloom, key) {
      assert forall i :: 0 <= i < |rs| ==> rs[i].key != key;
      SearchMisses(rs, key);
    } else {
      FirstKeysAscending(blocks, rs);
      LocateBlockCorrect(t.index, key);
      match LocateBlock(t.index, key)
      case None => NoBlockMisses(blocks, rs, key);
      case Some(b) => BlockDecides(t, blocks, bloom, rs, hash, key, b);
    }
  }

  lemma NoBlockMisses(blocks: seq<seq<Record>>, rs: seq<Record>, key: Bytes)
    requires NoEmptyBlock(blocks) && Flatten(blocks) == rs && Ascending(rs)
    requires forall i :: 0 <= i < |blocks| ==> Less(key, IndexOf(blocks)[i].firstKey)
    ensures LinearSearch(rs, key) == None
  {
    hide Less;
    if blocks != [] {
      IndexTiles(blocks, 0);
      FlattenSplit(blocks, 0);
      assert blocks[..0] == [];
      assert rs[0] == blocks[0][0];
      PastKey(rs, key);
    }
  }

  lemma BlockDecides(t: SsTableReader, blocks: seq<seq<Record>>, bloom: Option<Bloom>, rs: seq<Record>, hash: Hash,
                     key: Bytes, b: nat)
    requires OpenedTable(t, blocks, bloom, rs, hash) && b < |blocks|
    requires AtMost(t.index[b].firstKey, key) && forall i :: b < i < |blocks| ==> Less(key, t.index[i].firstKey)
    ensures var e := t.index[b];
            e.offset + e.size <= |t.file| && ScanBlock(t.file[e.offset..e.offset + e.size], 0, key) ==
                Ok(LinearSearch(rs, key))
  {
    hide Less, ScanBlock, EncodeEntries, EncodeRecords, Flatten, LinearSearch, Footer, BloomBlock, Ascending, Contains;
    var data, block := EncodeBlocks(blocks), EncodeRecords(blocks[b]);
    IndexTiles(blocks, b);
    if b + 1 < |blocks| { IndexTiles(blocks, b + 1); }
    OtherBlocksMiss(blocks, rs, key, b);
    EncodeBlocksSplit(blocks, b);
    assert t.file[..|data|] == data;
    AtPrefix(t.file, |data|, t.index[b].offset, block);
    AtWhole(block);
    BlockFits(blocks, b);
    ScanIsSearch(block, 0, blocks[b], key);
  }

  lemma BlockFits(blocks: seq<seq<Record>>, b: nat)
    requires AllFit(Flatten(blocks)) && b < |blocks|
    ensures AllFit(blocks[b])
  {
    hide Flatten, Fits;
    FlattenSplit(blocks, b);
    assert forall i :: 0 <= i < |blocks[b]| ==> Flatten(blocks)[|Flatten(blocks[..b])| + i] == blocks[b][i];
  }
}
