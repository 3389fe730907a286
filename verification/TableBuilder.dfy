/** The table builder (src/sstable/builder.rs). */
module TableBuilder {
  import opened Outcomes
  import opened Bytes
  import opened Records
  import opened Layers
  import opened SparseIndex
  import opened BloomFilter
  import opened TableFormat

  function LastKey(rs: seq<Record>): Option<Bytes> {
    if rs == [] then None else Some(rs[|rs| - 1].key)
  }

  function FirstKey(rs: seq<Record>): Option<Bytes> {
    if rs == [] then None else Some(rs[0].key)
  }

  /** The checks of `add`: caps first, then strict order; nothing is changed before they pass. */
  function Admit(added: seq<Record>, rec: Record): Result<()> {
    if |rec.key| > MAX_KEY_LEN then Err(KeyTooLarge(|rec.key|, MAX_KEY_LEN))
    else if |rec.value| > MAX_VALUE_LEN then Err(ValueTooLarge(|rec.value|, MAX_VALUE_LEN))
    else if added != [] && !Less(added[|added| - 1].key, rec.key) then Err(InvalidOp)
    else Ok(())
  }

  // ---- The builder's fields, against what was added ----

  /** Closed blocks `blocks` and the block `open` being filled. */
  ghost predicate BlocksOk(data: Bytes, current: Bytes, currentFirstKey: Option<Bytes>, index: seq<IndexEntry>,
                           blocks: seq<seq<Record>>, open: seq<Record>) {
    && GoodBlocks(blocks) && NoEmptyBlock(blocks) && (open == [] || GoodBlock(open))
    && data == EncodeBlocks(blocks) && index == IndexOf(blocks)
    && current == EncodeRecords(open) && currentFirstKey == FirstKey(open)
  }

  ghost predicate KeysOk(firstKey: Option<Bytes>, lastKey: Option<Bytes>, added: seq<Record>) {
    && Ascending(added) && AllFit(added)
    && firstKey == FirstKey(added) && lastKey == LastKey(added)
  }

  ghost predicate BloomOk(hash: Hash, bloom: Option<Bloom>, expectedItems: nat, empty: Bloom, added: seq<Record>) {
    Usable(empty) && bloom == BloomOf(hash, empty, expectedItems, added)
  }

  /** The open block's bytes, and when there are none. */
  lemma CurrentIsOpen(data: Bytes, current: Bytes, currentFirstKey: Option<Bytes>, index: seq<IndexEntry>,
                      blocks: seq<seq<Record>>, open: seq<Record>)
    requires BlocksOk(data, current, currentFirstKey, index, blocks, open)
    ensures (current == [] <==> open == []) && |current| == |EncodeRecords(open)|
  {
  }

  lemma GrowBlock(data: Bytes, current: Bytes, currentFirstKey: Option<Bytes>, index: seq<IndexEntry>,
                  blocks: seq<seq<Record>>, open: seq<Record>, rec: Record)
    requires BlocksOk(data, current, currentFirstKey, index, blocks, open)
    requires current != [] ==> |current| + RecordLen(|rec.key|, |rec.value|) <= TARGET_BLOCK_SIZE
    ensures BlocksOk(data, current + EncodeRecord(rec), if current == [] then Some(rec.key) else currentFirstKey,
                     index, blocks, open + [rec])
  {
    EncodeRecordsSnoc(open, rec);
  }

  lemma GrowKeys(firstKey: Option<Bytes>, lastKey: Option<Bytes>, added: seq<Record>, rec: Record)
    requires KeysOk(firstKey, lastKey, added) && Admit(added, rec).Ok?
    ensures KeysOk(if lastKey.None? then Some(rec.key) else firstKey, Some(rec.key), added + [rec])
  {
    AscendingSnoc(added, rec);
  }

  lemma AdmitByLastKey(firstKey: Option<Bytes>, lastKey: Option<Bytes>, added: seq<Record>, rec: Record)
    requires KeysOk(firstKey, lastKey, added)
    ensures Admit(added, rec) ==
            if |rec.key| > MAX_KEY_LEN then Err(KeyTooLarge(|rec.key|, MAX_KEY_LEN))
            else if |rec.value| > MAX_VALUE_LEN then Err(ValueTooLarge(|rec.value|, MAX_VALUE_LEN))
            else if lastKey.Some? && !Less(lastKey.value, rec.key) then Err(InvalidOp)
            else Ok(())
  {
  }

  lemma GrowBloom(hash: Hash, bloom: Option<Bloom>, expectedItems: nat, empty: Bloom, added: seq<Record>, rec: Record)
    requires BloomOk(hash, bloom, expectedItems, empty, added)
    ensures var b := if bloom.Some? then bloom.value else empty;
            Usable(b) && BloomOk(hash, if expectedItems > 0 then Some(Insert(hash, b, rec.key)) else bloom,
                           expectedItems, empty, added + [rec])
  {
    hide Insert, Usable, InsertAll;
    assert KeysOf(added + [rec]) == KeysOf(added) + [rec.key];
    InsertAllSnoc(hash, empty, KeysOf(added), rec.key);
  }

  /** Closed blocks and the open one: none was closed before the next record would have gone over. */
  ghost predicate Packed(blocks: seq<seq<Record>>, open: seq<Record>) {
    if open == [] then blocks == [] else Tight(blocks + [open])
  }

  lemma StaysPacked(blocks: seq<seq<Record>>, open: seq<Record>, rec: Record)
    requires Packed(blocks, open)
    ensures if open != [] && |EncodeRecords(open)| + RecordLen(|rec.key|, |rec.value|) > TARGET_BLOCK_SIZE
            then Packed(blocks + [open], [rec]) else Packed(blocks, open + [rec])
  {
    hide EncodeRecords;
    if open != [] && |EncodeRecords(open)| + RecordLen(|rec.key|, |rec.value|) > TARGET_BLOCK_SIZE {
      var before, after := blocks + [open], blocks + [open] + [[rec]];
      forall a, b | 0 <= a && b == a + 1 && b < |after| ensures GoesOver(after[a], after[b]) {
        if b < |before| { assert GoesOver(before[a], before[b]); }
      }
    } else if open != [] {
      var before, after := blocks + [open], blocks + [open + [rec]];
      forall a, b | 0 <= a && b == a + 1 && b < |after| ensures GoesOver(after[a], after[b]) {
        assert GoesOver(before[a], before[b]);
      }
    }
  }

  lemma PackedIsTight(blocks: seq<seq<Record>>, open: seq<Record>)
    requires Packed(blocks, open)
    ensures Tight(if open == [] then blocks else blocks + [open])
  {
  }

  lemma CloseBlock(data: Bytes, current: Bytes, currentFirstKey: Option<Bytes>, index: seq<IndexEntry>,
                   blocks: seq<seq<Record>>, open: seq<Record>)
    requires BlocksOk(data, current, currentFirstKey, index, blocks, open)
    ensures currentFirstKey.Some? <==> open != []
    ensures currentFirstKey.Some? ==>
              BlocksOk(data + current, [], None, index + [IndexEntry(currentFirstKey.value, |data|, |current|)],
                  blocks + [open], [])
    ensures Flatten(blocks + [open]) + [] == Flatten(blocks) + open
  {
    FlattenSnoc(blocks, open);
    if open != [] { IndexSnoc(blocks, open); }
  }

  lemma BloomBytesNotEmpty(b: Bloom)
    ensures BloomBytes(b) != [] && [] + BloomBytes(b) == BloomBytes(b)
  {
  }

  lemma {:induction false} IndexKeysFit(blocks: seq<seq<Record>>)
    requires NoEmptyBlock(blocks) && AllFit(Flatten(blocks))
    ensures forall i :: 0 <= i < |blocks| ==> |IndexOf(blocks)[i].firstKey| <= MAX_KEY_LEN
  {
    if blocks != [] {
      var n := |blocks| - 1;
      assert Flatten(blocks)[|Flatten(blocks[..n])|] == blocks[n][0];
      assert AllFit(Flatten(blocks[..n])) by {
        assert forall i :: 0 <= i < |Flatten(blocks[..n])| ==> Flatten(blocks)[i] == Flatten(blocks[..n])[i];
      }
      IndexKeysFit(blocks[..n]);
    }
  }

  lemma AdmittedFits(added: seq<Record>, rec: Record)
    requires Admit(added, rec).Ok?
    ensures |rec.key| <= 65535 && |rec.value| <= 0xFFFF_FFFF
  {
  }

  lemma NothingOpen(added: seq<Record>)
    ensures added + [] == added && [] + added == added
  {
  }

  lemma NothingBefore(bytes: Bytes)
    ensures [] + bytes == bytes
  {
  }

  lemma FooterParts(indexOffset: nat, bloomOffset: nat)
    ensures PutU64(indexOffset) + PutU64(bloomOffset) + MAGIC == Footer(indexOffset, bloomOffset)
  {
    hide PutU64;
  }

  lemma FileParts(data: Bytes, index: Bytes, bloom: Bytes, footer: Bytes)
    ensures data + index + bloom + footer == data + (index + (bloom + footer))
  {
  }

  class SsTableBuilder {
    var data: Bytes
    var current: Bytes
    var currentFirstKey: Option<Bytes>
    var index: seq<IndexEntry>
    var firstKey: Option<Bytes>
    var lastKey: Option<Bytes>
    var bloom: Option<Bloom>
    const expectedItems: nat
    const emptyBloom: Bloom
    const hash: Hash
    ghost var blocks: seq<seq<Record>>
    ghost var open: seq<Record>

    /** All records accepted so far, in order. */
    ghost function Added(): seq<Record>
      reads this
    {
      Flatten(blocks) + open
    }

    ghost predicate Valid()
      reads this
    {
      && BlocksOk(data, current, currentFirstKey, index, blocks, open)
      && KeysOk(firstKey, lastKey, Added())
      && BloomOk(hash, bloom, expectedItems, emptyBloom, Added())
    }

    /** No block was closed before the next record would have gone over its size. */
    ghost predicate Greedy()
      reads this
    {
      Packed(blocks, open)
    }

    /** `emptyBloom` stands for what the bloom library sizes for `expectedItems` keys. */
    constructor (expectedItems: nat, emptyBloom: Bloom, hash: Hash)
      requires Usable(emptyBloom)
      ensures Valid() && Greedy() && Added() == []
      ensures this.hash == hash && this.expectedItems == expectedItems && this.emptyBloom == emptyBloom
    {
      data, current, currentFirstKey, index := [], [], None, [];
      firstKey, lastKey, bloom := None, None, None;
      this.expectedItems, this.emptyBloom, this.hash := expectedItems, emptyBloom, hash;
      blocks, open := [], [];
    }

    /** Adds one record, or rejects it and changes nothing. */
    method Add(key: Bytes, value: Bytes, deleted: bool) returns (r: Result<()>)
      requires Valid()
      modifies this
      ensures Valid()
      ensures r == Admit(old(Added()), Record(key, value, deleted))
      ensures r.Ok? ==> Added() == old(Added()) + [Record(key, value, deleted)]
      ensures r.Err? ==> unchanged(this)
      ensures old(Greedy()) ==> Greedy()
    {
      hide BlocksOk, KeysOk, BloomOk, Admit, Flatten, Insert, Less, EncodeRecord, Usable, Added, Packed;
      ghost var rec, added := Record(key, value, deleted), Added();
      AdmitByLastKey(firstKey, lastKey, added, rec);
      if |key| > MAX_KEY_LEN { return Err(KeyTooLarge(|key|, MAX_KEY_LEN)); }
      if |value| > MAX_VALUE_LEN { return Err(ValueTooLarge(|value|, MAX_VALUE_LEN)); }
      if lastKey.Some? && !Less(lastKey.value, key) { return Err(InvalidOp); }
      CurrentIsOpen(data, current, currentFirstKey, index, blocks, open);
      if Packed(blocks, open) { StaysPacked(blocks, open, rec); }
      if current != [] && |current| + RecordLen(|key|, |value|) > TARGET_BLOCK_SIZE {
        FinalizeBlock();
        NothingOpen([rec]);
      }
      Append(key, value, deleted);
      r := Ok(());
    }

    /** The rest of `add`, for a record that is admitted and has its place in the open block. */
    method Append(key: Bytes, value: Bytes, deleted: bool)
      requires Valid() && Admit(Added(), Record(key, value, deleted)).Ok?
      requires current != [] ==> |current| + RecordLen(|key|, |value|) <= TARGET_BLOCK_SIZE
      modifies `current, `currentFirstKey, `firstKey, `lastKey, `bloom, `open
      ensures Valid() && Added() == old(Added()) + [Record(key, value, deleted)]
      ensures open == old(open) + [Record(key, value, deleted)]
    {
      hide BlocksOk, KeysOk, BloomOk, Admit, Flatten, Insert, Less, EncodeRecord, Usable, Added, Packed;
      hide U16At, U32At;
      ghost var rec, added := Record(key, value, deleted), Added();
      CurrentIsOpen(data, current, currentFirstKey, index, blocks, open);
      GrowBlock(data, current, currentFirstKey, index, blocks, open, rec);
      GrowKeys(firstKey, lastKey, added, rec);
      GrowBloom(hash, bloom, expectedItems, emptyBloom, added, rec);
      AddedSnoc(rec);
      AdmittedFits(added, rec);
      if current == [] {
        currentFirstKey := Some(key);
      }
      if expectedItems > 0 {
        var b := if bloom.Some? then bloom.value else emptyBloom;
        bloom := Some(Insert(hash, b, key));
      }
      var put, out := PutRecord(current, key, value, deleted);
      current := out;
      if lastKey.None? {
        firstKey := Some(key);
      }
      lastKey := Some(key);
      open := open + [rec];
      AddedAre();
    }

    lemma AddedAre()
      ensures Added() == Flatten(blocks) + open
    {
    }

    lemma AddedSnoc(rec: Record)
      ensures Flatten(blocks) + (open + [rec]) == Added() + [rec]
    {
      hide Flatten;
    }

    /** Closes the block being filled, if any: its offset is the data length before it. */
    method FinalizeBlock()
      requires Valid()
      modifies `data, `current, `currentFirstKey, `index, `blocks, `open
      ensures Valid() && open == [] && current == [] && Added() == old(Added())
      ensures blocks == if old(open) == [] then old(blocks) else old(blocks) + [old(open)]
    {
      hide BlocksOk, KeysOk, BloomOk, Flatten;
      CurrentIsOpen(data, current, currentFirstKey, index, blocks, open);
      CloseBlock(data, current, currentFirstKey, index, blocks, open);
      if currentFirstKey.Some? {
        index := index + [IndexEntry(currentFirstKey.value, |data|, |current|)];
        data := data + current;
        current, currentFirstKey := [], None;
        blocks, open := blocks + [open], [];
      }
    }

    /** Smallest key so far. */
    method MinKey() returns (k: Option<Bytes>)
      requires Valid()
      ensures k == FirstKey(Added())
    {
      k := firstKey;
    }

    /** Largest key so far. */
    method MaxKey() returns (k: Option<Bytes>)
      requires Valid()
      ensures k == LastKey(Added())
    {
      k := lastKey;
    }

    /** Writes the file. The index cannot be refused: `add` enforced the same cap. */
    method Build() returns (r: Result<Bytes>)
      requires Valid()
      modifies this
      ensures Valid() && Added() == old(Added()) == Flatten(blocks) && GoodBlocks(blocks)
      ensures NoEmptyBlock(blocks) && r == Ok(Image(EncodeBlocks(blocks), IndexOf(blocks), bloom))
      ensures bloom == BloomOf(hash, emptyBloom, expectedItems, Added()) && (old(Greedy()) ==> Tight(blocks))
    {
      hide Flatten, EncodeRecords, EncodeBlocks, GoodBlocks, GoodBlock, IndexOf;
      hide Ascending, AllFit, BloomCovers, EncodeEntries, BloomBytes, PutU64, NoEmptyBlock, Usable, FirstKey, LastKey;
      hide Packed, Tight, BloomOf;
      if Packed(blocks, open) { PackedIsTight(blocks, open); }
      FinalizeBlock();
      NothingOpen(Flatten(blocks));
      var indexOffset := |data|;
      var encoded, indexBytes := EncodeIndex([], index);
      IndexKeysFit(blocks);
      NothingBefore(EncodeEntries(index));
      var bloomBytes: Bytes := [];
      if bloom.Some? {
        bloomBytes := EncodeBloom([], bloom.value);
        BloomBytesNotEmpty(bloom.value);
      }
      var bloomOffset := if bloomBytes == [] then 0 else indexOffset + |indexBytes|;
      var footer := PutU64(indexOffset);
      footer := footer + PutU64(bloomOffset);
      footer := footer + MAGIC;
      FooterParts(indexOffset, bloomOffset);
      var file := data;
      file := file + indexBytes;
      file := file + bloomBytes;
      file := file + footer;
      FileParts(data, indexBytes, bloomBytes, footer);
      r := Ok(file);
    }
  }
}
