/** The layout `[data][index][bloom?][footer]` of a table file, and what its blocks hold. */
module TableFormat {
  import opened Outcomes
  import opened Bytes
  import opened Records
  import opened Layers
  import opened SparseIndex
  import opened BloomFilter

  const TARGET_BLOCK_SIZE: nat := 4096
  const FOOTER_LEN: nat := 24
  const MAGIC: Bytes := [0x4C, 0x53, 0x4D, 0x54, 0x52, 0x45, 0x45, 0x31]

  function EncodeBlocks(blocks: seq<seq<Record>>): Bytes {
    if blocks == [] then [] else EncodeBlocks(blocks[..|blocks| - 1]) + EncodeRecords(blocks[|blocks| - 1])
  }

  function Flatten(blocks: seq<seq<Record>>): seq<Record> {
    if blocks == [] then [] else Flatten(blocks[..|blocks| - 1]) + blocks[|blocks| - 1]
  }

  ghost predicate NoEmptyBlock(blocks: seq<seq<Record>>) {
    forall i :: 0 <= i < |blocks| ==> blocks[i] != []
  }

  /** The index entries of a list of blocks: they tile the data from offset 0 on. */
  function IndexOf(blocks: seq<seq<Record>>): (es: seq<IndexEntry>)
    requires NoEmptyBlock(blocks)
    ensures |es| == |blocks|
  {
    if blocks == [] then []
    else
      var n := |blocks| - 1;
      IndexOf(blocks[..n]) + [IndexEntry(blocks[n][0].key, |EncodeBlocks(blocks[..n])|, |EncodeRecords(blocks[n])|)]
  }

  /** A block is a whole number of records, at most 4096 bytes unless it holds one record. */
  ghost predicate GoodBlock(b: seq<Record>) {
    b != [] && (|EncodeRecords(b)| <= 4096 || |b| == 1)
  }

  ghost predicate GoodBlocks(blocks: seq<seq<Record>>) {
    forall i :: 0 <= i < |blocks| ==> GoodBlock(blocks[i])
  }

  /** Blocks are filled up: the first record of each would have gone over 4096 bytes in the one before. */
  ghost predicate Tight(blocks: seq<seq<Record>>) {
    forall a, b :: 0 <= a && b == a + 1 && b < |blocks| ==> GoesOver(blocks[a], blocks[b])
  }

  ghost predicate GoesOver(full: seq<Record>, next: seq<Record>) {
    full != [] && next != [] && |EncodeRecords(full)| + |EncodeRecord(next[0])| > 4096
  }

  function KeysOf(rs: seq<Record>): (keys: seq<Bytes>)
    ensures |keys| == |rs| && forall i :: 0 <= i < |rs| ==> keys[i] == rs[i].key
  {
    seq(|rs|, i requires 0 <= i < |rs| => rs[i].key)
  }

  /** The bloom block for `rs`: every key, and nothing else, in the filter sized for `expectedItems`. */
  function BloomOf(hash: Hash, emptyBloom: Bloom, expectedItems: nat, rs: seq<Record>): Option<Bloom>
    requires Usable(emptyBloom)
  {
    if expectedItems > 0 && rs != [] then Some(InsertAll(hash, emptyBloom, KeysOf(rs))) else None
  }

  /** Exactly which keys the bloom block of a table lets through: those that share every one of their
      bits with some key of the table. */
  lemma BloomOfExact(hash: Hash, emptyBloom: Bloom, expectedItems: nat, rs: seq<Record>, key: Bytes)
    requires Usable(emptyBloom) && expectedItems > 0 && rs != [] && forall p: nat :: !Bit(emptyBloom, p)
    ensures var bloom, ps := BloomOf(hash, emptyBloom, expectedItems, rs), Positions(hash, emptyBloom, key);
            && bloom.Some? && Usable(bloom.value)
            && (Contains(hash, bloom.value, key) <==>
                  forall j :: 0 <= j < |ps| ==> ProbedBySome(hash, emptyBloom, KeysOf(rs), ps[j]))
  {
    hide Bit, InsertAll, ProbedBySome, Contains;
    ContainsExact(hash, emptyBloom, KeysOf(rs), key);
  }

  lemma BloomOfCovers(hash: Hash, emptyBloom: Bloom, expectedItems: nat, rs: seq<Record>)
    requires Usable(emptyBloom)
    ensures BloomCovers(hash, BloomOf(hash, emptyBloom, expectedItems, rs), rs)
  {
    hide Contains, InsertAll;
    if expectedItems > 0 && rs != [] {
      forall i | 0 <= i < |rs| ensures Contains(hash, InsertAll(hash, emptyBloom, KeysOf(rs)), rs[i].key) {
        InsertAllKeeps(hash, emptyBloom, KeysOf(rs), i);
      }
    }
  }

  function Footer(indexOffset: nat, bloomOffset: nat): (bs: Bytes)
    ensures |bs| == FOOTER_LEN
  {
    PutU64(indexOffset) + (PutU64(bloomOffset) + MAGIC)
  }

  function BloomBlock(bloom: Option<Bloom>): Bytes {
    match bloom
    case None => []
    case Some(b) => BloomBytes(b)
  }

  function BloomOffset(data: Bytes, index: seq<IndexEntry>, bloom: Option<Bloom>): nat {
    if bloom.None? then 0 else |data| + |EncodeEntries(index)|
  }

  function Image(data: Bytes, index: seq<IndexEntry>, bloom: Option<Bloom>): Bytes {
    data + (EncodeEntries(index) + (BloomBlock(bloom) + Footer(|data|, BloomOffset(data, index, bloom))))
  }

  /** Every key of the table, tombstones included, probes positive. */
  ghost predicate BloomCovers(hash: Hash, bloom: Option<Bloom>, rs: seq<Record>) {
    bloom.Some? ==> Usable(bloom.value) && forall i :: 0 <= i < |rs| ==> Contains(hash, bloom.value, rs[i].key)
  }

  /** What the builder writes for the records `rs`. A file's length is a `u64`. */
  ghost predicate IsTable(bytes: Bytes, blocks: seq<seq<Record>>, bloom: Option<Bloom>, rs: seq<Record>, hash: Hash) {
    && NoEmptyBlock(blocks) && Flatten(blocks) == rs && AllFit(rs) && Ascending(rs)
    && BloomCovers(hash, bloom, rs) && (bloom.Some? ==> rs != [])
    && bytes == Image(EncodeBlocks(blocks), IndexOf(blocks), bloom) && |bytes| <= U64_MAX
  }

  /** More than this the file of a table never takes: the index is at most three times the data. */
  function SizeBound(rs: seq<Record>, bloom: Bloom): nat {
    4 * |EncodeRecords(rs)| + 4 + 8 * |bloom.words| + 24
  }

  lemma {:induction false} IndexSmall(blocks: seq<seq<Record>>)
    requires NoEmptyBlock(blocks)
    ensures |EncodeEntries(IndexOf(blocks))| <= 3 * |EncodeBlocks(blocks)|
  {
    hide EncodeEntry, EncodeRecord;
    if blocks != [] {
      var n := |blocks| - 1;
      IndexSmall(blocks[..n]);
      EncodeEntriesSnoc(IndexOf(blocks[..n]), IndexOf(blocks)[n]);
    }
  }

  lemma ImageSmall(blocks: seq<seq<Record>>, bloom: Option<Bloom>, rs: seq<Record>, size: Bloom)
    requires NoEmptyBlock(blocks) && Flatten(blocks) == rs && (bloom.Some? ==> |bloom.value.words| == |size.words|)
    ensures |Image(EncodeBlocks(blocks), IndexOf(blocks), bloom)| <= SizeBound(rs, size)
  {
    hide EncodeEntries, EncodeRecords;
    IndexSmall(blocks);
    BlocksAreRecords(blocks);
  }

  // ---- Lists of blocks ----

  lemma FlattenSnoc(blocks: seq<seq<Record>>, b: seq<Record>)
    ensures Flatten(blocks + [b]) == Flatten(blocks) + b
    ensures EncodeBlocks(blocks + [b]) == EncodeBlocks(blocks) + EncodeRecords(b)
  {
    assert (blocks + [b])[..|blocks|] == blocks;
  }

  lemma IndexSnoc(blocks: seq<seq<Record>>, b: seq<Record>)
    requires NoEmptyBlock(blocks) && b != []
    ensures NoEmptyBlock(blocks + [b])
    ensures IndexOf(blocks + [b]) == IndexOf(blocks)
            + [IndexEntry(b[0].key, |EncodeBlocks(blocks)|, |EncodeRecords(b)|)]
  {
    assert (blocks + [b])[..|blocks|] == blocks;
  }

  /** The data section is the records one after another, however they are split into blocks. */
  lemma {:induction false} BlocksAreRecords(blocks: seq<seq<Record>>)
    ensures EncodeBlocks(blocks) == EncodeRecords(Flatten(blocks))
  {
    if blocks != [] {
      BlocksAreRecords(blocks[..|blocks| - 1]);
      EncodeRecordsAppend(Flatten(blocks[..|blocks| - 1]), blocks[|blocks| - 1]);
    }
  }

  lemma {:induction false} FlattenSplit(blocks: seq<seq<Record>>, b: nat)
    requires b < |blocks|
    ensures Flatten(blocks) == Flatten(blocks[..b]) + blocks[b] + Flatten(blocks[b + 1..])
    decreases |blocks|
  {
    var n := |blocks| - 1;
    if b == n {
      assert blocks[n + 1..] == [];
    } else {
      FlattenSplit(blocks[..n], b);
      FlattenSnoc(blocks[..n], blocks[n]);
      assert blocks[..n] + [blocks[n]] == blocks;
      hide Flatten;
      assert blocks[..n][..b] == blocks[..b];
      assert blocks[b + 1..] == blocks[..n][b + 1..] + [blocks[n]];
      FlattenSnoc(blocks[..n][b + 1..], blocks[n]);
      ConcatAssoc(Flatten(blocks[..b]) + blocks[b], Flatten(blocks[..n][b + 1..]), blocks[n]);
    }
  }

  lemma {:induction false} EncodeBlocksSplit(blocks: seq<seq<Record>>, b: nat)
    requires b < |blocks|
    ensures At(EncodeBlocks(blocks), |EncodeBlocks(blocks[..b])|, EncodeRecords(blocks[b]))
    decreases |blocks|
  {
    var n := |blocks| - 1;
    if b == n {
      AtInside(EncodeBlocks(blocks[..n]), EncodeRecords(blocks[n]), []);
      assert EncodeBlocks(blocks[..n]) + EncodeRecords(blocks[n]) + [] == EncodeBlocks(blocks);
    } else {
      EncodeBlocksSplit(blocks[..n], b);
      assert blocks[..n][..b] == blocks[..b];
      AtPrefix(EncodeBlocks(blocks), |EncodeBlocks(blocks[..n])|, |EncodeBlocks(blocks[..b])|,
          EncodeRecords(blocks[b]));
      assert EncodeBlocks(blocks)[..|EncodeBlocks(blocks[..n])|] == EncodeBlocks(blocks[..n]);
    }
  }

  /** The index entries tile the data contiguously, each names its block's first key. */
  lemma {:induction false} IndexTiles(blocks: seq<seq<Record>>, b: nat)
    requires NoEmptyBlock(blocks) && b < |blocks|
    ensures IndexOf(blocks)[b] == IndexEntry(blocks[b][0].key, |EncodeBlocks(blocks[..b])|, |EncodeRecords(blocks[b])|)
    ensures b + 1 < |blocks| ==> IndexOf(blocks)[b].offset + IndexOf(blocks)[b].size == IndexOf(blocks)[b + 1].offset
    ensures b + 1 == |blocks| ==> IndexOf(blocks)[b].offset + IndexOf(blocks)[b].size == |EncodeBlocks(blocks)|
    ensures b == 0 ==> IndexOf(blocks)[b].offset == 0
    decreases |blocks|
  {
    var n := |blocks| - 1;
    if b < n {
      IndexTiles(blocks[..n], b);
      assert blocks[..n][..b] == blocks[..b];
    } else {
      assert blocks[..n] == blocks[..b];
    }
  }
}
