/** The memtable (src/memtable/mod.rs) and replaying a log into it (src/wal/reader.rs). The skip
    list is an ordered map. */
module Memtables {
  import opened Outcomes
  import opened Bytes
  import opened Records
  import opened Layers
  import opened WriteAheadLog

  const ENTRY_OVERHEAD: nat := 64

  class MemTable {
    var entries: Mem
    var approximateSize: nat

    constructor ()
      ensures entries == map[] && approximateSize == 0
    {
      entries, approximateSize := map[], 0;
    }

    method Put(key: Bytes, value: Bytes)
      modifies this
      ensures entries == old(entries)[key := EntryOf(WalEntry(WalOp.Put, key, value))]
      ensures approximateSize == old(approximateSize) + |key| + |value| + 64
    {
      approximateSize := approximateSize + (|key| + |value|) + ENTRY_OVERHEAD;
      entries := entries[key := Entry(value, false)];
    }

    method Delete(key: Bytes)
      modifies this
      ensures entries == old(entries)[key := TOMBSTONE]
      ensures approximateSize == old(approximateSize) + |key| + 64
    {
      approximateSize := approximateSize + |key| + ENTRY_OVERHEAD;
      entries := entries[key := Entry([], true)];
    }

    /** A tombstone is an entry; `None` means the key was never written here. */
    method GetEntry(key: Bytes) returns (e: Option<Entry>)
      ensures e == if key in entries then Some(entries[key]) else None
    {
      e := if key in entries then Some(entries[key]) else None;
    }

    method IsEmpty() returns (b: bool)
      ensures b <==> entries == map[]
    {
      b := entries == map[];
    }

    /** All entries, ascending by key, each key once. */
    method Iter() returns (rs: seq<Record>)
      ensures Ascending(rs) && MemOf(rs) == entries && rs == SortedRecords(entries)
    {
      rs := SortedRecords(entries);
      SortedRecordsCorrect(entries);
    }
  }

  /** By how much replaying `es` raises the size estimate: every entry counts, overwritten ones too. */
  function ReplaySize(es: seq<WalEntry>): nat {
    if es == [] then 0
    else
      var e := es[|es| - 1];
      ReplaySize(es[..|es| - 1]) + |e.key| + (if e.op.Put? then |e.value| else 0) + 64
  }

  lemma ReplaySizeSnoc(es: seq<WalEntry>, e: WalEntry)
    ensures ReplaySize(es + [e]) == ReplaySize(es) + |e.key| + (if e.op.Put? then |e.value| else 0) + 64
  {
    assert (es + [e])[..|es|] == es;
  }

  lemma NoSize()
    ensures ReplaySize([]) == 0
  {
  }

  lemma NothingReplayed(m: Mem)
    ensures m + Replay([]) == m
  {
  }

  lemma SetOverlaid(m: Mem, replayed: Mem, e: WalEntry)
    ensures m + replayed[e.key := EntryOf(e)] == (m + replayed)[e.key := EntryOf(e)]
  {
  }

  /** Replays every complete entry of the log in order; corruption applies nothing. */
  method ReplayInto(crc: Checksum, bytes: Bytes, mem: MemTable) returns (r: Result<nat>)
    modifies mem
    ensures r.Err? <==> ScanFrom(crc, bytes, 0).Err?
    ensures r.Err? ==> unchanged(mem) && r.error == Corruption
    ensures r.Ok? ==> r.value == |ScanFrom(crc, bytes, 0).value|
    ensures r.Ok? ==> mem.entries == old(mem.entries) + Replay(ScanFrom(crc, bytes, 0).value)
    ensures r.Ok? ==> mem.approximateSize == old(mem.approximateSize) + ReplaySize(ScanFrom(crc, bytes, 0).value)
  {
    hide ScanFrom, Replay, ReplaySize;
    NoSize();
    var scanned := Scan(crc, bytes);
    if scanned.Err? {
      ScanErrors(crc, bytes, 0);
      return Err(scanned.error);
    }
    var es := scanned.value;
    var applied := 0;
    assert es[..0] == [];
    NothingReplayed(mem.entries);
    for i := 0 to |es|
      invariant applied == i
      invariant mem.entries == old(mem.entries) + Replay(es[..i])
      invariant mem.approximateSize == old(mem.approximateSize) + ReplaySize(es[..i])
    {
      assert es[..i + 1] == es[..i] + [es[i]];
      ReplaySnoc(es[..i], es[i]);
      ReplaySizeSnoc(es[..i], es[i]);
      SetOverlaid(old(mem.entries), Replay(es[..i]), es[i]);
      match es[i].op {
        case Put => mem.Put(es[i].key, es[i].value);
        case Delete => mem.Delete(es[i].key);
      }
      applied := applied + 1;
    }
    assert es[..|es|] == es;
    r := Ok(applied);
  }
}
