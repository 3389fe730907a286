/** What the layers of the engine mean: every layer is a finite map from keys to entries, newer
    layers are laid over older ones, and a user sees the entries that are not tombstones. */
module Layers {
  import opened Outcomes
  import opened Bytes
  import opened Records

  /** A memtable entry; a tombstone is an explicit flag, since an empty value is user data. */
  datatype Entry = Entry(value: Bytes, deleted: bool)

  /** The contents of one layer. `older + newer` lays `newer` over `older`. */
  type Mem = map<Bytes, Entry>

  datatype WalOp = Put | Delete
  datatype WalEntry = WalEntry(op: WalOp, key: Bytes, value: Bytes)

  /** What the simple object behind the engine holds. */
  type UserMap = map<Bytes, Bytes>

  const TOMBSTONE := Entry([], true)

  function EntryOf(e: WalEntry): Entry {
    if e.op.Put? then Entry(e.value, false) else TOMBSTONE
  }

  /** Replaying log entries, oldest first, into an empty memtable. */
  function Replay(es: seq<WalEntry>): Mem {
    if es == [] then map[] else Replay(es[..|es| - 1])[es[|es| - 1].key := EntryOf(es[|es| - 1])]
  }

  /** The reference object: the same operations on a plain map. */
  function History(es: seq<WalEntry>): UserMap {
    if es == [] then map[]
    else
      var older, e := History(es[..|es| - 1]), es[|es| - 1];
      if e.op.Put? then older[e.key := e.value] else older - {e.key}
  }

  function Live(m: Mem): UserMap {
    map k | k in m && !m[k].deleted :: m[k].value
  }

  function Visible(m: Mem, key: Bytes): Option<Bytes> {
    if key in m && !m[key].deleted then Some(m[key].value) else None
  }

  function Find(u: UserMap, key: Bytes): Option<Bytes> {
    if key in u then Some(u[key]) else None
  }

  lemma VisibleIsFind(m: Mem, key: Bytes)
    ensures Visible(m, key) == Find(Live(m), key)
  {
  }

  lemma LiveOverlay(a: Mem, b: Mem, c: Mem)
    requires Live(a) == Live(b)
    ensures Live(a + c) == Live(b + c)
  {
    forall k ensures k in Live(a + c) <==> k in Live(b + c)
             ensures k in Live(a + c) ==> Live(a + c)[k] == Live(b + c)[k]
    {
      assert k in Live(a) <==> k in Live(b);
      assert k in Live(a) ==> Live(a)[k] == Live(b)[k];
    }
  }

  lemma {:induction false} ReplayAppend(a: seq<WalEntry>, b: seq<WalEntry>)
    ensures Replay(a + b) == Replay(a) + Replay(b)
    decreases |b|
  {
    if b == [] {
      assert a + b == a;
    } else {
      ReplayAppend(a, b[..|b| - 1]);
      assert (a + b)[..|a + b| - 1] == a + b[..|b| - 1];
    }
  }

  lemma ReplaySnoc(es: seq<WalEntry>, e: WalEntry)
    ensures Replay(es + [e]) == Replay(es)[e.key := EntryOf(e)]
  {
    assert (es + [e])[..|es|] == es;
  }

  lemma HistorySnoc(es: seq<WalEntry>, e: WalEntry)
    ensures History(es + [e]) == if e.op.Put? then History(es)[e.key := e.value] else History(es) - {e.key}
  {
    assert (es + [e])[..|es|] == es;
  }

  ghost predicate Logged(es: seq<WalEntry>, k: Bytes) {
    exists i :: 0 <= i < |es| && es[i].key == k
  }

  lemma {:induction false} ReplayKey(es: seq<WalEntry>, k: Bytes)
    ensures k in Replay(es) <==> Logged(es, k)
  {
    if es != [] {
      var init, last := es[..|es| - 1], es[|es| - 1];
      ReplayKey(init, k);
      assert es == init + [last];
      if Logged(init, k) {
        var i :| 0 <= i < |init| && init[i].key == k;
        assert es[i].key == k;
      }
      if Logged(es, k) && last.key != k {
        var i :| 0 <= i < |es| && es[i].key == k;
        assert init[i].key == k;
      }
    }
  }

  /** The layers show exactly the reference object, whatever lies below. */
  lemma {:induction false} HistoryStep(m: Mem, h: seq<WalEntry>, es: seq<WalEntry>)
    requires Live(m) == History(h)
    ensures Live(m + Replay(es)) == History(h + es)
    decreases |es|
  {
    if es == [] {
      assert h + es == h && m + Replay(es) == m;
    } else {
      var init, e := es[..|es| - 1], es[|es| - 1];
      HistoryStep(m, h, init);
      assert (h + es)[..|h + es| - 1] == h + init;
      assert m + Replay(es) == (m + Replay(init))[e.key := EntryOf(e)];
      LiveUpdate(m + Replay(init), e);
    }
  }

  lemma LiveUpdate(m: Mem, e: WalEntry)
    ensures Live(m[e.key := EntryOf(e)])
         == if e.op.Put? then Live(m)[e.key := e.value] else Live(m) - {e.key}
  {
  }

  // ---- Sorted runs ----

  ghost predicate Ascending(rs: seq<Record>) {
    forall i, j :: 0 <= i < j < |rs| ==> Less(rs[i].key, rs[j].key)
  }

  function EntryOfRecord(r: Record): Entry { Entry(r.value, r.deleted) }

  function RecordOf(key: Bytes, e: Entry): Record { Record(key, e.value, e.deleted) }

  /** The layer a list of records holds, later records over earlier ones. */
  function MemOf(rs: seq<Record>): Mem {
    if rs == [] then map[] else MemOf(rs[..|rs| - 1])[rs[|rs| - 1].key := EntryOfRecord(rs[|rs| - 1])]
  }

  ghost predicate Holds(rs: seq<Record>, k: Bytes) {
    exists i :: 0 <= i < |rs| && rs[i].key == k
  }

  lemma {:induction false} MemOfKey(rs: seq<Record>, k: Bytes)
    ensures k in MemOf(rs) <==> Holds(rs, k)
  {
    if rs != [] {
      var init, last := rs[..|rs| - 1], rs[|rs| - 1];
      MemOfKey(init, k);
      if Holds(init, k) {
        var i :| 0 <= i < |init| && init[i].key == k;
        assert rs[i].key == k;
      }
      if Holds(rs, k) && last.key != k {
        var i :| 0 <= i < |rs| && rs[i].key == k;
        assert init[i].key == k;
      }
    }
  }

  lemma {:induction false} MemOfAt(rs: seq<Record>, i: nat)
    requires Ascending(rs) && i < |rs|
    ensures rs[i].key in MemOf(rs) && MemOf(rs)[rs[i].key] == EntryOfRecord(rs[i])
  {
    if i < |rs| - 1 {
      MemOfAt(rs[..|rs| - 1], i);
      LessIrreflexive(rs[i].key);
    }
  }

  lemma MemOfSnoc(rs: seq<Record>, r: Record)
    ensures MemOf(rs + [r]) == MemOf(rs)[r.key := EntryOfRecord(r)]
  {
    assert (rs + [r])[..|rs|] == rs;
  }

  lemma AscendingSnoc(rs: seq<Record>, r: Record)
    requires Ascending(rs)
    requires rs != [] ==> Less(rs[|rs| - 1].key, r.key)
    ensures Ascending(rs + [r])
  {
    forall i, j | 0 <= i < j < |rs + [r]| ensures Less((rs + [r])[i].key, (rs + [r])[j].key) {
      if j == |rs| && i < |rs| - 1 {
        LessTransitive(rs[i].key, rs[|rs| - 1].key, r.key);
      }
    }
  }

  /** Sorted lists of records are determined by the layer they hold. */
  lemma {:induction false} AscendingUnique(a: seq<Record>, b: seq<Record>)
    requires Ascending(a) && Ascending(b) && MemOf(a) == MemOf(b)
    ensures a == b
  {
    if a == [] || b == [] {
      if a != [] { SameEmptiness(a, b); }
      if b != [] { SameEmptiness(b, a); }
    } else {
      var m, n := |a| - 1, |b| - 1;
      LastIsLargest(a, b);
      LastIsLargest(b, a);
      if a[m].key != b[n].key {
        LessAsymmetric(a[m].key, b[n].key);
        assert false;
      }
      assert a[m] == b[n] by { MemOfAt(a, m); MemOfAt(b, n); }
      DropLast(a);
      DropLast(b);
      AscendingUnique(a[..m], b[..n]);
      assert a == a[..m] + [a[m]] && b == b[..n] + [b[n]];
    }
  }

  lemma SameEmptiness(a: seq<Record>, b: seq<Record>)
    requires MemOf(a) == MemOf(b) && a != []
    ensures b != []
  {
    assert a[|a| - 1].key in MemOf(b);
  }

  lemma LastIsLargest(a: seq<Record>, b: seq<Record>)
    requires a != [] && b != [] && Ascending(b) && MemOf(a) == MemOf(b)
    ensures AtMost(a[|a| - 1].key, b[|b| - 1].key)
  {
    var k := a[|a| - 1].key;
    MemOfKey(a, k);
    MemOfKey(b, k);
    var i :| 0 <= i < |b| && b[i].key == k;
  }

  lemma LastIsNew(a: seq<Record>)
    requires a != [] && Ascending(a)
    ensures Ascending(a[..|a| - 1]) && a[|a| - 1].key !in MemOf(a[..|a| - 1])
  {
    hide Less, MemOf;
    var init, k := a[..|a| - 1], a[|a| - 1].key;
    MemOfKey(init, k);
    if Holds(init, k) {
      var i :| 0 <= i < |init| && init[i].key == k;
      LessIrreflexive(k);
    }
  }

  lemma DropLast(a: seq<Record>)
    requires a != [] && Ascending(a)
    ensures Ascending(a[..|a| - 1]) && MemOf(a[..|a| - 1]) == MemOf(a) - {a[|a| - 1].key}
  {
    hide Ascending;
    LastIsNew(a);
    Unset(MemOf(a[..|a| - 1]), a[|a| - 1].key, EntryOfRecord(a[|a| - 1]));
  }

  lemma Unset(m: Mem, k: Bytes, e: Entry)
    requires k !in m
    ensures m[k := e] - {k} == m
  {
  }

  /** The entry of the first record of `key`. */
  function Search(rs: seq<Record>, key: Bytes): Option<Entry> {
    if rs == [] then None
    else if rs[0].key == key then Some(EntryOfRecord(rs[0]))
    else Search(rs[1..], key)
  }

  // ---- The sorted contents of a memtable ----

  predicate IsMin(k: Bytes, s: set<Bytes>) {
    k in s && forall j :: j in s ==> AtMost(k, j)
  }

  lemma {:induction false} MinExists(s: set<Bytes>)
    requires s != {}
    ensures exists k :: IsMin(k, s)
    decreases |s|
  {
    var x :| x in s;
    if s == {x} {
      assert IsMin(x, s);
    } else {
      MinExists(s - {x});
      var k :| IsMin(k, s - {x});
      LessTotal(x, k);
      if Less(x, k) {
        forall j | j in s ensures AtMost(x, j) {
          if j != x && k != j {
            assert j in s - {x};
            LessTransitive(x, k, j);
          }
        }
        assert IsMin(x, s);
      } else {
        assert IsMin(k, s);
      }
    }
  }

  lemma MinUnique(s: set<Bytes>)
    ensures forall j, k :: IsMin(j, s) && IsMin(k, s) ==> j == k
  {
    forall j, k | IsMin(j, s) && IsMin(k, s) ensures j == k {
      if j != k { LessAsymmetric(j, k); }
    }
  }

  /** The entries in ascending key order, as the skip list iterates them. */
  function SortedRecords(m: Mem): seq<Record>
    decreases |m|
  {
    if m == map[] then []
    else
      MinExists(m.Keys);
      MinUnique(m.Keys);
      var k :| IsMin(k, m.Keys);
      [RecordOf(k, m[k])] + SortedRecords(m - {k})
  }

  lemma {:induction false} MemOfCons(r: Record, rs: seq<Record>)
    requires r.key !in MemOf(rs)
    ensures MemOf([r] + rs) == MemOf(rs)[r.key := EntryOfRecord(r)]
    decreases |rs|
  {
    if rs == [] {
      assert [r] + rs == [r] && [r][..0] == [];
    } else {
      var init := rs[..|rs| - 1];
      MemOfCons(r, init);
      assert ([r] + rs)[..|rs|] == [r] + init;
    }
  }

  lemma AscendingCons(r: Record, rs: seq<Record>)
    requires Ascending(rs) && forall j :: 0 <= j < |rs| ==> Less(r.key, rs[j].key)
    ensures Ascending([r] + rs)
  {
  }

  lemma SmallestFirst(m: Mem, k: Bytes, rest: seq<Record>)
    requires IsMin(k, m.Keys) && Ascending(rest) && MemOf(rest) == m - {k}
    ensures Ascending([RecordOf(k, m[k])] + rest) && MemOf([RecordOf(k, m[k])] + rest) == m
  {
    hide Less, Ascending, MemOf;
    forall j | 0 <= j < |rest| ensures Less(k, rest[j].key) {
      MemOfKey(rest, rest[j].key);
      assert rest[j].key in m.Keys - {k};
    }
    AscendingCons(RecordOf(k, m[k]), rest);
    MemOfCons(RecordOf(k, m[k]), rest);
    assert m == (m - {k})[k := m[k]];
  }

  lemma {:induction false} SortedRecordsCorrect(m: Mem)
    ensures Ascending(SortedRecords(m)) && MemOf(SortedRecords(m)) == m
    ensures |SortedRecords(m)| == |m|
    decreases |m|
  {
    if m != map[] {
      hide Less, Ascending, MemOf, IsMin;
      MinExists(m.Keys);
      var k :| IsMin(k, m.Keys) && SortedRecords(m) == [RecordOf(k, m[k])] + SortedRecords(m - {k});
      MinIsIn(k, m.Keys);
      SortedRecordsCorrect(m - {k});
      SmallestFirst(m, k, SortedRecords(m - {k}));
    }
  }

  lemma MinIsIn(k: Bytes, s: set<Bytes>)
    requires IsMin(k, s)
    ensures k in s
  {
  }
}
