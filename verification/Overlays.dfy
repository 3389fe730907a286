/** Algebra of layers laid over one another, and lookup as reading the overlay. */
module Overlays {
  import opened Outcomes
  import opened Bytes
  import opened Records
  import opened Layers
  import opened Machine

  /** Laying `b` over `a` again changes nothing. */
  ghost predicate Absorbs(a: Mem, b: Mem) { a + b == a }

  lemma AbsorbsNewer(a: Mem, b: Mem, g: Mem)
    requires Absorbs(a, b)
    ensures Absorbs(a + g, b + g)
  {
    forall k | k in b ensures k in a && (k !in g ==> a[k] == b[k]) {
      assert k in a + b && (a + b)[k] == b[k];
    }
  }

  /** Dropping the oldest of the absorbed layers leaves an absorbed overlay. */
  lemma AbsorbsSuffix(a: Mem, x: Mem, y: Mem)
    requires Absorbs(a, x + y)
    ensures Absorbs(a, y)
  {
    forall k | k in y ensures k in a && a[k] == y[k] {
      assert k in x + y && (x + y)[k] == y[k];
      assert k in a + (x + y) && (a + (x + y))[k] == y[k];
    }
  }

  lemma OverlayAssoc(a: Mem, b: Mem, c: Mem)
    ensures (a + b) + c == a + (b + c)
  {
  }

  // ---- Memtables and logs ----

  lemma {:induction false} OverlayMemsAppend(mems: map<nat, Mem>, a: seq<nat>, b: seq<nat>)
    ensures OverlayMems(mems, a + b) == OverlayMems(mems, a) + OverlayMems(mems, b)
    decreases |b|
  {
    if b == [] {
      assert a + b == a;
    } else {
      hide MemIn;
      var init, last := b[..|b| - 1], MemIn(mems, b[|b| - 1]);
      OverlayMemsAppend(mems, a, init);
      assert (a + b)[..|a + b| - 1] == a + init;
      OverlayAssoc(OverlayMems(mems, a), OverlayMems(mems, init), last);
    }
  }

  lemma OverlayMemsOne(mems: map<nat, Mem>, g: nat)
    ensures OverlayMems(mems, [g]) == MemIn(mems, g)
  {
    assert [g][..0] == [];
  }

  /** Only the generations named matter. */
  lemma {:induction false} OverlayMemsFrame(h: map<nat, Mem>, h': map<nat, Mem>, gs: seq<nat>)
    requires forall i :: 0 <= i < |gs| ==> MemIn(h, gs[i]) == MemIn(h', gs[i])
    ensures OverlayMems(h, gs) == OverlayMems(h', gs)
  {
    if gs != [] { OverlayMemsFrame(h, h', gs[..|gs| - 1]); }
  }

  // ---- Generations in order ----

  lemma ElementsDropLast(gs: seq<nat>)
    requires gs != [] && Increasing(gs)
    ensures Elements(gs[..|gs| - 1]) == Elements(gs) - {gs[|gs| - 1]}
  {
    var n := |gs| - 1;
    forall g | g in Elements(gs) - {gs[n]} ensures g in gs[..n] {
      var i :| 0 <= i < |gs| && gs[i] == g;
      assert gs[..n][i] == g;
    }
  }

  lemma ElementsTail(gs: seq<nat>)
    requires gs != [] && Increasing(gs)
    ensures Increasing(gs[1..]) && gs[0] !in gs[1..]
    ensures Elements(gs[1..]) == Elements(gs) - {gs[0]}
  {
    forall g | g in Elements(gs) - {gs[0]} ensures g in gs[1..] {
      var i :| 0 <= i < |gs| && gs[i] == g;
      assert gs[1..][i - 1] == g;
    }
  }

  lemma ElementsSnoc(gs: seq<nat>, g: nat)
    ensures Elements(gs + [g]) == Elements(gs) + {g}
  {
  }

  /** The generation put last is the largest. */
  lemma LastInOrder(s: set<nat>) returns (x: nat)
    requires s != {}
    ensures IsMax(x, s) && InOrder(s) == InOrder(s - {x}) + [x]
  {
    hide IsMax;
    MaxIn(s);
    x :| IsMax(x, s) && InOrder(s) == InOrder(s - {x}) + [x];
  }

  lemma LastIsMax(gs: seq<nat>, s: set<nat>, x: nat)
    requires gs != [] && Increasing(gs) && Elements(gs) == s && IsMax(x, s)
    ensures x == gs[|gs| - 1] && x in s && Increasing(gs[..|gs| - 1]) && Elements(gs[..|gs| - 1]) == s - {x}
  {
    var n := |gs| - 1;
    assert gs[n] in s;
    var i :| 0 <= i <= n && gs[i] == x;
    ElementsDropLast(gs);
  }

  lemma {:induction false} InOrderUnique(s: set<nat>, gs: seq<nat>)
    requires Increasing(gs) && Elements(gs) == s
    ensures InOrder(s) == gs
    decreases |gs|
  {
    if gs == [] {
      NoneInOrder();
    } else {
      hide InOrder, Increasing, IsMax;
      assert gs[|gs| - 1] in Elements(gs);
      var x := LastInOrder(s);
      LastIsMax(gs, s, x);
      InOrderUnique(s - {x}, gs[..|gs| - 1]);
    }
  }

  lemma NoneInOrder()
    ensures InOrder({}) == [] && Elements([]) == {}
  {
  }

  lemma {:induction false} InOrderCorrect(s: set<nat>)
    ensures Increasing(InOrder(s)) && Elements(InOrder(s)) == s
    decreases |s|
  {
    if s == {} {
      NoneInOrder();
    } else {
      hide InOrder, Increasing, Elements;
      var x := LastInOrder(s);
      assert x in s && s == (s - {x}) + {x};
      InOrderCorrect(s - {x});
      IncreasingSnoc(InOrder(s - {x}), s - {x}, x);
    }
  }

  lemma IncreasingSnoc(gs: seq<nat>, s: set<nat>, x: nat)
    requires Increasing(gs) && Elements(gs) == s && x !in s && forall y :: y in s ==> y <= x
    ensures Increasing(gs + [x]) && Elements(gs + [x]) == s + {x}
  {
    ElementsSnoc(gs, x);
    forall i | 0 <= i < |gs| ensures gs[i] < x {
      assert gs[i] in Elements(gs);
    }
  }

  // ---- Tables ----

  lemma OverlaySnoc(ts: seq<Table>, t: Table)
    ensures Overlay(ts + [t]) == Overlay(ts) + MemOf(t.records)
  {
    assert (ts + [t])[..|ts|] == ts;
  }

  /** What a sorted, non-empty table file and its metadata satisfy. */
  ghost predicate TableOk(t: Table) {
    && t.records != [] && Ascending(t.records) && AllFit(t.records)
    && t.meta.min == t.records[0].key && t.meta.max == t.records[|t.records| - 1].key
  }

  ghost predicate AllTablesOk(ts: seq<Table>) {
    forall i :: 0 <= i < |ts| ==> TableOk(ts[i])
  }

  lemma {:induction false} SearchFinds(rs: seq<Record>, key: Bytes)
    requires Ascending(rs)
    ensures Search(rs, key) == if key in MemOf(rs) then Some(MemOf(rs)[key]) else None
  {
    if rs == [] {
    } else if rs[0].key == key {
      MemOfAt(rs, 0);
    } else {
      SearchFinds(rs[1..], key);
      assert rs == [rs[0]] + rs[1..];
      MemOfKey(rs[1..], rs[0].key);
      if Holds(rs[1..], rs[0].key) {
        var i :| 0 <= i < |rs[1..]| && rs[1..][i].key == rs[0].key;
        LessIrreflexive(rs[0].key);
        assert false;
      }
      MemOfCons(rs[0], rs[1..]);
    }
  }

  /** The recorded key range never hides a key the table holds. */
  lemma RangeSound(t: Table, key: Bytes)
    requires TableOk(t) && OutOfRange(t.meta, key)
    ensures key !in MemOf(t.records)
  {
    hide Less;
    MemOfKey(t.records, key);
    if Holds(t.records, key) {
      var i :| 0 <= i < |t.records| && t.records[i].key == key;
      var n := |t.records| - 1;
      if Less(key, t.meta.min) {
        if i == 0 { LessIrreflexive(key); } else { LessAsymmetric(key, t.records[0].key); }
      } else {
        if i == n { LessIrreflexive(key); } else { LessAsymmetric(t.records[n].key, key); }
      }
    }
  }

  function FindIn(m: Mem, key: Bytes): Option<Entry> {
    if key in m then Some(m[key]) else None
  }

  lemma {:induction false} SearchTablesFinds(ts: seq<Table>, key: Bytes)
    requires AllTablesOk(ts)
    ensures SearchTables(ts, key) == FindIn(Overlay(ts), key)
  {
    if ts != [] {
      var t := ts[|ts| - 1];
      SearchTablesFinds(ts[..|ts| - 1], key);
      SearchFinds(t.records, key);
      if OutOfRange(t.meta, key) { RangeSound(t, key); }
    }
  }

  lemma {:induction false} SearchMemsFinds(heap: map<nat, Mem>, gs: seq<nat>, key: Bytes)
    ensures SearchMems(heap, gs, key) == FindIn(OverlayMems(heap, gs), key)
  {
    if gs != [] { SearchMemsFinds(heap, gs[..|gs| - 1], key); }
  }

  /** The layered search reads the overlay of all layers: the newest entry of the key decides,
      and a tombstone ends the search. */
  lemma LookupReadsOverlay(heap: map<nat, Mem>, gen: nat, imms: seq<nat>, levels: Levels<Table>, key: Bytes)
    requires AllTablesOk(levels.l0) && AllTablesOk(levels.l1)
    ensures Lookup(heap, gen, imms, levels, key)
         == Visible(OverlayLevels(levels) + OverlayMems(heap, imms) + MemIn(heap, gen), key)
  {
    SearchTablesFinds(levels.l0, key);
    SearchTablesFinds(levels.l1, key);
    SearchMemsFinds(heap, imms, key);
  }

  lemma LookupFrame(heap: map<nat, Mem>, heap': map<nat, Mem>, gen: nat, imms: seq<nat>, levels: Levels<Table>,
                    key: Bytes)
    requires SearchMem(heap, gen, key) == SearchMem(heap', gen, key)
    requires forall i :: 0 <= i < |imms| ==> MemIn(heap, imms[i]) == MemIn(heap', imms[i])
    ensures Lookup(heap, gen, imms, levels, key) == Lookup(heap', gen, imms, levels, key)
  {
    OverlayMemsFrame(heap, heap', imms);
    SearchMemsFinds(heap, imms, key);
    SearchMemsFinds(heap', imms, key);
  }

  // ---- Positions ----

  lemma InsertAtEnd(ts: seq<Table>, t: Table)
    requires forall i :: 0 <= i < |ts| ==> ts[i].meta.seqno < t.meta.seqno
    ensures InsertBySeq(ts, t) == ts + [t]
  {
  }

  lemma {:induction false} WithoutAbsent(gs: seq<nat>, g: nat)
    requires g !in gs
    ensures Without(gs, g) == gs
  {
    if gs != [] {
      WithoutAbsent(gs[..|gs| - 1], g);
      assert gs == gs[..|gs| - 1] + [gs[|gs| - 1]];
    }
  }

  lemma {:induction false} WithoutFirst(gs: seq<nat>)
    requires gs != [] && Increasing(gs)
    ensures Without(gs, gs[0]) == gs[1..]
    decreases |gs|
  {
    var n := |gs| - 1;
    if n > 0 {
      WithoutFirst(gs[..n]);
      assert gs[1..] == gs[..n][1..] + [gs[n]];
    }
  }
}
