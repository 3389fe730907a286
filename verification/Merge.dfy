/** The k-way merge of a compaction (src/compaction/leveled.rs). */
module Merge {
  import opened Bytes
  import opened Records
  import opened Layers

  /** The records of one source table; a higher `seqno` is newer. */
  datatype Run = Run(seqno: nat, records: seq<Record>)

  /** What the callers of `MergeRuns` guarantee: sorted runs, file numbers used once. */
  ghost predicate Mergeable(runs: seq<Run>) {
    && (forall i :: 0 <= i < |runs| ==> Ascending(runs[i].records))
    && (forall i, j :: 0 <= i < j < |runs| ==> runs[i].seqno != runs[j].seqno)
  }

  ghost predicate Has(run: Run, k: Bytes) { k in MemOf(run.records) }

  /** Run `i` holds the newest record of `k`. */
  ghost predicate IsNewest(runs: seq<Run>, i: nat, k: Bytes) {
    && i < |runs| && Has(runs[i], k)
    && forall j :: 0 <= j < |runs| && Has(runs[j], k) ==> runs[j].seqno <= runs[i].seqno
  }

  ghost predicate Survives(out: Mem, e: Entry, k: Bytes) {
    if e.deleted then k !in out else k in out && out[k] == e
  }

  /** The newest record of every key survives unless it is a tombstone, and nothing else does.
      The order of `runs` plays no part. */
  ghost predicate MergedAt(runs: seq<Run>, out: Mem, k: Bytes) {
    && (k in out ==> exists i :: 0 <= i < |runs| && Has(runs[i], k))
    && (forall i: nat :: IsNewest(runs, i, k) ==> Survives(out, MemOf(runs[i].records)[k], k))
  }

  ghost predicate IsMerge(runs: seq<Run>, out: seq<Record>) {
    Ascending(out) && forall k :: MergedAt(runs, MemOf(out), k)
  }

  /** Of the runs that hold a key, one is the newest. */
  lemma {:induction false} NewestExists(runs: seq<Run>, k: Bytes, i: nat) returns (w: nat)
    requires i < |runs| && Has(runs[i], k)
    ensures IsNewest(runs, w, k)
  {
    hide Has;
    var n := |runs| - 1;
    if j: nat :| j < n && Has(runs[j], k) {
      assert runs[..n][j] == runs[j];
      w := NewestExists(runs[..n], k, j);
      assert forall t :: 0 <= t < n ==> runs[..n][t] == runs[t];
      if Has(runs[n], k) && runs[n].seqno > runs[w].seqno { w := n; }
    } else {
      w := n;
    }
  }

  lemma MergeDropsTombstones(runs: seq<Run>, out: seq<Record>, i: nat)
    requires IsMerge(runs, out) && i < |out|
    ensures !out[i].deleted
  {
    MemOfAt(out, i);
    var k := out[i].key;
    assert MergedAt(runs, MemOf(out), k);
    var j :| 0 <= j < |runs| && Has(runs[j], k);
    var w := NewestExists(runs, k, j);
    assert Survives(MemOf(out), MemOf(runs[w].records)[k], k);
  }

  // ---- The loop's state: how far each run has been consumed ----

  ghost predicate CursorsOk(runs: seq<Run>, c: seq<nat>) {
    |c| == |runs| && forall i :: 0 <= i < |runs| ==> c[i] <= |runs[i].records|
  }

  predicate Pending(runs: seq<Run>, c: seq<nat>, i: nat)
    requires |c| == |runs| && i < |runs|
  {
    c[i] < |runs[i].records|
  }

  function Head(runs: seq<Run>, c: seq<nat>, i: nat): Record
    requires |c| == |runs| && i < |runs| && Pending(runs, c, i)
  {
    runs[i].records[c[i]]
  }

  /** Run `i` is about to give up key `k`. */
  ghost predicate Offers(runs: seq<Run>, c: seq<nat>, i: nat, k: Bytes) {
    |c| == |runs| && i < |runs| && Pending(runs, c, i) && Head(runs, c, i).key == k
  }

  ghost function Taken(runs: seq<Run>, c: seq<nat>): (t: seq<Run>)
    requires CursorsOk(runs, c)
    ensures |t| == |runs|
    ensures forall i :: 0 <= i < |runs| ==> t[i] == Run(runs[i].seqno, runs[i].records[..c[i]])
  {
    seq(|runs|, i requires 0 <= i < |runs| => Run(runs[i].seqno, runs[i].records[..c[i]]))
  }

  /** Every consumed key is below every key still to come. */
  ghost predicate Separated(runs: seq<Run>, c: seq<nat>)
    requires CursorsOk(runs, c)
  {
    forall i, p, j :: 0 <= i < |runs| && 0 <= p < c[i] && 0 <= j < |runs| && Pending(runs, c, j) ==>
      Less(runs[i].records[p].key, Head(runs, c, j).key)
  }

  ghost predicate IsMinHead(runs: seq<Run>, c: seq<nat>, k: Bytes)
    requires CursorsOk(runs, c)
  {
    && (exists i :: Offers(runs, c, i, k))
    && forall i :: 0 <= i < |runs| && Pending(runs, c, i) ==> AtMost(k, Head(runs, c, i).key)
  }

  /** The cursors after every run offering `k` has given it up. */
  ghost predicate Advanced(runs: seq<Run>, c: seq<nat>, c': seq<nat>, k: Bytes)
    requires CursorsOk(runs, c)
  {
    |c'| == |runs| &&
    forall i :: 0 <= i < |runs| ==> c'[i] == if Offers(runs, c, i, k) then c[i] + 1 else c[i]
  }

  lemma AdvancedOk(runs: seq<Run>, c: seq<nat>, c': seq<nat>, k: Bytes)
    requires CursorsOk(runs, c) && Advanced(runs, c, c', k)
    ensures CursorsOk(runs, c')
  {
  }

  lemma SeparationKept(runs: seq<Run>, c: seq<nat>, c': seq<nat>, k: Bytes)
    requires Mergeable(runs) && CursorsOk(runs, c) && Separated(runs, c)
    requires IsMinHead(runs, c, k) && Advanced(runs, c, c', k)
    ensures CursorsOk(runs, c') && Separated(runs, c')
  {
    AdvancedOk(runs, c, c', k);
    forall i, p, j | 0 <= i < |runs| && 0 <= p < c'[i] && 0 <= j < |runs| && Pending(runs, c', j)
      ensures Less(runs[i].records[p].key, Head(runs, c', j).key)
    {
      hide Less;
      assert Pending(runs, c, j) && AtMost(Head(runs, c, j).key, Head(runs, c', j).key);
      assert Less(k, Head(runs, c', j).key) by {
        if Less(k, Head(runs, c, j).key) && c'[j] > c[j] {
          LessTransitive(k, Head(runs, c, j).key, Head(runs, c', j).key);
        }
      }
      if p < c[i] {
        assert Less(runs[i].records[p].key, Head(runs, c, j).key);
        if c'[j] > c[j] {
          LessTransitive(runs[i].records[p].key, Head(runs, c, j).key, Head(runs, c', j).key);
        }
      }
    }
  }

  /** Consuming the head of run `i` adds exactly that record to what has been taken. */
  lemma TakenStep(rs: seq<Record>, n: nat)
    requires n < |rs|
    ensures MemOf(rs[..n + 1]) == MemOf(rs[..n])[rs[n].key := EntryOfRecord(rs[n])]
  {
    assert rs[..n + 1] == rs[..n] + [rs[n]];
    MemOfSnoc(rs[..n], rs[n]);
  }

  lemma NotYetTaken(runs: seq<Run>, c: seq<nat>, k: Bytes, i: nat)
    requires CursorsOk(runs, c) && Separated(runs, c) && IsMinHead(runs, c, k) && i < |runs|
    ensures k !in MemOf(runs[i].records[..c[i]])
  {
    hide Less;
    MemOfKey(runs[i].records[..c[i]], k);
    if Holds(runs[i].records[..c[i]], k) {
      var p :| 0 <= p < c[i] && runs[i].records[..c[i]][p].key == k;
      var j :| Offers(runs, c, j, k);
      LessIrreflexive(k);
    }
  }

  /** What one round of the outer loop emits for the winning record `w`. */
  function Emit(out: seq<Record>, w: Record): seq<Record> {
    if w.deleted then out else out + [Record(w.key, w.value, false)]
  }

  ghost predicate IsWinner(runs: seq<Run>, c: seq<nat>, k: Bytes, i: nat) {
    && Offers(runs, c, i, k)
    && forall j: nat :: Offers(runs, c, j, k) ==> runs[j].seqno <= runs[i].seqno
  }

  lemma HasAfter(runs: seq<Run>, c: seq<nat>, c': seq<nat>, k: Bytes, i: nat, k': Bytes)
    requires CursorsOk(runs, c) && Advanced(runs, c, c', k) && CursorsOk(runs, c') && i < |runs|
    ensures k' != k ==> (Has(Taken(runs, c')[i], k') <==> Has(Taken(runs, c)[i], k'))
    ensures k' != k && Has(Taken(runs, c)[i], k') ==>
              MemOf(Taken(runs, c')[i].records)[k'] == MemOf(Taken(runs, c)[i].records)[k']
    ensures Offers(runs, c, i, k) ==>
              Has(Taken(runs, c')[i], k) &&
              MemOf(Taken(runs, c')[i].records)[k] == EntryOfRecord(Head(runs, c, i))
    ensures !Offers(runs, c, i, k) ==> Taken(runs, c')[i] == Taken(runs, c)[i]
  {
    if Offers(runs, c, i, k) {
      TakenStep(runs[i].records, c[i]);
    }
  }

  lemma MergedOther(runs: seq<Run>, c: seq<nat>, c': seq<nat>, k: Bytes, out: Mem, out': Mem, k': Bytes)
    requires CursorsOk(runs, c) && Advanced(runs, c, c', k) && CursorsOk(runs, c')
    requires MergedAt(Taken(runs, c), out, k') && k' != k
    requires k' in out <==> k' in out'
    requires k' in out ==> out[k'] == out'[k']
    ensures MergedAt(Taken(runs, c'), out', k')
  {
    var t, t' := Taken(runs, c), Taken(runs, c');
    forall i | 0 <= i < |runs|
      ensures Has(t'[i], k') <==> Has(t[i], k')
      ensures Has(t[i], k') ==> MemOf(t'[i].records)[k'] == MemOf(t[i].records)[k']
    {
      HasAfter(runs, c, c', k, i, k');
    }
    if k' in out' {
      var i :| 0 <= i < |t| && Has(t[i], k');
      assert Has(t'[i], k');
    }
    forall i: nat | IsNewest(t', i, k') ensures Survives(out', MemOf(t'[i].records)[k'], k') {
      assert IsNewest(t, i, k');
    }
  }

  lemma MergedHere(runs: seq<Run>, c: seq<nat>, c': seq<nat>, k: Bytes, w: nat, out: seq<Record>)
    requires Mergeable(runs) && CursorsOk(runs, c) && Separated(runs, c)
    requires IsMinHead(runs, c, k) && Advanced(runs, c, c', k) && CursorsOk(runs, c')
    requires IsWinner(runs, c, k, w) && IsMerge(Taken(runs, c), out)
    ensures MergedAt(Taken(runs, c'), MemOf(Emit(out, Head(runs, c, w))), k)
  {
    var t, t', out' := Taken(runs, c), Taken(runs, c'), Emit(out, Head(runs, c, w));
    forall i | 0 <= i < |runs| ensures Has(t'[i], k) <==> Offers(runs, c, i, k) {
      HasAfter(runs, c, c', k, i, k);
      NotYetTaken(runs, c, k, i);
    }
    assert k !in MemOf(out) by {
      assert MergedAt(t, MemOf(out), k);
      if k in MemOf(out) {
        var i :| 0 <= i < |t| && Has(t[i], k);
        NotYetTaken(runs, c, k, i);
      }
    }
    assert Has(t'[w], k);
    if !Head(runs, c, w).deleted { MemOfSnoc(out, Record(k, Head(runs, c, w).value, false)); }
    forall i: nat | IsNewest(t', i, k) ensures Survives(MemOf(out'), MemOf(t'[i].records)[k], k) {
      assert t'[i].seqno == t'[w].seqno;
      assert i == w;
      HasAfter(runs, c, c', k, w, k);
    }
  }

  lemma OutBelow(runs: seq<Run>, c: seq<nat>, k: Bytes, out: seq<Record>)
    requires CursorsOk(runs, c) && Separated(runs, c) && IsMinHead(runs, c, k)
    requires IsMerge(Taken(runs, c), out) && out != []
    ensures Less(out[|out| - 1].key, k)
  {
    hide Less;
    var last := out[|out| - 1].key;
    var t := Taken(runs, c);
    assert last in MemOf(out);
    assert MergedAt(t, MemOf(out), last);
    var i :| 0 <= i < |t| && Has(t[i], last);
    MemOfKey(t[i].records, last);
    var p :| 0 <= p < |t[i].records| && t[i].records[p].key == last;
    var j :| Offers(runs, c, j, k);
    assert runs[i].records[p].key == last;
  }

  /** One round of the outer loop: the smallest pending key is settled for good. */
  lemma RoundKeepsMerge(runs: seq<Run>, c: seq<nat>, c': seq<nat>, k: Bytes, w: nat, out: seq<Record>)
    requires Mergeable(runs) && CursorsOk(runs, c) && Separated(runs, c)
    requires IsMinHead(runs, c, k) && Advanced(runs, c, c', k)
    requires IsWinner(runs, c, k, w) && IsMerge(Taken(runs, c), out)
    ensures CursorsOk(runs, c') && IsMerge(Taken(runs, c'), Emit(out, Head(runs, c, w)))
  {
    AdvancedOk(runs, c, c', k);
    var out', rec := Emit(out, Head(runs, c, w)), Head(runs, c, w);
    if out != [] { OutBelow(runs, c, k, out); }
    if !rec.deleted {
      AscendingSnoc(out, Record(k, rec.value, false));
      MemOfSnoc(out, Record(k, rec.value, false));
    }
    forall k' ensures MergedAt(Taken(runs, c'), MemOf(out'), k') {
      if k' == k {
        MergedHere(runs, c, c', k, w, out);
      } else {
        assert MergedAt(Taken(runs, c), MemOf(out), k');
        MergedOther(runs, c, c', k, MemOf(out), MemOf(out'), k');
      }
    }
  }

  // ---- The method ----

  /** Indices of the runs that hold records, as the source filters them once up front. */
  function ActiveRuns(runs: seq<Run>): (active: seq<nat>)
    ensures forall t :: 0 <= t < |active| ==> active[t] < |runs| && runs[active[t]].records != []
    ensures forall i :: 0 <= i < |runs| && runs[i].records != [] ==> i in active
    ensures forall s, t :: 0 <= s < t < |active| ==> active[s] < active[t]
  {
    if runs == [] then []
    else
      var n := |runs| - 1;
      ActiveRuns(runs[..n]) + if runs[n].records != [] then [n] else []
  }

  /** The records not consumed yet: the loop's measure. */
  function Remaining(runs: seq<Run>, c: seq<nat>): nat
    requires |c| == |runs|
  {
    if runs == [] then 0
    else
      var n := |runs| - 1;
      Remaining(runs[..n], c[..n]) + if c[n] < |runs[n].records| then |runs[n].records| - c[n] else 0
  }

  lemma {:induction false} RemainingShrinks(runs: seq<Run>, c: seq<nat>, c': seq<nat>)
    requires |c| == |runs| == |c'| && forall i :: 0 <= i < |runs| ==> c[i] <= c'[i]
    ensures Remaining(runs, c') <= Remaining(runs, c)
    ensures (exists i :: 0 <= i < |runs| && Pending(runs, c, i) && c[i] < c'[i]) ==>
              Remaining(runs, c') < Remaining(runs, c)
  {
    if runs != [] {
      var n := |runs| - 1;
      RemainingShrinks(runs[..n], c[..n], c'[..n]);
      if i :| 0 <= i < |runs| && Pending(runs, c, i) && c[i] < c'[i] {
        if i < n {
          assert Pending(runs[..n], c[..n], i) && c[..n][i] < c'[..n][i];
        }
      }
    }
  }

  ghost predicate MinSoFar(runs: seq<Run>, c: seq<nat>, seen: seq<nat>, key: Bytes)
    requires CursorsOk(runs, c)
  {
    && (exists i :: Offers(runs, c, i, key))
    && forall i :: i in seen && i < |runs| && Pending(runs, c, i) ==> AtMost(key, Head(runs, c, i).key)
  }

  ghost predicate NonePending(runs: seq<Run>, c: seq<nat>, seen: seq<nat>)
    requires |c| == |runs|
  {
    forall i :: i in seen && i < |runs| ==> !Pending(runs, c, i)
  }

  lemma MinStep(runs: seq<Run>, c: seq<nat>, seen: seq<nat>, i: nat, minKey: Bytes)
    requires CursorsOk(runs, c) && MinSoFar(runs, c, seen, minKey) && i < |runs| && Pending(runs, c, i)
    ensures MinSoFar(runs, c, seen + [i], if Less(Head(runs, c, i).key, minKey) then Head(runs, c, i).key else minKey)
  {
    hide Less;
    var key := Head(runs, c, i).key;
    LessTotal(key, minKey);
    assert Offers(runs, c, i, key);
    if Less(key, minKey) {
      forall j | j in seen + [i] && j < |runs| && Pending(runs, c, j) ensures AtMost(key, Head(runs, c, j).key) {
        if j in seen && minKey != Head(runs, c, j).key {
          LessTransitive(key, minKey, Head(runs, c, j).key);
        }
      }
    }
  }

  /** The first inner loop: the smallest key at any cursor. */
  method SmallestHead(runs: seq<Run>, active: seq<nat>, cursor: array<nat>) returns (minKey: Bytes, found: bool)
    requires active == ActiveRuns(runs) && CursorsOk(runs, cursor[..])
    ensures found ==> IsMinHead(runs, cursor[..], minKey)
    ensures !found ==> forall i :: 0 <= i < |runs| ==> !Pending(runs, cursor[..], i)
  {
    hide Less, AtMost, MinSoFar, IsMinHead, NonePending;
    ghost var c := cursor[..];
    minKey, found := [], false;
    NoneSeen(runs, c, active[..0]);
    for t := 0 to |active|
      invariant found ==> MinSoFar(runs, c, active[..t], minKey)
      invariant !found ==> NonePending(runs, c, active[..t])
    {
      var i := active[t];
      assert active[..t + 1] == active[..t] + [i];
      if cursor[i] < |runs[i].records| {
        var key := runs[i].records[cursor[i]].key;
        if found {
          MinStep(runs, c, active[..t], i, minKey);
        } else {
          FirstPending(runs, c, active[..t], i);
        }
        if !found || Less(key, minKey) {
          minKey, found := key, true;
        }
      } else {
        PendingSkip(runs, c, active[..t], i);
        if found { MinSkip(runs, c, active[..t], i, minKey); }
      }
    }
    assert active[..|active|] == active;
    AllSeen(runs, c, active, found, minKey);
  }

  lemma NoneSeen(runs: seq<Run>, c: seq<nat>, seen: seq<nat>)
    requires |c| == |runs| && seen == []
    ensures NonePending(runs, c, seen)
  {
  }

  lemma PendingSkip(runs: seq<Run>, c: seq<nat>, seen: seq<nat>, i: nat)
    requires |c| == |runs| && i < |runs| && !Pending(runs, c, i)
    ensures NonePending(runs, c, seen) ==> NonePending(runs, c, seen + [i])
  {
  }

  lemma MinSkip(runs: seq<Run>, c: seq<nat>, seen: seq<nat>, i: nat, minKey: Bytes)
    requires CursorsOk(runs, c) && MinSoFar(runs, c, seen, minKey) && i < |runs| && !Pending(runs, c, i)
    ensures MinSoFar(runs, c, seen + [i], minKey)
  {
    hide Less;
  }

  lemma AllSeen(runs: seq<Run>, c: seq<nat>, active: seq<nat>, found: bool, minKey: Bytes)
    requires active == ActiveRuns(runs) && CursorsOk(runs, c)
    requires found ==> MinSoFar(runs, c, active, minKey)
    requires !found ==> NonePending(runs, c, active)
    ensures found ==> IsMinHead(runs, c, minKey)
    ensures !found ==> forall i :: 0 <= i < |runs| ==> !Pending(runs, c, i)
  {
    hide Less, ActiveRuns;
  }

  lemma FirstPending(runs: seq<Run>, c: seq<nat>, seen: seq<nat>, i: nat)
    requires CursorsOk(runs, c) && i < |runs| && Pending(runs, c, i)
    requires NonePending(runs, c, seen)
    ensures MinSoFar(runs, c, seen + [i], Head(runs, c, i).key)
  {
    assert Offers(runs, c, i, Head(runs, c, i).key);
  }

  /** The runs in `seen` have been looked at; `winner` is the newest of them that offered `k`. */
  ghost predicate WinnerSoFar(runs: seq<Run>, c: seq<nat>, seen: seq<nat>, k: Bytes, won: bool, winner: nat) {
    if won then
      && Offers(runs, c, winner, k)
      && forall i :: i in seen && Offers(runs, c, i, k) ==> runs[i].seqno <= runs[winner].seqno
    else
      forall i :: i in seen ==> !Offers(runs, c, i, k)
  }

  /** The runs in `seen` have given up `k` if they offered it; no other cursor has moved. */
  ghost predicate AdvancedIn(runs: seq<Run>, c: seq<nat>, now: seq<nat>, seen: seq<nat>, k: Bytes) {
    |c| == |runs| == |now| &&
    forall i :: 0 <= i < |runs| ==> now[i] == if i in seen && Offers(runs, c, i, k) then c[i] + 1 else c[i]
  }

  lemma ConsumeStep(runs: seq<Run>, c: seq<nat>, now: seq<nat>, seen: seq<nat>, i: nat, k: Bytes)
    requires AdvancedIn(runs, c, now, seen, k) && i < |runs| && i !in seen
    ensures now[i] == c[i]
    ensures AdvancedIn(runs, c, if Offers(runs, c, i, k) then now[i := c[i] + 1] else now, seen + [i], k)
  {
  }

  lemma WinnerStep(runs: seq<Run>, c: seq<nat>, seen: seq<nat>, k: Bytes, won: bool, winner: nat, i: nat)
    requires WinnerSoFar(runs, c, seen, k, won, winner) && i < |runs|
    ensures !Offers(runs, c, i, k) ==> WinnerSoFar(runs, c, seen + [i], k, won, winner)
    ensures Offers(runs, c, i, k) ==>
              if !won || runs[i].seqno > runs[winner].seqno
              then WinnerSoFar(runs, c, seen + [i], k, true, i)
              else WinnerSoFar(runs, c, seen + [i], k, won, winner)
  {
  }

  /** The second inner loop: every run offering `minKey` gives it up, the newest one wins. */
  method ConsumeHeads(runs: seq<Run>, active: seq<nat>, cursor: array<nat>, minKey: Bytes) returns (winner: nat)
    requires active == ActiveRuns(runs) && CursorsOk(runs, cursor[..]) && IsMinHead(runs, cursor[..], minKey)
    modifies cursor
    ensures CursorsOk(runs, old(cursor[..])) && Advanced(runs, old(cursor[..]), cursor[..], minKey)
    ensures IsWinner(runs, old(cursor[..]), minKey, winner)
  {
    hide Less, AtMost, IsMinHead, WinnerSoFar, AdvancedIn, Advanced, IsWinner, ActiveRuns;
    ghost var c := cursor[..];
    var won := false;
    winner := 0;
    NothingConsumed(runs, c, minKey);
    assert active[..0] == [];
    for t := 0 to |active|
      invariant AdvancedIn(runs, c, cursor[..], active[..t], minKey)
      invariant WinnerSoFar(runs, c, active[..t], minKey, won, winner)
      invariant won ==> winner < |runs|
    {
      var i := active[t];
      ghost var now := cursor[..];
      assert active[..t + 1] == active[..t] + [i];
      ConsumeStep(runs, c, now, active[..t], i, minKey);
      WinnerStep(runs, c, active[..t], minKey, won, winner, i);
      assert now[i] == cursor[i];
      if cursor[i] < |runs[i].records| && runs[i].records[cursor[i]].key == minKey {
        cursor[i] := cursor[i] + 1;
        assert cursor[..] == now[i := c[i] + 1];
        if !won || runs[i].seqno > runs[winner].seqno {
          winner, won := i, true;
        }
      }
    }
    assert active[..|active|] == active;
    AllConsumed(runs, c, cursor[..], active, minKey, won, winner);
  }

  lemma NothingConsumed(runs: seq<Run>, c: seq<nat>, k: Bytes)
    requires CursorsOk(runs, c)
    ensures AdvancedIn(runs, c, c, [], k) && WinnerSoFar(runs, c, [], k, false, 0)
  {
  }

  lemma AllConsumed(runs: seq<Run>, c: seq<nat>, now: seq<nat>, active: seq<nat>, k: Bytes, won: bool, winner: nat)
    requires active == ActiveRuns(runs) && CursorsOk(runs, c) && IsMinHead(runs, c, k)
    requires AdvancedIn(runs, c, now, active, k) && WinnerSoFar(runs, c, active, k, won, winner)
    ensures Advanced(runs, c, now, k) && IsWinner(runs, c, k, winner)
  {
  }

  /** Merges the runs: ascending keys, the newest record of each, tombstones consumed. */
  method MergeRuns(runs: seq<Run>) returns (out: seq<Record>)
    requires Mergeable(runs)
    ensures IsMerge(runs, out)
    ensures forall j :: 0 <= j < |out| ==> !out[j].deleted
  {
    hide Separated, IsMerge, Advanced, IsMinHead, IsWinner, Mergeable, Remaining, ActiveRuns, CursorsOk;
    var active := ActiveRuns(runs);
    var cursor := new nat[|runs|](_ => 0);
    out := [];
    NothingTaken(runs, cursor[..]);
    while true
      invariant CursorsOk(runs, cursor[..]) && Separated(runs, cursor[..])
      invariant IsMerge(Taken(runs, cursor[..]), out)
      invariant forall j :: 0 <= j < |out| ==> !out[j].deleted
      decreases Remaining(runs, cursor[..])
    {
      var minKey, found := SmallestHead(runs, active, cursor);
      if !found { break; }
      ghost var c := cursor[..];
      var winner := ConsumeHeads(runs, active, cursor, minKey);
      SeparationKept(runs, c, cursor[..], minKey);
      RoundKeepsMerge(runs, c, cursor[..], minKey, winner, out);
      RoundConsumes(runs, c, cursor[..], minKey, winner);
      var w := runs[winner].records[cursor[winner] - 1];
      if !w.deleted {
        out := out + [Record(w.key, w.value, false)];
      }
    }
    AllTaken(runs, cursor[..]);
  }

  /** A round uses records up, and the winner's record is the one its cursor just passed. */
  lemma RoundConsumes(runs: seq<Run>, c: seq<nat>, c': seq<nat>, k: Bytes, w: nat)
    requires CursorsOk(runs, c) && IsMinHead(runs, c, k) && Advanced(runs, c, c', k) && IsWinner(runs, c, k, w)
    ensures Remaining(runs, c') < Remaining(runs, c)
    ensures w < |runs| && 0 < c'[w] <= |runs[w].records| && runs[w].records[c'[w] - 1] == Head(runs, c, w)
  {
    hide Less, AtMost, Remaining;
    RemainingShrinks(runs, c, c');
  }

  lemma NothingTaken(runs: seq<Run>, c: seq<nat>)
    requires |c| == |runs| && forall i :: 0 <= i < |runs| ==> c[i] == 0
    ensures CursorsOk(runs, c) && Separated(runs, c) && IsMerge(Taken(runs, c), [])
  {
  }

  lemma AllTaken(runs: seq<Run>, c: seq<nat>)
    requires CursorsOk(runs, c) && forall i :: 0 <= i < |runs| ==> !Pending(runs, c, i)
    ensures Taken(runs, c) == runs
  {
    forall i | 0 <= i < |runs| ensures Taken(runs, c)[i] == runs[i] {
      assert !Pending(runs, c, i);
    }
  }

  // ---- What the merge means ----

  /** Replaying runs oldest first. */
  function ReplayRuns(runs: seq<Run>): Mem {
    if runs == [] then map[] else ReplayRuns(runs[..|runs| - 1]) + MemOf(runs[|runs| - 1].records)
  }

  ghost predicate OldestFirst(runs: seq<Run>) {
    forall i, j :: 0 <= i < j < |runs| ==> runs[i].seqno < runs[j].seqno
  }

  ghost predicate SameRuns(a: seq<Run>, b: seq<Run>) {
    && (forall i :: 0 <= i < |a| ==> a[i] in b)
    && (forall i :: 0 <= i < |b| ==> b[i] in a)
  }

  lemma {:induction false} ReplayFindsNewest(runs: seq<Run>, k: Bytes) returns (i: nat)
    requires OldestFirst(runs) && k in ReplayRuns(runs)
    ensures IsNewest(runs, i, k) && MemOf(runs[i].records)[k] == ReplayRuns(runs)[k]
  {
    var n := |runs| - 1;
    if Has(runs[n], k) {
      i := n;
    } else {
      i := ReplayFindsNewest(runs[..n], k);
      assert Has(runs[i], k);
      forall j | 0 <= j < |runs| && Has(runs[j], k) ensures runs[j].seqno <= runs[i].seqno {
        assert j < n ==> Has(runs[..n][j], k);
      }
    }
  }

  lemma {:induction false} ReplayHas(runs: seq<Run>, i: nat, k: Bytes)
    requires i < |runs| && Has(runs[i], k)
    ensures k in ReplayRuns(runs)
  {
    if i < |runs| - 1 { ReplayHas(runs[..|runs| - 1], i, k); }
  }

  /** A merge of runs given in any order holds what replaying them oldest to newest leaves
      visible. */
  lemma MergeIsReplay(runs: seq<Run>, sorted: seq<Run>, out: seq<Record>)
    requires IsMerge(runs, out) && SameRuns(runs, sorted) && OldestFirst(sorted)
    ensures MemOf(out) == Stripped(ReplayRuns(sorted))
    ensures Live(MemOf(out)) == Live(ReplayRuns(sorted))
  {
    forall k ensures k in MemOf(out) <==> k in Stripped(ReplayRuns(sorted))
             ensures k in MemOf(out) ==> MemOf(out)[k] == ReplayRuns(sorted)[k]
    {
      assert MergedAt(runs, MemOf(out), k);
      if k in ReplayRuns(sorted) {
        var s := ReplayFindsNewest(sorted, k);
        var i :| 0 <= i < |runs| && runs[i] == sorted[s];
        NewestTransfers(runs, sorted, i, s, k);
      } else if k in MemOf(out) {
        var i :| 0 <= i < |runs| && Has(runs[i], k);
        var s :| 0 <= s < |sorted| && sorted[s] == runs[i];
        ReplayHas(sorted, s, k);
      }
    }
  }

  lemma NewestTransfers(runs: seq<Run>, sorted: seq<Run>, i: nat, s: nat, k: Bytes)
    requires SameRuns(runs, sorted) && i < |runs| && IsNewest(sorted, s, k) && runs[i] == sorted[s]
    ensures IsNewest(runs, i, k)
  {
    forall j | 0 <= j < |runs| && Has(runs[j], k) ensures runs[j].seqno <= runs[i].seqno {
      var t :| 0 <= t < |sorted| && sorted[t] == runs[j];
    }
  }

  /** The entries that are not tombstones. */
  function Stripped(m: Mem): Mem {
    map k | k in m && !m[k].deleted :: m[k]
  }

  /** There always is a merge: what the replay leaves visible, as a list. */
  lemma MergeExists(runs: seq<Run>, sorted: seq<Run>) returns (out: seq<Record>)
    requires SameRuns(runs, sorted) && OldestFirst(sorted)
    ensures IsMerge(runs, out)
  {
    hide SortedRecords, Ascending;
    var m := Stripped(ReplayRuns(sorted));
    out := SortedRecords(m);
    SortedRecordsCorrect(m);
    forall k ensures MergedAt(runs, m, k) {
      if k in ReplayRuns(sorted) {
        var s := ReplayFindsNewest(sorted, k);
        assert sorted[s] in runs;
      }
      forall i: nat | IsNewest(runs, i, k) ensures Survives(m, MemOf(runs[i].records)[k], k) {
        NewestSurvives(runs, sorted, i, k);
      }
    }
  }

  lemma NewestSurvives(runs: seq<Run>, sorted: seq<Run>, i: nat, k: Bytes)
    requires SameRuns(runs, sorted) && OldestFirst(sorted) && IsNewest(runs, i, k)
    ensures Survives(Stripped(ReplayRuns(sorted)), MemOf(runs[i].records)[k], k)
  {
    hide MemOf;
    var t :| 0 <= t < |sorted| && sorted[t] == runs[i];
    ReplayHas(sorted, t, k);
    var s := ReplayFindsNewest(sorted, k);
    var j :| 0 <= j < |runs| && runs[j] == sorted[s];
    assert s == t;
  }

  /** Whatever order the same runs are given in, the merge is the same list of records. */
  lemma MergeIgnoresOrder(a: seq<Run>, b: seq<Run>, sorted: seq<Run>, outA: seq<Record>, outB: seq<Record>)
    requires SameRuns(a, sorted) && SameRuns(b, sorted) && OldestFirst(sorted)
    requires IsMerge(a, outA) && IsMerge(b, outB)
    ensures outA == outB
  {
    MergeIsReplay(a, sorted, outA);
    MergeIsReplay(b, sorted, outB);
    AscendingUnique(outA, outB);
  }
}
