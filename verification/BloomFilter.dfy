/** The bloom block of a table (src/sstable/bloom.rs). Hashing is any fixed function of the key,
    the number of bits and the number of hashes: the seed never changes. */
module BloomFilter {
  import opened Outcomes
  import opened Bytes

  const MAX_NUM_HASHES: nat := 255

  /** A word of the filter, bit 0 first. */
  type Word = w: seq<bool> | |w| == 64 witness seq(64, _ => false)

  datatype Bloom = Bloom(words: seq<Word>, hashes: nat)

  /** The bit positions of a key, before reduction to the filter's size. */
  type Hash = (Bytes, nat, nat) -> seq<nat>

  ghost predicate Usable(b: Bloom) {
    b.words != [] && 1 <= b.hashes <= MAX_NUM_HASHES
  }

  function Positions(hash: Hash, b: Bloom, key: Bytes): seq<nat> {
    hash(key, 64 * |b.words|, b.hashes)
  }

  predicate Bit(b: Bloom, p: nat)
    requires b.words != []
  {
    b.words[(p / 64) % |b.words|][p % 64]
  }

  function SetBit(b: Bloom, p: nat): (b': Bloom)
    requires b.words != []
    ensures |b'.words| == |b.words| && b'.hashes == b.hashes
    ensures Bit(b', p) && forall q: nat :: Bit(b, q) ==> Bit(b', q)
  {
    var w := (p / 64) % |b.words|;
    b.(words := b.words[w := b.words[w][p % 64 := true]])
  }

  function SetBits(b: Bloom, ps: seq<nat>): (b': Bloom)
    requires b.words != []
    ensures |b'.words| == |b.words| && b'.hashes == b.hashes
    ensures forall q: nat :: Bit(b, q) ==> Bit(b', q)
    ensures forall i :: 0 <= i < |ps| ==> Bit(b', ps[i])
  {
    if ps == [] then b
    else
      var n := |ps| - 1;
      SetBit(SetBits(b, ps[..n]), ps[n])
  }

  function Insert(hash: Hash, b: Bloom, key: Bytes): (b': Bloom)
    requires Usable(b)
    ensures Usable(b')
  {
    SetBits(b, Positions(hash, b, key))
  }

  predicate Contains(hash: Hash, b: Bloom, key: Bytes)
    requires b.words != []
  {
    var ps := Positions(hash, b, key);
    forall i :: 0 <= i < |ps| ==> Bit(b, ps[i])
  }

  /** No false negatives: a key stays contained once inserted, whatever is inserted later. */
  lemma InsertKeepsKeys(hash: Hash, b: Bloom, key: Bytes, earlier: Bytes)
    requires Usable(b)
    ensures Contains(hash, Insert(hash, b, key), key)
    ensures Contains(hash, b, earlier) ==> Contains(hash, Insert(hash, b, key), earlier)
  {
    assert Positions(hash, Insert(hash, b, key), earlier) == Positions(hash, b, earlier);
  }

  // ---- Which bits are set ----

  /** Two positions fall on the same bit of the filter. */
  ghost predicate SameBit(b: Bloom, p: nat, q: nat)
    requires b.words != []
  {
    (p / 64) % |b.words| == (q / 64) % |b.words| && p % 64 == q % 64
  }

  /** Some position of `key` falls on the bit of `q`. */
  ghost predicate Probed(hash: Hash, b: Bloom, key: Bytes, q: nat)
    requires b.words != []
  {
    exists i :: 0 <= i < |Positions(hash, b, key)| && SameBit(b, Positions(hash, b, key)[i], q)
  }

  ghost predicate ProbedBySome(hash: Hash, b: Bloom, keys: seq<Bytes>, q: nat)
    requires b.words != []
  {
    exists i :: 0 <= i < |keys| && Probed(hash, b, keys[i], q)
  }

  lemma SetBitOnly(b: Bloom, p: nat, q: nat)
    requires b.words != []
    ensures Bit(SetBit(b, p), q) <==> Bit(b, q) || SameBit(b, p, q)
  {
  }

  lemma {:induction false} SetBitsOnly(b: Bloom, ps: seq<nat>, q: nat)
    requires b.words != []
    ensures Bit(SetBits(b, ps), q) <==> Bit(b, q) || exists i :: 0 <= i < |ps| && SameBit(b, ps[i], q)
  {
    if ps != [] {
      hide Bit, SetBit;
      var n := |ps| - 1;
      SetBitsOnly(b, ps[..n], q);
      SetBitOnly(SetBits(b, ps[..n]), ps[n], q);
      assert forall i :: 0 <= i < n ==> ps[..n][i] == ps[i];
    }
  }

  /** The filter after inserting `keys` one after another. */
  function InsertAll(hash: Hash, b: Bloom, keys: seq<Bytes>): (b': Bloom)
    requires Usable(b)
    ensures Usable(b') && |b'.words| == |b.words| && b'.hashes == b.hashes
  {
    if keys == [] then b
    else
      var n := |keys| - 1;
      Insert(hash, InsertAll(hash, b, keys[..n]), keys[n])
  }

  lemma InsertAllSnoc(hash: Hash, b: Bloom, keys: seq<Bytes>, key: Bytes)
    requires Usable(b)
    ensures InsertAll(hash, b, keys + [key]) == Insert(hash, InsertAll(hash, b, keys), key)
    ensures InsertAll(hash, b, []) == b
  {
    hide Insert;
    assert (keys + [key])[..|keys|] == keys;
  }

  lemma {:induction false} BitsOfKeys(hash: Hash, b: Bloom, keys: seq<Bytes>, q: nat)
    requires Usable(b)
    ensures Bit(InsertAll(hash, b, keys), q) <==>
              Bit(b, q) || ProbedBySome(hash, b, keys, q)
  {
    if keys != [] {
      hide Bit, SetBits, SameBit;
      var n := |keys| - 1;
      var before := InsertAll(hash, b, keys[..n]);
      BitsOfKeys(hash, b, keys[..n], q);
      SetBitsOnly(before, Positions(hash, before, keys[n]), q);
      SameSize(hash, before, b, keys[n], q);
      assert forall i :: 0 <= i < n ==> keys[..n][i] == keys[i];
    }
  }

  lemma SameSize(hash: Hash, b: Bloom, c: Bloom, key: Bytes, q: nat)
    requires b.words != [] && |b.words| == |c.words| && b.hashes == c.hashes
    ensures Positions(hash, b, key) == Positions(hash, c, key)
    ensures Probed(hash, b, key, q) <==> Probed(hash, c, key, q)
    ensures Probed(hash, b, key, q) <==>
              exists i :: 0 <= i < |Positions(hash, b, key)| && SameBit(b, Positions(hash, b, key)[i], q)
    ensures forall p: nat :: SameBit(b, p, q) <==> SameBit(c, p, q)
  {
  }

  /** Exactly which keys a filter lets through: those all of whose bits were set at first or by one
      of the keys inserted. */
  lemma ContainsExact(hash: Hash, b: Bloom, keys: seq<Bytes>, key: Bytes)
    requires Usable(b)
    ensures var ps := Positions(hash, b, key);
            Contains(hash, InsertAll(hash, b, keys), key) <==>
              forall j :: 0 <= j < |ps| ==>
                Bit(b, ps[j]) || ProbedBySome(hash, b, keys, ps[j])
  {
    hide Bit, InsertAll, ProbedBySome;
    var after, ps := InsertAll(hash, b, keys), Positions(hash, b, key);
    assert Positions(hash, after, key) == ps;
    forall j | 0 <= j < |ps|
      ensures Bit(after, ps[j]) <==> Bit(b, ps[j]) || ProbedBySome(hash, b, keys, ps[j])
    {
      BitsOfKeys(hash, b, keys, ps[j]);
    }
  }

  /** Every key inserted is let through. */
  lemma {:induction false} InsertAllKeeps(hash: Hash, b: Bloom, keys: seq<Bytes>, i: nat)
    requires Usable(b) && i < |keys|
    ensures Contains(hash, InsertAll(hash, b, keys), keys[i])
  {
    hide Contains, Insert;
    var n := |keys| - 1;
    InsertKeepsKeys(hash, InsertAll(hash, b, keys[..n]), keys[n], keys[i]);
    if i < n { InsertAllKeeps(hash, b, keys[..n], i); }
  }

  // ---- Words as integers ----

  function BitsValue(bits: seq<bool>): nat {
    if bits == [] then 0 else (if bits[0] then 1 else 0) + 2 * BitsValue(bits[1..])
  }

  function ValueBits(v: nat, n: nat): (bits: seq<bool>)
    ensures |bits| == n
  {
    if n == 0 then [] else [v % 2 == 1] + ValueBits(v / 2, n - 1)
  }

  function Pow2(n: nat): (p: nat)
    ensures p > 0
  {
    if n == 0 then 1 else 2 * Pow2(n - 1)
  }

  lemma {:induction false} BitsRoundTrip(bits: seq<bool>)
    ensures ValueBits(BitsValue(bits), |bits|) == bits
    ensures BitsValue(bits) < Pow2(|bits|)
  {
    if bits != [] {
      BitsRoundTrip(bits[1..]);
      assert BitsValue(bits) / 2 == BitsValue(bits[1..]);
    }
  }

  lemma {:induction false} ValueRoundTrip(v: nat, n: nat)
    requires v < Pow2(n)
    ensures BitsValue(ValueBits(v, n)) == v
  {
    if n > 0 {
      ValueRoundTrip(v / 2, n - 1);
      assert ValueBits(v, n)[1..] == ValueBits(v / 2, n - 1);
    }
  }

  /** Bit `j` of a word's integer is bit `j` of the word. */
  lemma {:induction false} BitOfValue(bits: seq<bool>, j: nat)
    requires j < |bits|
    ensures (BitsValue(bits) / Pow2(j)) % 2 == if bits[j] then 1 else 0
  {
    hide BitsValue, Pow2;
    FirstBit(bits);
    if j > 0 {
      BitOfValue(bits[1..], j - 1);
      Pow2Next(j);
      HalveFirst(if bits[0] then 1 else 0, BitsValue(bits[1..]), Pow2(j - 1));
    } else {
      Pow2Zero();
      LowestBit(if bits[0] then 1 else 0, BitsValue(bits[1..]));
    }
  }

  lemma FirstBit(bits: seq<bool>)
    requires bits != []
    ensures BitsValue(bits) == (if bits[0] then 1 else 0) + 2 * BitsValue(bits[1..])
  {
  }

  lemma Pow2Next(n: nat)
    requires n > 0
    ensures Pow2(n) == 2 * Pow2(n - 1)
  {
  }

  lemma LowestBit(low: nat, v: nat)
    requires low <= 1
    ensures ((low + 2 * v) / 1) % 2 == low
  {
  }

  lemma HalveFirst(low: nat, v: nat, p: nat)
    requires low <= 1 && p > 0
    ensures (low + 2 * v) / (2 * p) == v / p
  {
    var q, r := v / p, v % p;
    assert v == p * q + r;
    DivUnique(low + 2 * v, 2 * p, q, low + 2 * r);
  }

  lemma DivUnique(x: nat, d: nat, q: nat, r: nat)
    requires d > 0 && r < d && x == d * q + r
    ensures x / d == q
  {
    if x / d < q {
      TimesMonotone(d, x / d + 1, q);
    } else if x / d > q {
      TimesMonotone(d, q + 1, x / d);
    }
  }

  lemma TimesMonotone(d: nat, a: nat, b: nat)
    requires a <= b
    ensures d * a <= d * b && d * (a + 1) == d * a + d
  {
  }

  lemma Pow2Plus8(n: nat)
    ensures Pow2(n + 8) == 256 * Pow2(n)
  {
    assert Pow2(n + 2) == 2 * Pow2(n + 1);
    assert Pow2(n + 4) == 2 * Pow2(n + 3);
    assert Pow2(n + 6) == 2 * Pow2(n + 5);
    assert Pow2(n + 8) == 2 * Pow2(n + 7);
  }

  lemma Pow2Of64()
    ensures Pow2(64) == U64_MAX + 1
  {
    hide Pow2;
    assert Pow2(0) == 1 by { Pow2Zero(); }
    Pow2Plus8(0);
    Pow2Plus8(8);
    Pow2Plus8(16);
    Pow2Plus8(24);
    Pow2Plus8(32);
    Pow2Plus8(40);
    Pow2Plus8(48);
    Pow2Plus8(56);
  }

  lemma Pow2Zero()
    ensures Pow2(0) == 1
  {
  }

  // ---- The block ----

  function EncodeWords(words: seq<Word>): (bs: Bytes)
    ensures |bs| == 8 * |words|
  {
    if words == [] then [] else PutU64(BitsValue(words[0])) + EncodeWords(words[1..])
  }

  /** `[num_hashes u32][words u64 x N]`. */
  function BloomBytes(b: Bloom): Bytes {
    PutU32(b.hashes) + EncodeWords(b.words)
  }

  lemma {:induction false} WordStands(words: seq<Word>, w: nat)
    requires w < |words|
    ensures U64At(EncodeWords(words), 8 * w) == BitsValue(words[w])
  {
    hide U64At, BitsValue, PutU64, At;
    var bytes := EncodeWords(words);
    AtWhole(bytes);
    AtSplit(bytes, 0, PutU64(BitsValue(words[0])), EncodeWords(words[1..]));
    BitsRoundTrip(words[0]);
    Pow2Of64();
    if w == 0 {
      U64Stands(bytes, 0, BitsValue(words[0]));
    } else {
      WordStands(words[1..], w - 1);
      SameInteger(bytes, 8, EncodeWords(words[1..]), 8 * (w - 1));
    }
  }

  lemma SameInteger(bytes: Bytes, start: nat, chunk: Bytes, offset: nat)
    requires At(bytes, start, chunk) && offset + 8 <= |chunk|
    ensures U64At(bytes, start + offset) == U64At(chunk, offset)
  {
    assert forall i :: 0 <= i < |chunk| ==> chunk[i] == bytes[start + i];
  }

  lemma BitIs(b: Bloom, w: nat, j: nat)
    requires w < |b.words| && j < 64
    ensures Bit(b, 64 * w + j) == b.words[w][j]
  {
    assert (64 * w + j) / 64 == w && w % |b.words| == w;
  }

  /** The block bit by bit: the number of hashes, then bit `j` of word `w` in the integer at `4 + 8w`. */
  lemma BloomLaid(b: Bloom, w: nat, j: nat)
    requires Usable(b) && w < |b.words| && j < 64
    ensures |BloomBytes(b)| == 4 + 8 * |b.words| && U32At(BloomBytes(b), 0) == b.hashes
    ensures (U64At(BloomBytes(b), 4 + 8 * w) / Pow2(j)) % 2 == if Bit(b, 64 * w + j) then 1 else 0
  {
    hide U64At, U32At, BitsValue, Pow2, EncodeWords, Bit, PutU32, At;
    BitIs(b, w, j);
    var bytes := BloomBytes(b);
    AtWhole(bytes);
    AtSplit(bytes, 0, PutU32(b.hashes), EncodeWords(b.words));
    U32Stands(bytes, 0, b.hashes);
    WordStands(b.words, w);
    SameInteger(bytes, 4, EncodeWords(b.words), 8 * w);
    BitOfValue(b.words[w], j);
  }

  lemma {:induction false} EncodeWordsSnoc(ws: seq<Word>, w: Word)
    ensures EncodeWords(ws + [w]) == EncodeWords(ws) + PutU64(BitsValue(w))
  {
    hide BitsValue;
    if ws == [] {
      assert [w][1..] == [] && ws + [w] == [w];
    } else {
      EncodeWordsSnoc(ws[1..], w);
      assert (ws + [w])[1..] == ws[1..] + [w];
    }
  }

  method EncodeBloom(buf: Bytes, b: Bloom) returns (out: Bytes)
    ensures out == buf + BloomBytes(b)
  {
    out := buf + PutU32(b.hashes);
    for i := 0 to |b.words|
      invariant out == buf + PutU32(b.hashes) + EncodeWords(b.words[..i])
    {
      assert b.words[..i + 1] == b.words[..i] + [b.words[i]];
      EncodeWordsSnoc(b.words[..i], b.words[i]);
      out := out + PutU64(BitsValue(b.words[i]));
    }
    assert b.words[..|b.words|] == b.words;
  }

  function ReadWords(bytes: Bytes, offset: nat, n: nat): (ws: seq<Word>)
    requires offset + 8 * n == |bytes|
    ensures |ws| == n
    decreases n
  {
    if n == 0 then [] else [ValueBits(ReadU64(bytes, offset).value, 64)] + ReadWords(bytes, offset + 8, n - 1)
  }

  function DecodeBloom(bytes: Bytes): (r: Result<Bloom>)
    ensures r.Ok? ==> Usable(r.value)
  {
    if |bytes| < 4 || (|bytes| - 4) % 8 != 0 then Err(Corruption)
    else
      var hashes := ReadU32(bytes, 0).value;
      if hashes == 0 || hashes > MAX_NUM_HASHES then Err(Corruption)
      else
        var n := (|bytes| - 4) / 8;
        if n == 0 then Err(Corruption) else Ok(Bloom(ReadWords(bytes, 4, n), hashes))
  }

  lemma {:induction false} ReadWordsAt(bytes: Bytes, offset: nat, ws: seq<Word>)
    requires At(bytes, offset, EncodeWords(ws)) && offset + 8 * |ws| == |bytes|
    ensures ReadWords(bytes, offset, |ws|) == ws
    decreases |ws|
  {
    if ws != [] {
      AtSplit(bytes, offset, PutU64(BitsValue(ws[0])), EncodeWords(ws[1..]));
      BitsRoundTrip(ws[0]);
      Pow2Of64();
      ReadU64At(bytes, offset, BitsValue(ws[0]));
      ReadWordsAt(bytes, offset + 8, ws[1..]);
    }
  }

  /** Decoding rebuilds the very filter that was encoded, so `Contains` answers as before. */
  lemma DecodeEncodedBloom(b: Bloom)
    requires Usable(b)
    ensures DecodeBloom(BloomBytes(b)) == Ok(b)
  {
    hide PutU32, EncodeWords, ReadWords;
    var bytes := BloomBytes(b);
    AtWhole(bytes);
    AtSplit(bytes, 0, PutU32(b.hashes), EncodeWords(b.words));
    ReadU32At(bytes, 0, b.hashes);
    ReadWordsAt(bytes, 4, b.words);
  }

  lemma {:induction false} ReadWordsExact(bytes: Bytes, offset: nat, n: nat)
    requires offset + 8 * n == |bytes|
    ensures EncodeWords(ReadWords(bytes, offset, n)) == bytes[offset..]
    decreases n
  {
    if n > 0 {
      var ws, v := ReadWords(bytes, offset, n), ReadU64(bytes, offset).value;
      ReadWordsExact(bytes, offset + 8, n - 1);
      Pow2Of64();
      ValueRoundTrip(v, 64);
      assert ws[1..] == ReadWords(bytes, offset + 8, n - 1);
      assert bytes[offset..] == bytes[offset..offset + 8] + bytes[offset + 8..];
    }
  }

  /** Every block that decodes is the encoding of the filter it decodes to. */
  lemma DecodeBloomExact(bytes: Bytes)
    requires DecodeBloom(bytes).Ok?
    ensures BloomBytes(DecodeBloom(bytes).value) == bytes
  {
    var b := DecodeBloom(bytes).value;
    ReadWordsExact(bytes, 4, |b.words|);
    assert bytes == bytes[0..4] + bytes[4..];
  }
}
