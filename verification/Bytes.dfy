/** Byte strings: their lexicographic order, and the little-endian integers of src/utils. */
module Bytes {
  import opened Outcomes

  type Byte = x: int | 0 <= x < 256
  type Bytes = seq<Byte>

  const U16_MAX: nat := 0xFFFF
  const U32_MAX: nat := 0xFFFF_FFFF
  const U64_MAX: nat := 0xFFFF_FFFF_FFFF_FFFF

  // ---- Order ----

  /** Rust's `Ord` on `[u8]`: the first differing byte decides, a proper prefix is smaller. */
  predicate Less(a: Bytes, b: Bytes) {
    b != [] && (a == [] || a[0] < b[0] || (a[0] == b[0] && Less(a[1..], b[1..])))
  }

  predicate AtMost(a: Bytes, b: Bytes) { a == b || Less(a, b) }

  lemma {:induction false} LessIrreflexive(a: Bytes)
    ensures !Less(a, a)
  {
    if a != [] { LessIrreflexive(a[1..]); }
  }

  lemma {:induction false} LessTransitive(a: Bytes, b: Bytes, c: Bytes)
    requires Less(a, b) && Less(b, c)
    ensures Less(a, c)
  {
    if a != [] && a[0] == b[0] && b[0] == c[0] {
      LessTransitive(a[1..], b[1..], c[1..]);
    }
  }

  lemma {:induction false} LessTotal(a: Bytes, b: Bytes)
    ensures a == b || Less(a, b) || Less(b, a)
  {
    if a != [] && b != [] && a[0] == b[0] {
      LessTotal(a[1..], b[1..]);
      assert a[1..] == b[1..] ==> a == [a[0]] + a[1..] == b;
    }
  }

  /** Which order it is: `p` bytes agree, and then `a` ends or has the smaller byte. */
  lemma {:induction false} LessByFirstDifference(a: Bytes, b: Bytes)
    ensures Less(a, b) <==> exists p: nat :: SmallerAt(a, b, p)
  {
    if b != [] && a != [] && a[0] == b[0] {
      LessByFirstDifference(a[1..], b[1..]);
      forall p: nat | SmallerAt(a[1..], b[1..], p) ensures SmallerAt(a, b, p + 1) {
        assert a[..p + 1] == [a[0]] + a[1..][..p] && b[..p + 1] == [b[0]] + b[1..][..p];
      }
      forall p: nat | SmallerAt(a, b, p) ensures p > 0 && SmallerAt(a[1..], b[1..], p - 1) {
        assert a[1..][..p - 1] == a[..p][1..] && b[1..][..p - 1] == b[..p][1..];
      }
    } else if Less(a, b) {
      assert SmallerAt(a, b, 0);
    } else {
      forall p: nat ensures !SmallerAt(a, b, p) {
        if 0 < p <= |a| && p <= |b| { assert a[..p][0] == a[0] && b[..p][0] == b[0]; }
      }
    }
  }

  ghost predicate SmallerAt(a: Bytes, b: Bytes, p: nat) {
    p <= |a| && p < |b| && a[..p] == b[..p] && (p == |a| || a[p] < b[p])
  }

  lemma LessAsymmetric(a: Bytes, b: Bytes)
    requires Less(a, b)
    ensures !Less(b, a) && a != b
  {
    LessIrreflexive(a);
    if Less(b, a) { LessTransitive(a, b, a); }
  }

  // ---- Little-endian integers ----

  function Pow256(n: nat): (p: nat)
    ensures p > 0
  {
    if n == 0 then 1 else 256 * Pow256(n - 1)
  }

  lemma Widths()
    ensures Pow256(2) == U16_MAX + 1
    ensures Pow256(4) == U32_MAX + 1
    ensures Pow256(8) == U64_MAX + 1
  {
    assert Pow256(1) == 256;
    assert Pow256(3) == 256 * Pow256(2);
    assert Pow256(5) == 256 * Pow256(4);
    assert Pow256(7) == 256 * (256 * Pow256(5));
  }

  /** `v.to_le_bytes()` for an integer of `n` bytes. */
  function Le(v: nat, n: nat): (bs: Bytes)
    ensures |bs| == n
  {
    if n == 0 then [] else [v % 256] + Le(v / 256, n - 1)
  }

  /** `from_le_bytes`. */
  function LeValue(bs: Bytes): (v: nat)
    ensures v < Pow256(|bs|)
  {
    if bs == [] then 0 else bs[0] + 256 * LeValue(bs[1..])
  }

  lemma {:induction false} LeValueOfLe(v: nat, n: nat)
    requires v < Pow256(n)
    ensures LeValue(Le(v, n)) == v
  {
    if n > 0 {
      LeValueOfLe(v / 256, n - 1);
      assert Le(v, n)[1..] == Le(v / 256, n - 1);
    }
  }

  lemma {:induction false} LeOfLeValue(bs: Bytes)
    ensures Le(LeValue(bs), |bs|) == bs
  {
    if bs != [] {
      LeOfLeValue(bs[1..]);
      assert LeValue(bs) / 256 == LeValue(bs[1..]);
    }
  }

  function PutU16(v: nat): (bs: Bytes) ensures |bs| == 2 { Le(v, 2) }
  function PutU32(v: nat): (bs: Bytes) ensures |bs| == 4 { Le(v, 4) }
  function PutU64(v: nat): (bs: Bytes) ensures |bs| == 8 { Le(v, 8) }

  /** `read_exact`: the bounds check comes first. An `offset + size` beyond `usize` is past
      every buffer, so the source's two checks give the same error here. */
  function ReadExact(bytes: Bytes, offset: nat, size: nat): Result<Bytes> {
    if offset + size > |bytes| then Err(Corruption) else Ok(bytes[offset..offset + size])
  }

  function ReadLe(bytes: Bytes, offset: nat, size: nat): (r: Result<nat>)
    ensures r.Ok? <==> offset + size <= |bytes|
    ensures r.Ok? ==> r.value < Pow256(size) && bytes[offset..offset + size] == Le(r.value, size)
  {
    var bs :- ReadExact(bytes, offset, size);
    LeOfLeValue(bs);
    Ok(LeValue(bs))
  }

  function ReadU16(bytes: Bytes, offset: nat): (r: Result<nat>)
    ensures r.Ok? <==> offset + 2 <= |bytes|
    ensures r.Ok? ==> r.value <= U16_MAX && bytes[offset..offset + 2] == PutU16(r.value)
  {
    Widths();
    ReadLe(bytes, offset, 2)
  }

  function ReadU32(bytes: Bytes, offset: nat): (r: Result<nat>)
    ensures r.Ok? <==> offset + 4 <= |bytes|
    ensures r.Ok? ==> r.value <= U32_MAX && bytes[offset..offset + 4] == PutU32(r.value)
  {
    Widths();
    ReadLe(bytes, offset, 4)
  }

  function ReadU64(bytes: Bytes, offset: nat): (r: Result<nat>)
    ensures r.Ok? <==> offset + 8 <= |bytes|
    ensures r.Ok? ==> r.value <= U64_MAX && bytes[offset..offset + 8] == PutU64(r.value)
  {
    Widths();
    ReadLe(bytes, offset, 8)
  }

  // ---- The same integers, byte by byte ----

  function U16At(bytes: Bytes, offset: nat): (v: nat)
    requires offset + 2 <= |bytes|
    ensures v <= 0xFFFF
  {
    var low: nat, high: nat := bytes[offset], bytes[offset + 1];
    low + 0x100 * high
  }

  function U32At(bytes: Bytes, offset: nat): (v: nat)
    requires offset + 4 <= |bytes|
    ensures v <= 0xFFFF_FFFF
  {
    U16At(bytes, offset) + 0x1_0000 * U16At(bytes, offset + 2)
  }

  function U64At(bytes: Bytes, offset: nat): (v: nat)
    requires offset + 8 <= |bytes|
    ensures v <= 0xFFFF_FFFF_FFFF_FFFF
  {
    U32At(bytes, offset) + 0x1_0000_0000 * U32At(bytes, offset + 4)
  }

  lemma {:induction false} LeValueSplit(a: Bytes, b: Bytes)
    ensures LeValue(a + b) == LeValue(a) + Pow256(|a|) * LeValue(b)
  {
    if a == [] {
      assert a + b == b;
    } else {
      LeValueSplit(a[1..], b);
      assert (a + b)[1..] == a[1..] + b;
      TimesAssoc(Pow256(|a| - 1), LeValue(b));
    }
  }

  lemma TimesAssoc(x: nat, y: nat)
    ensures 256 * (x * y) == (256 * x) * y
  {
  }

  lemma LeValueOfTwo(a: Byte, b: Byte)
    ensures LeValue([a, b]) == U16At([a, b], 0)
  {
    assert [a, b][1..] == [b] && [b][1..] == [];
  }

  /** What the readers give, on any bytes. */
  lemma ReadU16Is(bytes: Bytes, offset: nat)
    requires offset + 2 <= |bytes|
    ensures ReadU16(bytes, offset) == Ok(U16At(bytes, offset))
    ensures LeValue(bytes[offset..offset + 2]) == U16At(bytes, offset)
  {
    assert bytes[offset..offset + 2] == [bytes[offset], bytes[offset + 1]];
    LeValueOfTwo(bytes[offset], bytes[offset + 1]);
  }

  lemma ReadU32Is(bytes: Bytes, offset: nat)
    requires offset + 4 <= |bytes|
    ensures ReadU32(bytes, offset) == Ok(U32At(bytes, offset))
    ensures LeValue(bytes[offset..offset + 4]) == U32At(bytes, offset)
  {
    hide U16At, LeValue, ReadU16;
    ReadU16Is(bytes, offset);
    ReadU16Is(bytes, offset + 2);
    Widths();
    LeValueSplit(bytes[offset..offset + 2], bytes[offset + 2..offset + 4]);
    assert bytes[offset..offset + 4] == bytes[offset..offset + 2] + bytes[offset + 2..offset + 4];
  }

  lemma ReadU64Is(bytes: Bytes, offset: nat)
    requires offset + 8 <= |bytes|
    ensures ReadU64(bytes, offset) == Ok(U64At(bytes, offset))
  {
    hide U32At, LeValue, ReadU32;
    ReadU32Is(bytes, offset);
    ReadU32Is(bytes, offset + 4);
    Widths();
    LeValueSplit(bytes[offset..offset + 4], bytes[offset + 4..offset + 8]);
    assert bytes[offset..offset + 8] == bytes[offset..offset + 4] + bytes[offset + 4..offset + 8];
  }

  /** An integer stands where its bytes say so. */
  lemma U16Stands(bytes: Bytes, offset: nat, v: nat)
    requires v <= U16_MAX
    ensures At(bytes, offset, PutU16(v)) <==> offset + 2 <= |bytes| && U16At(bytes, offset) == v
  {
    hide U16At, Le, LeValue;
    if offset + 2 <= |bytes| { ReadU16Is(bytes, offset); }
    if At(bytes, offset, PutU16(v)) { ReadU16At(bytes, offset, v); }
  }

  lemma U32Stands(bytes: Bytes, offset: nat, v: nat)
    requires v <= U32_MAX
    ensures At(bytes, offset, PutU32(v)) <==> offset + 4 <= |bytes| && U32At(bytes, offset) == v
  {
    hide U32At, Le, LeValue;
    if offset + 4 <= |bytes| { ReadU32Is(bytes, offset); }
    if At(bytes, offset, PutU32(v)) { ReadU32At(bytes, offset, v); }
  }

  lemma U64Stands(bytes: Bytes, offset: nat, v: nat)
    requires v <= U64_MAX
    ensures At(bytes, offset, PutU64(v)) <==> offset + 8 <= |bytes| && U64At(bytes, offset) == v
  {
    hide U64At, Le, LeValue;
    if offset + 8 <= |bytes| { ReadU64Is(bytes, offset); }
    if At(bytes, offset, PutU64(v)) { ReadU64At(bytes, offset, v); }
  }

  // ---- Text ----

  predicate Continues(b: Byte) { 0x80 <= b <= 0xBF }

  /** The length of the well-formed UTF-8 sequence `bs` starts with, 0 if it starts with none
      (table 3-7 of the Unicode Standard). */
  function Utf8Len(bs: Bytes): (n: nat)
    ensures n <= |bs|
  {
    if bs == [] then 0
    else if bs[0] <= 0x7F then 1
    else if |bs| >= 2 && 0xC2 <= bs[0] <= 0xDF && Continues(bs[1]) then 2
    else if |bs| >= 3 && 0xE0 <= bs[0] <= 0xEF && Continues(bs[1]) && Continues(bs[2])
            && (bs[0] == 0xE0 ==> bs[1] >= 0xA0) && (bs[0] == 0xED ==> bs[1] <= 0x9F) then 3
    else if |bs| >= 4 && 0xF0 <= bs[0] <= 0xF4 && Continues(bs[1]) && Continues(bs[2]) && Continues(bs[3])
            && (bs[0] == 0xF0 ==> bs[1] >= 0x90) && (bs[0] == 0xF4 ==> bs[1] <= 0x8F) then 4
    else 0
  }

  /** `String::from_utf8` accepts `bs`. */
  predicate IsUtf8(bs: Bytes) {
    bs == [] || (Utf8Len(bs) > 0 && IsUtf8(bs[Utf8Len(bs)..]))
  }

  lemma {:induction false} AsciiIsUtf8(bs: Bytes)
    requires forall i :: 0 <= i < |bs| ==> bs[i] <= 0x7F
    ensures IsUtf8(bs)
  {
    if bs != [] { AsciiIsUtf8(bs[1..]); }
  }

  // ---- Locating an encoding inside a larger buffer ----

  /** `chunk` stands at `offset` in `bytes`. Every decoder below is proved from this. */
  ghost predicate At(bytes: Bytes, offset: nat, chunk: Bytes) {
    offset + |chunk| <= |bytes| && bytes[offset..offset + |chunk|] == chunk
  }

  lemma SubSlice(bytes: Bytes, lo: nat, hi: nat, i: nat, j: nat)
    requires lo <= hi <= |bytes| && i <= j <= hi - lo
    ensures bytes[lo..hi][i..j] == bytes[lo + i..lo + j]
  {
    var a, b := bytes[lo..hi][i..j], bytes[lo + i..lo + j];
    assert |a| == |b| && forall k :: 0 <= k < |a| ==> a[k] == b[k];
  }

  lemma ConcatAssoc<T>(a: seq<T>, b: seq<T>, c: seq<T>)
    ensures (a + b) + c == a + (b + c)
  {
  }

  lemma AtWhole(bytes: Bytes)
    ensures At(bytes, 0, bytes)
  {
    assert bytes[0..|bytes|] == bytes;
  }

  lemma AtInside(pre: Bytes, chunk: Bytes, post: Bytes)
    ensures At(pre + chunk + post, |pre|, chunk)
  {
  }

  lemma AtSplit(bytes: Bytes, offset: nat, a: Bytes, b: Bytes)
    ensures At(bytes, offset, a + b) <==> At(bytes, offset, a) && At(bytes, offset + |a|, b)
  {
    if At(bytes, offset, a + b) {
      assert a == (a + b)[..|a|] && b == (a + b)[|a|..];
      assert bytes[offset..offset + |a|] == bytes[offset..offset + |a + b|][..|a|];
      assert bytes[offset + |a|..offset + |a + b|] == bytes[offset..offset + |a + b|][|a|..];
    }
    if At(bytes, offset, a) && At(bytes, offset + |a|, b) {
      assert bytes[offset..offset + |a + b|]
          == bytes[offset..offset + |a|] + bytes[offset + |a|..offset + |a + b|];
    }
  }

  lemma AtIs(bytes: Bytes, offset: nat, chunk: Bytes)
    ensures At(bytes, offset, chunk) <==>
              offset + |chunk| <= |bytes| && bytes[offset..offset + |chunk|] == chunk
    ensures |chunk| == 1 ==> (At(bytes, offset, chunk) <==> offset < |bytes| && bytes[offset] == chunk[0])
  {
  }

  lemma AtPrefix(bytes: Bytes, cut: nat, offset: nat, chunk: Bytes)
    requires cut <= |bytes| && offset + |chunk| <= cut
    ensures At(bytes[..cut], offset, chunk) <==> At(bytes, offset, chunk)
  {
    assert bytes[..cut][offset..offset + |chunk|] == bytes[offset..offset + |chunk|];
  }

  lemma ReadU16At(bytes: Bytes, offset: nat, v: nat)
    requires v <= U16_MAX && At(bytes, offset, PutU16(v))
    ensures ReadU16(bytes, offset) == Ok(v)
  {
    Widths();
    LeValueOfLe(v, 2);
  }

  lemma ReadU32At(bytes: Bytes, offset: nat, v: nat)
    requires v <= U32_MAX && At(bytes, offset, PutU32(v))
    ensures ReadU32(bytes, offset) == Ok(v)
  {
    Widths();
    LeValueOfLe(v, 4);
  }

  lemma ReadU64At(bytes: Bytes, offset: nat, v: nat)
    requires v <= U64_MAX && At(bytes, offset, PutU64(v))
    ensures ReadU64(bytes, offset) == Ok(v)
  {
    Widths();
    LeValueOfLe(v, 8);
  }
}
