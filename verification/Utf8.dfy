/** What `String::from_utf8` accepts: the encodings of Unicode scalar values (RFC 3629, section 3). */
module Utf8 {
  import opened Bytes

  ghost predicate Scalar(c: nat) {
    c <= 0xD7FF || 0xE000 <= c <= 0x10FFFF
  }

  /** The low `6 * k` bits of a character dropped, the next six kept, as a continuation byte. */
  function Tail(c: nat): (b: Byte) {
    0x80 + c % 64
  }

  function EncodeChar(c: nat): (bs: Bytes)
    requires Scalar(c)
    ensures bs != []
  {
    if c < 0x80 then [c]
    else if c < 0x800 then [0xC0 + c / 64, Tail(c)]
    else if c < 0x1_0000 then [0xE0 + c / 4096, Tail(c / 64), Tail(c)]
    else [0xF0 + c / 262144, Tail(c / 4096), Tail(c / 64), Tail(c)]
  }

  ghost predicate AllScalar(cs: seq<nat>) {
    forall i :: 0 <= i < |cs| ==> Scalar(cs[i])
  }

  function EncodeText(cs: seq<nat>): Bytes
    requires AllScalar(cs)
  {
    if cs == [] then [] else EncodeChar(cs[0]) + EncodeText(cs[1..])
  }

  lemma CharLen(c: nat, rest: Bytes)
    requires Scalar(c)
    ensures Utf8Len(EncodeChar(c) + rest) == |EncodeChar(c)|
  {
    Shifts(c);
    var bs := EncodeChar(c) + rest;
    assert |EncodeChar(c)| > 0 ==> bs[0] == EncodeChar(c)[0];
    assert |EncodeChar(c)| > 1 ==> bs[1] == EncodeChar(c)[1];
    assert |EncodeChar(c)| > 2 ==> bs[2] == EncodeChar(c)[2];
    assert |EncodeChar(c)| > 3 ==> bs[3] == EncodeChar(c)[3];
  }

  /** The character a well-formed sequence stands for. */
  function CharOf(bs: Bytes): nat
    requires Utf8Len(bs) > 0
  {
    var n := Utf8Len(bs);
    var b: seq<int> := seq(n, i requires 0 <= i < n => bs[i] as int);
    if n == 1 then b[0]
    else if n == 2 then (b[0] - 0xC0) * 64 + (b[1] - 0x80)
    else if n == 3 then (b[0] - 0xE0) * 4096 + (b[1] - 0x80) * 64 + (b[2] - 0x80)
    else (b[0] - 0xF0) * 262144 + (b[1] - 0x80) * 4096 + (b[2] - 0x80) * 64 + (b[3] - 0x80)
  }

  lemma SixBits(high: nat, low: nat)
    requires low < 64
    ensures (64 * high + low) / 64 == high && (64 * high + low) % 64 == low
  {
  }

  lemma Shifts(c: nat)
    ensures c / 4096 == c / 64 / 64 && c / 262144 == c / 64 / 64 / 64
  {
  }

  lemma CharDecodes(bs: Bytes)
    requires Utf8Len(bs) > 0
    ensures Scalar(CharOf(bs)) && EncodeChar(CharOf(bs)) == bs[..Utf8Len(bs)]
  {
    var n, c := Utf8Len(bs), CharOf(bs);
    Shifts(c);
    if n == 2 {
      var a: int, b: int := bs[0], bs[1];
      SixBits(a - 0xC0, b - 0x80);
    } else if n == 3 {
      ThreeDecode(bs, c);
    } else if n == 4 {
      FourDecode(bs, c);
    }
  }

  lemma ThreeDecode(bs: Bytes, c: nat)
    requires Utf8Len(bs) == 3 && c == CharOf(bs)
    ensures Scalar(c) && EncodeChar(c) == bs[..3]
  {
    var a: int, b: int, d: int := bs[0], bs[1], bs[2];
    var high := 64 * (a - 0xE0) + (b - 0x80);
    assert c == 64 * high + (d - 0x80);
    SixBits(a - 0xE0, b - 0x80);
    SixBits(high, d - 0x80);
    Shifts(c);
    assert Scalar(c) && 0x800 <= c < 0x1_0000;
  }

  lemma FourDecode(bs: Bytes, c: nat)
    requires Utf8Len(bs) == 4 && c == CharOf(bs)
    ensures Scalar(c) && EncodeChar(c) == bs[..4]
  {
    var a: int, b: int, d: int, e: int := bs[0], bs[1], bs[2], bs[3];
    var high := 64 * (a - 0xF0) + (b - 0x80);
    var mid := 64 * high + (d - 0x80);
    assert c == 64 * mid + (e - 0x80);
    SixBits(a - 0xF0, b - 0x80);
    SixBits(high, d - 0x80);
    SixBits(mid, e - 0x80);
    Shifts(c);
    assert Scalar(c) && 0x1_0000 <= c;
  }

  lemma {:induction false} TextAccepted(cs: seq<nat>)
    requires AllScalar(cs)
    ensures IsUtf8(EncodeText(cs))
  {
    if cs != [] {
      hide EncodeChar, Utf8Len;
      var c, rest := EncodeChar(cs[0]), EncodeText(cs[1..]);
      CharLen(cs[0], rest);
      TextAccepted(cs[1..]);
      assert (c + rest)[|c|..] == rest;
    }
  }

  lemma {:induction false} AcceptedText(bs: Bytes) returns (cs: seq<nat>)
    requires IsUtf8(bs)
    ensures AllScalar(cs) && EncodeText(cs) == bs
  {
    if bs == [] {
      cs := [];
    } else {
      hide EncodeChar, Utf8Len, CharOf, Scalar;
      CharDecodes(bs);
      var n := Utf8Len(bs);
      var rest := AcceptedText(bs[n..]);
      cs := [CharOf(bs)] + rest;
      assert bs == bs[..n] + bs[n..];
    }
  }

  /** Both ways round. */
  lemma IsUtf8Iff(bs: Bytes)
    ensures IsUtf8(bs) <==> exists cs :: AllScalar(cs) && EncodeText(cs) == bs
  {
    hide EncodeText, IsUtf8, AllScalar;
    if IsUtf8(bs) { var cs := AcceptedText(bs); }
    forall cs | AllScalar(cs) && EncodeText(cs) == bs ensures IsUtf8(bs) { TextAccepted(cs); }
  }
}
