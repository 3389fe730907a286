/** The write-ahead log: frames, scanning with torn-tail recovery, the writer
    (src/wal/mod.rs, src/wal/reader.rs, src/wal/writer.rs). */
module WriteAheadLog {
  import opened Outcomes
  import opened Bytes
  import opened Records
  import opened Layers

  const CRC_LEN: nat := 4
  const HEADER_LEN: nat := 4 + 1 + 2 + 4

  type U32 = x: nat | x <= 0xFFFF_FFFF

  /** Any checksum function: nothing below depends on which. */
  type Checksum = Bytes -> U32

  function OpByte(op: WalOp): Byte {
    match op case Put => 1 case Delete => 2
  }

  function OpFromByte(b: Byte): Result<WalOp> {
    if b == 1 then Ok(Put) else if b == 2 then Ok(Delete) else Err(InvalidOp)
  }

  // ---- Frames ----

  /** The part of a frame the checksum covers: `[op][key_len u16][val_len u32][key][value]`. */
  function Body(e: WalEntry): (bs: Bytes)
    ensures |bs| == HEADER_LEN - CRC_LEN + |e.key| + |e.value|
  {
    [OpByte(e.op)] + (PutU16(|e.key|) + (PutU32(|e.value|) + (e.key + e.value)))
  }

  function Frame(crc: Checksum, e: WalEntry): (bs: Bytes)
    ensures |bs| == HEADER_LEN + |e.key| + |e.value|
  {
    PutU32(crc(Body(e))) + Body(e)
  }

  /** The layout byte by byte: checksum, operation, lengths, key, value. */
  ghost predicate FrameLaid(crc: Checksum, bytes: Bytes, offset: nat, e: WalEntry) {
    var keyEnd := offset + 11 + |e.key|;
    && keyEnd + |e.value| <= |bytes|
    && U32At(bytes, offset) == crc(bytes[offset + 4..keyEnd + |e.value|])
    && bytes[offset + 4] == (if e.op.Put? then 1 else 2)
    && U16At(bytes, offset + 5) == |e.key| && U32At(bytes, offset + 7) == |e.value|
    && bytes[offset + 11..keyEnd] == e.key && bytes[keyEnd..keyEnd + |e.value|] == e.value
  }

  lemma BodyStands(bytes: Bytes, offset: nat, e: WalEntry)
    requires Framable(e)
    ensures At(bytes, offset, Body(e)) <==>
              var keyEnd := offset + 7 + |e.key|;
              && keyEnd + |e.value| <= |bytes| && bytes[offset] == (if e.op.Put? then 1 else 2)
              && U16At(bytes, offset + 1) == |e.key| && U32At(bytes, offset + 3) == |e.value|
              && bytes[offset + 7..keyEnd] == e.key && bytes[keyEnd..keyEnd + |e.value|] == e.value
  {
    hide PutU16, PutU32, U16At, U32At, At;
    AtSplit(bytes, offset, [OpByte(e.op)], PutU16(|e.key|) + (PutU32(|e.value|) + (e.key + e.value)));
    AtSplit(bytes, offset + 1, PutU16(|e.key|), PutU32(|e.value|) + (e.key + e.value));
    AtSplit(bytes, offset + 3, PutU32(|e.value|), e.key + e.value);
    AtSplit(bytes, offset + 7, e.key, e.value);
    U16Stands(bytes, offset + 1, |e.key|);
    U32Stands(bytes, offset + 3, |e.value|);
    AtIs(bytes, offset, [OpByte(e.op)]);
    AtIs(bytes, offset + 7, e.key);
    AtIs(bytes, offset + 7 + |e.key|, e.value);
  }

  /** The frame of an entry is exactly what is laid out. */
  lemma FrameStands(crc: Checksum, bytes: Bytes, offset: nat, e: WalEntry)
    ensures Framable(e) && At(bytes, offset, Frame(crc, e)) <==> FrameLaid(crc, bytes, offset, e)
  {
    hide Body, PutU32, U16At, U32At, At;
    if Framable(e) {
      AtSplit(bytes, offset, PutU32(crc(Body(e))), Body(e));
      U32Stands(bytes, offset, crc(Body(e)));
      BodyStands(bytes, offset + 4, e);
      AtIs(bytes, offset + 4, Body(e));
    }
  }

  /** On any bytes: a frame is decoded exactly where one is laid out. */
  lemma DecodeIffLaid(crc: Checksum, bytes: Bytes, e: WalEntry)
    ensures DecodeEntry(crc, bytes) == Ok(e) <==> FrameLaid(crc, bytes, 0, e)
  {
    hide U16At, U32At, ReadU16, ReadU32;
    if |bytes| >= 11 {
      ReadU32Is(bytes, 0);
      ReadU16Is(bytes, 5);
      ReadU32Is(bytes, 7);
    }
  }

  function Frames(crc: Checksum, es: seq<WalEntry>): Bytes {
    if es == [] then [] else Frame(crc, es[0]) + Frames(crc, es[1..])
  }

  /** Entries whose lengths the header can hold. */
  ghost predicate Framable(e: WalEntry) {
    |e.key| <= MAX_KEY_LEN && |e.value| <= MAX_VALUE_LEN
  }

  ghost predicate AllFramable(es: seq<WalEntry>) {
    forall i :: 0 <= i < |es| ==> Framable(es[i])
  }

  /** What `encode_entry` answers, before it writes anything. */
  function EncodeOutcome(op: WalOp, key: Bytes, value: Bytes): Result<()> {
    if |key| > MAX_KEY_LEN then Err(KeyTooLarge(|key|, MAX_KEY_LEN))
    else if |value| > MAX_VALUE_LEN then Err(ValueTooLarge(|value|, MAX_VALUE_LEN))
    else if op.Delete? && value != [] then Err(InvalidOp)
    else Ok(())
  }

  /** Appends a frame with a blank checksum, then patches the checksum in. */
  method EncodeEntry(crc: Checksum, op: WalOp, key: Bytes, value: Bytes, buf: Bytes) returns (r: Result<()>, out: Bytes)
    ensures r == EncodeOutcome(op, key, value)
    ensures |key| > 65535 ==> r == Err(KeyTooLarge(|key|, 65535))
    ensures |key| <= 65535 && |value| > 0xFFFF_FFFF ==> r == Err(ValueTooLarge(|value|, 0xFFFF_FFFF))
    ensures |key| <= 65535 && |value| <= 0xFFFF_FFFF ==>
              r == if op.Delete? && value != [] then Err(InvalidOp) else Ok(())
    ensures r.Ok? ==> |out| == |buf| + 11 + |key| + |value| && out[..|buf|] == buf
                      && FrameLaid(crc, out, |buf|, WalEntry(op, key, value))
    ensures out == if r.Ok? then buf + Frame(crc, WalEntry(op, key, value)) else buf
  {
    hide Body, Frame, FrameLaid;
    out := buf;
    if |key| > MAX_KEY_LEN { return Err(KeyTooLarge(|key|, MAX_KEY_LEN)), out; }
    if |value| > MAX_VALUE_LEN { return Err(ValueTooLarge(|value|, MAX_VALUE_LEN)), out; }
    if op.Delete? && value != [] { return Err(InvalidOp), out; }
    var start := |out|;
    out := out + [0, 0, 0, 0];
    out := out + [OpByte(op)];
    out := out + PutU16(|key|);
    out := out + PutU32(|value|);
    out := out + key;
    out := out + value;
    BodyWritten(buf, WalEntry(op, key, value));
    var sum := crc(out[start + CRC_LEN..]);
    out := out[..start] + PutU32(sum) + out[start + CRC_LEN..];
    r := Ok(());
    Patched(crc, buf, WalEntry(op, key, value));
    FrameBehind(crc, buf, WalEntry(op, key, value));
  }

  /** With a blank checksum, and with the checksum patched in. */
  lemma BodyWritten(buf: Bytes, e: WalEntry)
    ensures var out := buf + [0, 0, 0, 0] + [OpByte(e.op)] + PutU16(|e.key|) + PutU32(|e.value|) + e.key + e.value;
            out[|buf| + CRC_LEN..] == Body(e) && out[..|buf|] == buf
  {
    hide OpByte, PutU16, PutU32;
    var out := buf + [0, 0, 0, 0] + [OpByte(e.op)] + PutU16(|e.key|) + PutU32(|e.value|) + e.key + e.value;
    assert out == (buf + [0, 0, 0, 0]) + Body(e);
  }

  lemma Patched(crc: Checksum, buf: Bytes, e: WalEntry)
    ensures buf + PutU32(crc(Body(e))) + Body(e) == buf + Frame(crc, e)
  {
    hide Body, PutU32;
    ConcatAssoc(buf, PutU32(crc(Body(e))), Body(e));
  }

  lemma FrameBehind(crc: Checksum, buf: Bytes, e: WalEntry)
    requires Framable(e)
    ensures var out := buf + Frame(crc, e);
            |out| == |buf| + 11 + |e.key| + |e.value| && out[..|buf|] == buf && FrameLaid(crc, out, |buf|, e)
  {
    hide Frame, FrameLaid, Framable;
    var out := buf + Frame(crc, e);
    assert out[|buf|..|out|] == Frame(crc, e);
    FrameStands(crc, out, |buf|, e);
  }

  /** Decodes one whole frame; bytes after it are not covered by its checksum. */
  function DecodeEntry(crc: Checksum, bytes: Bytes): Result<WalEntry> {
    if |bytes| < HEADER_LEN then Err(Corruption)
    else
      var op :- OpFromByte(bytes[4]);
      var keyLen := ReadU16(bytes, 5).value;
      var valLen := ReadU32(bytes, 7).value;
      var end := HEADER_LEN + keyLen + valLen;
      if end > |bytes| then Err(Corruption)
      else if crc(bytes[CRC_LEN..end]) != ReadU32(bytes, 0).value then Err(Corruption)
      else Ok(WalEntry(op, bytes[HEADER_LEN..HEADER_LEN + keyLen], bytes[HEADER_LEN + keyLen..end]))
  }

  /** The length the header at `offset` declares for its frame. */
  function DeclaredLen(bytes: Bytes, offset: nat): (n: nat)
    requires offset + HEADER_LEN <= |bytes|
    ensures n >= HEADER_LEN
  {
    HEADER_LEN + ReadU16(bytes, offset + 5).value + ReadU32(bytes, offset + 7).value
  }

  /** The bytes from `offset` on end inside a frame: the signature of an interrupted append. */
  predicate Torn(bytes: Bytes, offset: nat)
    requires offset <= |bytes|
  {
    |bytes| - offset < HEADER_LEN || offset + DeclaredLen(bytes, offset) > |bytes|
  }

  /** Frame after frame until the tail; a whole frame that does not decode is corruption. */
  function ScanFrom(crc: Checksum, bytes: Bytes, offset: nat): Result<seq<WalEntry>>
    requires offset <= |bytes|
    decreases |bytes| - offset
  {
    if Torn(bytes, offset) then Ok([])
    else
      var next := offset + DeclaredLen(bytes, offset);
      var e := DecodeEntry(crc, bytes[offset..next]);
      if e.Err? then Err(Corruption) else Prefixed([e.value], ScanFrom(crc, bytes, next))
  }

  method Scan(crc: Checksum, bytes: Bytes) returns (r: Result<seq<WalEntry>>)
    ensures r == ScanFrom(crc, bytes, 0)
  {
    hide DecodeEntry, Prefixed, ReadU16, ReadU32;
    var entries: seq<WalEntry> := [];
    var offset := 0;
    PrefixedNone(entries, ScanFrom(crc, bytes, 0));
    while true
      invariant offset <= |bytes|
      invariant ScanFrom(crc, bytes, 0) == Prefixed(entries, ScanFrom(crc, bytes, offset))
      decreases |bytes| - offset
    {
      var remaining := |bytes| - offset;
      if remaining < HEADER_LEN { break; }
      var header := bytes[offset..offset + HEADER_LEN];
      HeaderReads(bytes, offset);
      var keyLen := ReadU16(header, 5).value;
      var valLen := ReadU32(header, 7).value;
      var frameLen := HEADER_LEN + keyLen + valLen;
      if frameLen > remaining { break; }
      var entry := DecodeEntry(crc, bytes[offset..offset + frameLen]);
      if entry.Err? {
        StoppedScan(crc, entries, bytes, offset);
        return Err(Corruption);
      }
      PrefixedStep(entries, entry.value, ScanFrom(crc, bytes, offset + frameLen));
      offset := offset + frameLen;
      entries := entries + [entry.value];
    }
    PrefixedNone(entries, ScanFrom(crc, bytes, 0));
    r := Ok(entries);
  }

  lemma {:induction false} ScanErrors(crc: Checksum, bytes: Bytes, offset: nat)
    requires offset <= |bytes|
    ensures ScanFrom(crc, bytes, offset).Err? ==> ScanFrom(crc, bytes, offset).error == Corruption
    decreases |bytes| - offset
  {
    hide DecodeEntry, DeclaredLen;
    if !Torn(bytes, offset) { ScanErrors(crc, bytes, offset + DeclaredLen(bytes, offset)); }
  }

  lemma HeaderReads(bytes: Bytes, offset: nat)
    requires offset + HEADER_LEN <= |bytes|
    ensures var header := bytes[offset..offset + HEADER_LEN];
            HEADER_LEN + ReadU16(header, 5).value + ReadU32(header, 7).value == DeclaredLen(bytes, offset)
  {
    var header := bytes[offset..offset + HEADER_LEN];
    assert header[5..7] == bytes[offset + 5..offset + 7];
    assert header[7..11] == bytes[offset + 7..offset + 11];
  }

  lemma StoppedScan(crc: Checksum, entries: seq<WalEntry>, bytes: Bytes, offset: nat)
    requires offset <= |bytes| && !Torn(bytes, offset)
    requires DecodeEntry(crc, bytes[offset..offset + DeclaredLen(bytes, offset)]).Err?
    ensures Prefixed(entries, ScanFrom(crc, bytes, offset)) == Err(Corruption)
  {
  }

  // ---- Frames decode, and only frames do ----

  /** Where a fragment ends inside its own frame, byte by byte. */
  lemma TornIs(bytes: Bytes, offset: nat)
    requires offset <= |bytes|
    ensures Torn(bytes, offset) <==>
              |bytes| < offset + 11 || |bytes| < offset + 11 + U16At(bytes, offset + 5) + U32At(bytes, offset + 7)
    ensures offset + 11 <= |bytes| ==>
              DeclaredLen(bytes, offset) == 11 + U16At(bytes, offset + 5) + U32At(bytes, offset + 7)
  {
    hide U16At, U32At, ReadU16, ReadU32;
    if offset + 11 <= |bytes| {
      ReadU16Is(bytes, offset + 5);
      ReadU32Is(bytes, offset + 7);
    }
  }

  lemma DecodeFrame(crc: Checksum, e: WalEntry)
    requires Framable(e)
    ensures DecodeEntry(crc, Frame(crc, e)) == Ok(e)
  {
    hide Frame, FrameLaid, DecodeEntry;
    var bytes := Frame(crc, e);
    AtWhole(bytes);
    FrameStands(crc, bytes, 0, e);
    DecodeIffLaid(crc, bytes, e);
  }

  lemma FrameIsWhole(crc: Checksum, bytes: Bytes, offset: nat, e: WalEntry)
    requires Framable(e) && offset <= |bytes| && At(bytes, offset, Frame(crc, e))
    ensures !Torn(bytes, offset) && DeclaredLen(bytes, offset) == |Frame(crc, e)|
    ensures DecodeEntry(crc, bytes[offset..offset + DeclaredLen(bytes, offset)]) == Ok(e)
  {
    hide Frame, DecodeEntry, DeclaredLen, U16At, U32At;
    FrameStands(crc, bytes, offset, e);
    TornIs(bytes, offset);
    DecodeFrame(crc, e);
  }

  lemma DecodedIsFrame(crc: Checksum, bytes: Bytes, offset: nat)
    requires offset <= |bytes| && !Torn(bytes, offset)
    requires DecodeEntry(crc, bytes[offset..offset + DeclaredLen(bytes, offset)]).Ok?
    ensures var e := DecodeEntry(crc, bytes[offset..offset + DeclaredLen(bytes, offset)]).value;
            && Framable(e) && |Frame(crc, e)| == DeclaredLen(bytes, offset)
            && offset + |Frame(crc, e)| <= |bytes| && At(bytes, offset, Frame(crc, e))
  {
    hide Frame, Framable, DecodeEntry;
    DeclaredInside(bytes, offset);
    hide DeclaredLen;
    WholeFrame(crc, bytes[offset..offset + DeclaredLen(bytes, offset)]);
  }

  /** A whole frame, cut out of the log, declares its own length. */
  lemma DeclaredInside(bytes: Bytes, offset: nat)
    requires offset <= |bytes| && !Torn(bytes, offset)
    ensures var frame := bytes[offset..offset + DeclaredLen(bytes, offset)]; DeclaredLen(frame, 0) == |frame|
  {
    hide LeValue;
    var n := DeclaredLen(bytes, offset);
    SubSlice(bytes, offset, offset + n, 5, 7);
    SubSlice(bytes, offset, offset + n, 7, 11);
  }

  lemma WholeFrame(crc: Checksum, frame: Bytes)
    requires DecodeEntry(crc, frame).Ok? && DeclaredLen(frame, 0) == |frame|
    ensures var e := DecodeEntry(crc, frame).value; Framable(e) && frame == Frame(crc, e)
  {
    hide Frame, DecodeEntry, DeclaredLen, U16At, U32At;
    var e := DecodeEntry(crc, frame).value;
    DecodeIffLaid(crc, frame, e);
    TornIs(frame, 0);
    FrameStands(crc, frame, 0, e);
  }

  // ---- Scanning ----

  lemma {:induction false} FramesAppend(crc: Checksum, a: seq<WalEntry>, b: seq<WalEntry>)
    ensures Frames(crc, a + b) == Frames(crc, a) + Frames(crc, b)
  {
    if a == [] {
      assert a + b == b;
    } else {
      hide Frame;
      FramesAppend(crc, a[1..], b);
      assert (a + b)[1..] == a[1..] + b;
      ConcatAssoc(Frame(crc, a[0]), Frames(crc, a[1..]), Frames(crc, b));
    }
  }

  lemma FramesSnoc(crc: Checksum, es: seq<WalEntry>, e: WalEntry)
    ensures Frames(crc, es + [e]) == Frames(crc, es) + Frame(crc, e)
  {
    FramesAppend(crc, es, [e]);
    assert [e][1..] == [];
    assert Frames(crc, [e]) == Frame(crc, e);
  }

  /** `n` entries of the log fit before `cut`, and the next one does not. */
  ghost predicate FitsBefore(crc: Checksum, es: seq<WalEntry>, cut: nat, n: nat) {
    && n <= |es| && |Frames(crc, es[..n])| <= cut
    && (n < |es| ==> cut < |Frames(crc, es[..n + 1])|)
  }

  lemma CutFrameIsTorn(crc: Checksum, whole: Bytes, cut: nat, offset: nat, e: WalEntry)
    requires Framable(e) && At(whole, offset, Frame(crc, e)) && offset <= cut <= |whole|
             && cut < offset + |Frame(crc, e)|
    ensures Torn(whole[..cut], offset)
  {
    hide Frame, Body;
    if cut - offset >= HEADER_LEN {
      FrameStands(crc, whole, offset, e);
      TornIs(whole, offset);
      assert whole[..cut][offset + 5..offset + 7] == whole[offset + 5..offset + 7];
      assert whole[..cut][offset + 7..offset + 11] == whole[offset + 7..offset + 11];
    }
  }

  lemma {:induction false} ScanCutFrames(crc: Checksum, whole: Bytes, cut: nat, offset: nat, es: seq<WalEntry>, n: nat)
    requires AllFramable(es) && offset <= cut <= |whole|
    requires At(whole, offset, Frames(crc, es)) && offset + |Frames(crc, es)| == |whole|
    requires FitsBefore(crc, es, cut - offset, n)
    ensures ScanFrom(crc, whole[..cut], offset) == Ok(es[..n])
    decreases |es|
  {
    hide Frame, DecodeEntry, DeclaredLen;
    if es == [] {
      assert cut == |whole| == offset;
      assert es[..n] == [];
    } else {
      var e, rest := es[0], es[1..];
      AtSplit(whole, offset, Frame(crc, e), Frames(crc, rest));
      var next := offset + |Frame(crc, e)|;
      if n == 0 {
        assert es[..1] == [e] && es[..0] == [];
        FirstFrame(crc, e);
        CutFrameIsTorn(crc, whole, cut, offset, e);
      } else {
        PrefixFrames(crc, es, n);
        if n < |es| { PrefixFrames(crc, es, n + 1); }
        AtPrefix(whole, cut, offset, Frame(crc, e));
        FrameIsWhole(crc, whole[..cut], offset, e);
        ScanCutFrames(crc, whole, cut, next, rest, n - 1);
        assert es[..n] == [e] + rest[..n - 1];
      }
    }
  }

  lemma FirstFrame(crc: Checksum, e: WalEntry)
    ensures Frames(crc, [e]) == Frame(crc, e) && Frames(crc, []) == []
  {
    assert [e][1..] == [];
  }

  lemma PrefixFrames(crc: Checksum, es: seq<WalEntry>, n: nat)
    requires 0 < n <= |es|
    ensures Frames(crc, es[..n]) == Frame(crc, es[0]) + Frames(crc, es[1..][..n - 1])
  {
    assert es[..n][1..] == es[1..][..n - 1];
  }

  lemma {:induction false} SomeFit(crc: Checksum, es: seq<WalEntry>, cut: nat) returns (n: nat)
    requires cut <= |Frames(crc, es)|
    ensures FitsBefore(crc, es, cut, n)
    decreases |es|
  {
    assert es[..|es|] == es;
    if cut == |Frames(crc, es)| {
      n := |es|;
    } else {
      assert es != [];
      var init := es[..|es| - 1];
      if cut < |Frames(crc, init)| {
        n := SomeFit(crc, init, cut);
        assert init[..n] == es[..n] && (n < |init| ==> init[..n + 1] == es[..n + 1]);
        assert n < |init| by { assert init[..|init|] == init; }
      } else {
        n := |es| - 1;
      }
    }
  }

  /** Torn-tail theorem: scanning any byte prefix of a log gives exactly the longest prefix of
      its entries whose frames fit entirely. */
  lemma TornTail(crc: Checksum, es: seq<WalEntry>, cut: nat) returns (n: nat)
    requires AllFramable(es) && cut <= |Frames(crc, es)|
    ensures FitsBefore(crc, es, cut, n) && ScanFrom(crc, Frames(crc, es)[..cut], 0) == Ok(es[..n])
  {
    n := SomeFit(crc, es, cut);
    AtWhole(Frames(crc, es));
    ScanCutFrames(crc, Frames(crc, es), cut, 0, es, n);
  }

  /** `es` are the frames from `offset` on, and after them the input ends inside a frame. */
  ghost predicate FramesThenTorn(crc: Checksum, bytes: Bytes, offset: nat, es: seq<WalEntry>) {
    var end := offset + |Frames(crc, es)|;
    AllFramable(es) && end <= |bytes| && At(bytes, offset, Frames(crc, es)) && Torn(bytes, end)
  }

  lemma ScanStep(crc: Checksum, bytes: Bytes, offset: nat) returns (e: WalEntry, next: nat)
    requires offset <= |bytes| && ScanFrom(crc, bytes, offset).Ok? && !Torn(bytes, offset)
    ensures Framable(e) && At(bytes, offset, Frame(crc, e)) && next == offset + |Frame(crc, e)| <= |bytes|
            && next > offset
    ensures ScanFrom(crc, bytes, next).Ok? && ScanFrom(crc, bytes, offset).value ==
              [e] + ScanFrom(crc, bytes, next).value
  {
    hide DecodeEntry, Frame;
    next := offset + DeclaredLen(bytes, offset);
    e := DecodeEntry(crc, bytes[offset..next]).value;
    DecodedIsFrame(crc, bytes, offset);
  }

  lemma TornEnd(crc: Checksum, bytes: Bytes, offset: nat)
    requires offset <= |bytes| && Torn(bytes, offset)
    ensures ScanFrom(crc, bytes, offset) == Ok([]) && FramesThenTorn(crc, bytes, offset, [])
  {
  }

  /** On arbitrary bytes: an accepted scan means the input is the frames of the returned entries,
      in order, followed by a fragment that ends inside its own frame. */
  lemma {:induction false} ScanExact(crc: Checksum, bytes: Bytes, offset: nat)
    requires offset <= |bytes| && ScanFrom(crc, bytes, offset).Ok?
    ensures FramesThenTorn(crc, bytes, offset, ScanFrom(crc, bytes, offset).value)
    decreases |bytes| - offset
  {
    hide Frame, Frames, Torn, ScanFrom;
    if Torn(bytes, offset) {
      TornEnd(crc, bytes, offset);
    } else {
      var e, next := ScanStep(crc, bytes, offset);
      ScanExact(crc, bytes, next);
      FrameThenFrames(crc, bytes, offset, e, ScanFrom(crc, bytes, next).value);
    }
  }

  lemma FrameThenFrames(crc: Checksum, bytes: Bytes, offset: nat, e: WalEntry, rest: seq<WalEntry>)
    requires Framable(e) && AllFramable(rest)
    requires At(bytes, offset, Frame(crc, e)) && At(bytes, offset + |Frame(crc, e)|, Frames(crc, rest))
    ensures AllFramable([e] + rest) && At(bytes, offset, Frames(crc, [e] + rest))
    ensures |Frames(crc, [e] + rest)| == |Frame(crc, e)| + |Frames(crc, rest)|
  {
    hide Frame;
    assert ([e] + rest)[1..] == rest;
    AtSplit(bytes, offset, Frame(crc, e), Frames(crc, rest));
  }

  /** `es` are the frames from `offset` on, and after them comes a whole frame that does not
      decode, even if it is the last one. */
  ghost predicate FramesThenCorrupt(crc: Checksum, bytes: Bytes, offset: nat, es: seq<WalEntry>) {
    var end := offset + |Frames(crc, es)|;
    && AllFramable(es) && end <= |bytes| && At(bytes, offset, Frames(crc, es)) && !Torn(bytes, end)
    && DecodeEntry(crc, bytes[end..end + DeclaredLen(bytes, end)]).Err?
  }

  lemma ScanOverFrame(crc: Checksum, bytes: Bytes, offset: nat, e: WalEntry)
    requires Framable(e) && offset <= |bytes| && At(bytes, offset, Frame(crc, e))
    ensures offset + |Frame(crc, e)| <= |bytes|
    ensures ScanFrom(crc, bytes, offset) == Prefixed([e], ScanFrom(crc, bytes, offset + |Frame(crc, e)|))
  {
    hide Frame, DecodeEntry, DeclaredLen;
    FrameIsWhole(crc, bytes, offset, e);
  }

  lemma FramesFirst(crc: Checksum, bytes: Bytes, offset: nat, es: seq<WalEntry>)
    requires es != [] && AllFramable(es) && At(bytes, offset, Frames(crc, es))
    ensures Framable(es[0]) && AllFramable(es[1..]) && es == [es[0]] + es[1..]
    ensures At(bytes, offset, Frame(crc, es[0])) && At(bytes, offset + |Frame(crc, es[0])|, Frames(crc, es[1..]))
    ensures |Frames(crc, es)| == |Frame(crc, es[0])| + |Frames(crc, es[1..])|
  {
    hide Frame, At, Framable;
    AtSplit(bytes, offset, Frame(crc, es[0]), Frames(crc, es[1..]));
  }

  /** Scanning passes over whole frames and goes on behind them. */
  lemma {:induction false} ScanOverFrames(crc: Checksum, bytes: Bytes, offset: nat, es: seq<WalEntry>)
    requires AllFramable(es) && offset + |Frames(crc, es)| <= |bytes| && At(bytes, offset, Frames(crc, es))
    ensures ScanFrom(crc, bytes, offset) == Prefixed(es, ScanFrom(crc, bytes, offset + |Frames(crc, es)|))
    decreases |es|
  {
    hide Frame, Frames, ScanFrom, At, AllFramable, Framable, Prefixed, Torn;
    if es == [] {
      FirstFrame(crc, WalEntry(Put, [], []));
      PrefixedNone([], ScanFrom(crc, bytes, offset));
    } else {
      var e, rest := es[0], es[1..];
      var next, end := offset + |Frame(crc, es[0])|, offset + |Frames(crc, es)|;
      FramesFirst(crc, bytes, offset, es);
      ScanOverFrame(crc, bytes, offset, e);
      ScanOverFrames(crc, bytes, next, rest);
      PrefixedJoin([e], rest, ScanFrom(crc, bytes, end));
    }
  }

  lemma CorruptHere(crc: Checksum, bytes: Bytes, offset: nat)
    requires offset <= |bytes| && !Torn(bytes, offset)
             && DecodeEntry(crc, bytes[offset..offset + DeclaredLen(bytes, offset)]).Err?
    ensures FramesThenCorrupt(crc, bytes, offset, [])
  {
    hide DecodeEntry, Torn, DeclaredLen;
  }

  /** A scan that fails further on has passed a whole frame here. */
  lemma FailsLater(crc: Checksum, bytes: Bytes, offset: nat) returns (e: WalEntry, next: nat)
    requires offset <= |bytes| && ScanFrom(crc, bytes, offset).Err?
    ensures !Torn(bytes, offset) && offset + HEADER_LEN <= |bytes| && offset + DeclaredLen(bytes, offset) <= |bytes|
    ensures DecodeEntry(crc, bytes[offset..offset + DeclaredLen(bytes, offset)]).Ok? ==>
              && Framable(e) && At(bytes, offset, Frame(crc, e)) && offset < next <= |bytes|
              && next == offset + |Frame(crc, e)| && ScanFrom(crc, bytes, next).Err?
  {
    hide Frame, DecodeEntry;
    next := offset + DeclaredLen(bytes, offset);
    var d := DecodeEntry(crc, bytes[offset..next]);
    if d.Ok? {
      e := d.value;
      DecodedIsFrame(crc, bytes, offset);
    } else {
      e := WalEntry(Put, [], []);
    }
  }

  lemma CorruptFurther(crc: Checksum, bytes: Bytes, offset: nat, e: WalEntry, rest: seq<WalEntry>)
    requires Framable(e) && At(bytes, offset, Frame(crc, e))
             && FramesThenCorrupt(crc, bytes, offset + |Frame(crc, e)|, rest)
    ensures FramesThenCorrupt(crc, bytes, offset, [e] + rest)
  {
    hide Frame, Frames, Torn, DeclaredLen, DecodeEntry, At, AllFramable, Framable;
    FrameThenFrames(crc, bytes, offset, e, rest);
  }

  lemma {:induction false} ScanStopsAt(crc: Checksum, bytes: Bytes, offset: nat) returns (es: seq<WalEntry>)
    requires offset <= |bytes| && ScanFrom(crc, bytes, offset).Err?
    ensures FramesThenCorrupt(crc, bytes, offset, es)
    decreases |bytes| - offset
  {
    hide Frame, Frames, DecodeEntry, DeclaredLen, Torn, ScanFrom, At, FramesThenCorrupt;
    var e, next := FailsLater(crc, bytes, offset);
    if DecodeEntry(crc, bytes[offset..offset + DeclaredLen(bytes, offset)]).Err? {
      CorruptHere(crc, bytes, offset);
      es := [];
    } else {
      var rest := ScanStopsAt(crc, bytes, next);
      CorruptFurther(crc, bytes, offset, e, rest);
      es := [e] + rest;
    }
  }

  lemma TornScans(crc: Checksum, bytes: Bytes, es: seq<WalEntry>)
    requires FramesThenTorn(crc, bytes, 0, es)
    ensures ScanFrom(crc, bytes, 0).Ok?
  {
    hide Frame, Frames, DecodeEntry, At, DeclaredLen, AllFramable, Torn;
    ScanOverFrames(crc, bytes, 0, es);
    TornEnd(crc, bytes, |Frames(crc, es)|);
  }

  lemma CorruptFails(crc: Checksum, bytes: Bytes, es: seq<WalEntry>)
    requires FramesThenCorrupt(crc, bytes, 0, es)
    ensures ScanFrom(crc, bytes, 0).Err?
  {
    hide Frame, Frames, DecodeEntry, At, DeclaredLen, AllFramable, Torn;
    ScanOverFrames(crc, bytes, 0, es);
    StoppedScan(crc, [], bytes, |Frames(crc, es)|);
    PrefixedNone([], ScanFrom(crc, bytes, |Frames(crc, es)|));
  }

  /** On arbitrary bytes, both ways round: a log is accepted exactly when it is frames and then a
      fragment that ends inside its own frame, and refused exactly when it is frames and then a
      whole frame that does not decode. */
  lemma ScanDecides(crc: Checksum, bytes: Bytes)
    ensures ScanFrom(crc, bytes, 0).Ok? <==> exists es :: FramesThenTorn(crc, bytes, 0, es)
    ensures ScanFrom(crc, bytes, 0).Err? <==> exists es :: FramesThenCorrupt(crc, bytes, 0, es)
  {
    hide ScanFrom, FramesThenTorn, FramesThenCorrupt;
    if ScanFrom(crc, bytes, 0).Ok? { ScanExact(crc, bytes, 0); } else { var es := ScanStopsAt(crc, bytes, 0); }
    forall es | FramesThenTorn(crc, bytes, 0, es) ensures ScanFrom(crc, bytes, 0).Ok? {
      TornScans(crc, bytes, es);
    }
    forall es | FramesThenCorrupt(crc, bytes, 0, es) ensures ScanFrom(crc, bytes, 0).Err? {
      CorruptFails(crc, bytes, es);
    }
  }

  // ---- The writer ----

  /** A whole frame that does not decode is refused even at the very end of the log: eleven zero
      bytes behind any entries are no torn tail. */
  lemma CorruptLastFrameIsRefused(crc: Checksum, es: seq<WalEntry>)
    requires AllFramable(es)
    ensures ScanFrom(crc, Frames(crc, es) + [0, 0, 0, 0, 0, 0, 0, 0, 0, 0, 0], 0).Err?
  {
    hide ScanFrom, Frames, DeclaredLen, LeValue, AllFramable;
    var zeros: Bytes := [0, 0, 0, 0, 0, 0, 0, 0, 0, 0, 0];
    var bytes, end := Frames(crc, es) + zeros, |Frames(crc, es)|;
    assert bytes[end..] == zeros;
    SubSlice(bytes, end, |bytes|, 5, 7);
    SubSlice(bytes, end, |bytes|, 7, 11);
    NothingDeclared(bytes, end);
    assert bytes[end..end + 11] == zeros;
    CorruptFails(crc, bytes, es);
  }

  lemma NothingDeclared(bytes: Bytes, end: nat)
    requires end + 11 == |bytes| && bytes[end + 5..end + 7] == [0, 0] && bytes[end + 7..end + 11] == [0, 0, 0, 0]
    ensures DeclaredLen(bytes, end) == 11
  {
    ZerosAreZero();
    assert LeValue(bytes[end + 5..end + 5 + 2]) == 0 && LeValue(bytes[end + 7..end + 7 + 4]) == 0;
  }

  lemma ZerosAreZero()
    ensures LeValue([0, 0]) == 0 && LeValue([0, 0, 0, 0]) == 0
  {
    assert LeValue([0]) == 0 by { assert [0][1..] == []; }
    assert LeValue([0, 0]) == 0 by { assert [0, 0][1..] == [0]; }
    assert LeValue([0, 0, 0]) == 0 by { assert [0, 0, 0][1..] == [0, 0]; }
    assert [0, 0, 0, 0][1..] == [0, 0, 0];
  }

  /** The capacity of the writer's buffer: what `BufWriter::new` gives. */
  const BUFFER_CAPACITY: nat := 8192

  /** `file` is what the operating system has, `buffered` what only the process has. */
  class WalWriter {
    const crc: Checksum
    var file: Bytes
    var buffered: Bytes
    ghost var entries: seq<WalEntry>

    ghost predicate Valid()
      reads this
    {
      file + buffered == Frames(crc, entries) && AllFramable(entries) && |buffered| <= BUFFER_CAPACITY
    }

    constructor (crc: Checksum)
      ensures Valid() && entries == [] && file == [] && buffered == [] && this.crc == crc
    {
      this.crc := crc;
      file, buffered, entries := [], [], [];
    }

    /** Appends one frame to the buffered file. The buffer is handed on when the frame does not fit
        behind it, and a frame as large as the buffer bypasses it: the operating system always has
        whole frames, and the process alone holds this one exactly when it is smaller. */
    method Append(op: WalOp, key: Bytes, value: Bytes) returns (r: Result<()>)
      requires Valid()
      modifies this
      ensures Valid() && old(file) <= file
      ensures r == EncodeOutcome(op, key, value)
      ensures entries == if r.Ok? then old(entries) + [WalEntry(op, key, value)] else old(entries)
      ensures r.Err? ==> unchanged(this)
      ensures r.Ok? ==> (buffered == [] <==> HEADER_LEN + |key| + |value| >= BUFFER_CAPACITY)
      ensures r.Ok? ==>
                var f := Frame(crc, WalEntry(op, key, value));
                if |f| >= 8192 then file == old(file) + old(buffered) + f
                else if |old(buffered)| + |f| > 8192 then file == old(file) + old(buffered) && buffered == f
                else file == old(file) && buffered == old(buffered) + f
      ensures r.Ok? && file != old(file) ==>
                HEADER_LEN + |key| + |value| >= BUFFER_CAPACITY
                  || |old(buffered)| + HEADER_LEN + |key| + |value| > BUFFER_CAPACITY
    {
      hide Frames, Frame;
      var outcome, buf := EncodeEntry(crc, op, key, value, []);
      if outcome.Err? { return outcome; }
      var e := WalEntry(op, key, value);
      FramesSnoc(crc, entries, e);
      assert [] + Frame(crc, e) == Frame(crc, e);
      ConcatAssoc(file, buffered, buf);
      if |buf| > BUFFER_CAPACITY - |buffered| {
        file, buffered := file + buffered, [];
        assert file + [] == file && [] + buf == buf;
      }
      if |buf| >= BUFFER_CAPACITY {
        assert buffered == [] && buffered + buf == buf && (file + buf) + [] == file + buf;
        file := file + buf;
      } else {
        buffered := buffered + buf;
      }
      entries := entries + [e];
      r := Ok(());
    }

    /** Hands every buffered byte to the operating system and syncs. */
    method Sync()
      requires Valid()
      modifies this`file, this`buffered
      ensures Valid() && buffered == [] && file == Frames(crc, entries)
    {
      file := file + buffered;
      buffered := [];
      assert file + [] == file;
    }
  }
}
