/** Cyrinx frames: the bit-packed header with its crc16ccitt, and the whole frame with its
    crc32c (serializeHeader, parseHeader, sendInternal's layout, ingestFrame's checks). */
module Frame {
  import opened Wrappers
  import opened ShiftRegister
  import opened Crc
  import opened Binary
  import opened HeaderBits

  const MAX_FRAME_PAYLOAD: nat := 1024
  const HEADER_BYTES: nat := 15
  const HEADER_NOCRC_BYTES: nat := 13
  const FIXED_PREAMBLE_BYTES: nat := 2
  const FRAME_CRC_BYTES: nat := 4
  const MAGIC0: Byte := 0xC7
  const MAGIC1: Byte := 0x58

  datatype FrameHeader = FrameHeader(
    version: nat, frameType: nat, sessionId: nat, sequence: nat, ack: nat, gearId: nat, fecRate: nat,
    streamId: nat, priority: nat, payloadLen: nat, flags: nat)

  /** Every field fits the bits it is given. */
  predicate InRange(h: FrameHeader) {
    && h.version < 0x10 && h.frameType < 0x10 && h.sessionId < 0x1000000 && h.sequence < 0x10000 && h.ack < 0x10000
    && h.gearId < 8 && h.fecRate < 8 && h.streamId < 0x1000 && h.priority < 4 && h.payloadLen < 0x1000 &&
      h.flags < 0x100
  }

  // ------------------------------------------------------------ the header layout

  function LayoutHead(h: FrameHeader): (r: Bits)
    ensures |r| == 64
  {
    NatBits(h.version, 4) + NatBits(h.frameType, 4) + NatBits(h.sessionId, 24) + NatBits(h.sequence, 16) +
      NatBits(h.ack, 16)
  }

  /** The 104 bits before the checksum. */
  function Layout(h: FrameHeader): (r: Bits)
    ensures |r| == 104
  {
    LayoutHead(h) + NatBits(h.gearId, 3) + NatBits(h.fecRate, 3) + NatBits(h.streamId, 12) + NatBits(h.priority, 2)
    + NatBits(h.payloadLen, 12) + NatBits(h.flags, 8)
  }

  function Fields(b: Bits): FrameHeader
    requires |b| >= 104
  {
    FrameHeader(BitsNat(b[0..4]), BitsNat(b[4..8]), BitsNat(b[8..32]), BitsNat(b[32..48]), BitsNat(b[48..64]),
                BitsNat(b[64..67]), BitsNat(b[67..70]), BitsNat(b[70..82]), BitsNat(b[82..84]), BitsNat(b[84..96]),
                BitsNat(b[96..104]))
  }

  /** What serializeHeader leaves in the buffer: the layout, then its own checksum. */
  predicate Serialized(bytes: seq<Byte>, h: FrameHeader) {
    |bytes| == HEADER_BYTES && MessageBits16(bytes) == Layout(h) + Bits16(Crc16(bytes[..HEADER_NOCRC_BYTES]))
  }

  function ParseHeader(bytes: seq<Byte>): Option<FrameHeader> {
    if |bytes| != HEADER_BYTES then None
    else if BitsNat(MessageBits16(bytes)[104..120]) != BitsNat(Bits16(Crc16(bytes[..HEADER_NOCRC_BYTES]))) then None
    else Some(Fields(MessageBits16(bytes)))
  }

  lemma PowersOfTwo()
    ensures Pow2(2) == 4 && Pow2(3) == 8 && Pow2(4) == 0x10 && Pow2(8) == 0x100 && Pow2(12) == 0x1000
    ensures Pow2(16) == 0x10000 && Pow2(24) == 0x1000000
  {
    assert Pow2(2) == 4 && Pow2(4) == 16 && Pow2(6) == 64 && Pow2(8) == 256 && Pow2(10) == 1024 && Pow2(12) == 4096;
    assert Pow2(14) == 16384 && Pow2(16) == 65536 && Pow2(18) == 0x40000 && Pow2(20) == 0x100000 &&
           Pow2(22) == 0x400000;
  }

  lemma BitsNatInjective(a: Bits, b: Bits)
    requires |a| == |b| && BitsNat(a) == BitsNat(b)
    ensures a == b
  {
    NatBitsOfBits(a);
    NatBitsOfBits(b);
  }

  lemma HeadSlices(h: FrameHeader)
    ensures var b := LayoutHead(h);
            && b[0..4] == NatBits(h.version, 4) && b[4..8] == NatBits(h.frameType, 4) &&
              b[8..32] == NatBits(h.sessionId, 24)
            && b[32..48] == NatBits(h.sequence, 16) && b[48..64] == NatBits(h.ack, 16)
  {
  }

  lemma TailSlices(h: FrameHeader)
    ensures var b := Layout(h);
            && b[..64] == LayoutHead(h)
            && b[64..67] == NatBits(h.gearId, 3) && b[67..70] == NatBits(h.fecRate, 3) &&
              b[70..82] == NatBits(h.streamId, 12)
            && b[82..84] == NatBits(h.priority, 2) && b[84..96] == NatBits(h.payloadLen, 12) &&
              b[96..104] == NatBits(h.flags, 8)
  {
  }

  /** Fields looks only at the first 104 bits. */
  lemma FieldsOfPrefix(b: Bits, rest: Bits)
    requires |b| == 104
    ensures Fields(b + rest) == Fields(b)
  {
    var c := b + rest;
    assert c[0..4] == b[0..4] && c[4..8] == b[4..8] && c[8..32] == b[8..32] && c[32..48] == b[32..48] &&
           c[48..64] == b[48..64];
    assert c[64..67] == b[64..67] && c[67..70] == b[67..70] && c[70..82] == b[70..82];
    assert c[82..84] == b[82..84] && c[84..96] == b[84..96] && c[96..104] == b[96..104];
  }

  lemma SliceOfSlice(b: Bits, i: nat, j: nat)
    requires i <= j <= 64 <= |b|
    ensures b[..64][i..j] == b[i..j]
  {
  }

  /** Reading the fields of a layout gives the header back. */
  lemma FieldsOfLayout(h: FrameHeader)
    requires InRange(h)
    ensures Fields(Layout(h)) == h
  {
    PowersOfTwo();
    var b := Layout(h);
    HeadSlices(h);
    TailSlices(h);
    SliceOfSlice(b, 0, 4); SliceOfSlice(b, 4, 8); SliceOfSlice(b, 8, 32); SliceOfSlice(b, 32, 48);
    SliceOfSlice(b, 48, 64);
    BitsNatOfNat(h.version, 4); BitsNatOfNat(h.frameType, 4); BitsNatOfNat(h.sessionId, 24);
    BitsNatOfNat(h.sequence, 16); BitsNatOfNat(h.ack, 16); BitsNatOfNat(h.gearId, 3); BitsNatOfNat(h.fecRate, 3);
    BitsNatOfNat(h.streamId, 12);
    BitsNatOfNat(h.priority, 2); BitsNatOfNat(h.payloadLen, 12); BitsNatOfNat(h.flags, 8);
  }

  lemma JoinSlices(b: Bits, i: nat, j: nat)
    requires i <= j <= |b|
    ensures b[..i] + b[i..j] == b[..j]
  {
  }

  /** Laying out the fields that were read gives the bits back. */
  lemma LayoutOfFields(b: Bits)
    requires |b| >= 104
    ensures Layout(Fields(b)) == b[..104]
  {
    NatBitsOfBits(b[0..4]); NatBitsOfBits(b[4..8]); NatBitsOfBits(b[8..32]); NatBitsOfBits(b[32..48]);
    NatBitsOfBits(b[48..64]); NatBitsOfBits(b[64..67]); NatBitsOfBits(b[67..70]); NatBitsOfBits(b[70..82]);
    NatBitsOfBits(b[82..84]); NatBitsOfBits(b[84..96]); NatBitsOfBits(b[96..104]);
    JoinSlices(b, 4, 8); JoinSlices(b, 8, 32); JoinSlices(b, 32, 48); JoinSlices(b, 48, 64); JoinSlices(b, 64, 67);
    JoinSlices(b, 67, 70); JoinSlices(b, 70, 82); JoinSlices(b, 82, 84); JoinSlices(b, 84, 96); JoinSlices(b, 96, 104);
  }

  lemma SliceBound(b: Bits, i: nat, j: nat)
    requires i <= j <= |b|
    ensures BitsNat(b[i..j]) < Pow2(j - i)
  {
    NatBitsOfBits(b[i..j]);
  }

  lemma FieldsInRange(b: Bits)
    requires |b| >= 104
    ensures InRange(Fields(b))
  {
    PowersOfTwo();
    SliceBound(b, 0, 4); SliceBound(b, 4, 8); SliceBound(b, 8, 32); SliceBound(b, 32, 48); SliceBound(b, 48, 64);
    SliceBound(b, 64, 67); SliceBound(b, 67, 70); SliceBound(b, 70, 82); SliceBound(b, 82, 84); SliceBound(b, 84, 96);
    SliceBound(b, 96, 104);
  }

  /** parseHeader undoes serializeHeader. */
  lemma ParseUndoesSerialize(bytes: seq<Byte>, h: FrameHeader)
    requires Serialized(bytes, h) && InRange(h)
    ensures ParseHeader(bytes) == Some(h)
  {
    var crc := Bits16(Crc16(bytes[..HEADER_NOCRC_BYTES]));
    FieldsOfPrefix(Layout(h), crc);
    FieldsOfLayout(h);
    assert (Layout(h) + crc)[104..120] == crc;
  }

  lemma BitsOfFields(b: Bits, crc: Bits)
    requires |b| == 120 && |crc| == 16 && BitsNat(b[104..120]) == BitsNat(crc)
    ensures b == Layout(Fields(b)) + crc
  {
    LayoutOfFields(b);
    BitsNatInjective(b[104..120], crc);
    JoinSlices(b, 104, 120);
  }

  /** And only what serializeHeader writes is parsed. */
  lemma ParsedIsSerialized(bytes: seq<Byte>, h: FrameHeader)
    requires ParseHeader(bytes) == Some(h)
    ensures Serialized(bytes, h) && InRange(h)
  {
    BitsOfFields(MessageBits16(bytes), Bits16(Crc16(bytes[..HEADER_NOCRC_BYTES])));
    FieldsInRange(MessageBits16(bytes));
  }

  lemma FieldAt(b: Bits, i: nat, j: nat, value: nat)
    requires i <= j <= |b| && value == BitsNat(b[i..j])
    ensures b[i..j] == NatBits(value, j - i)
  {
    NatBitsOfBits(b[i..j]);
  }

  lemma HeadPositions(b: Bits)
    requires |b| == 120
    ensures var h := Fields(b);
            && b[0..4] == NatBits(h.version, 4) && b[4..8] == NatBits(h.frameType, 4)
            && b[8..32] == NatBits(h.sessionId, 24) && b[32..48] == NatBits(h.sequence, 16)
            && b[48..64] == NatBits(h.ack, 16)
  {
    var h := Fields(b);
    FieldAt(b, 0, 4, h.version);
    FieldAt(b, 4, 8, h.frameType);
    FieldAt(b, 8, 32, h.sessionId);
    FieldAt(b, 32, 48, h.sequence);
    FieldAt(b, 48, 64, h.ack);
  }

  lemma TailPositions(b: Bits)
    requires |b| == 120
    ensures var h := Fields(b);
            && b[64..67] == NatBits(h.gearId, 3) && b[67..70] == NatBits(h.fecRate, 3)
            && b[70..82] == NatBits(h.streamId, 12) && b[82..84] == NatBits(h.priority, 2)
            && b[84..96] == NatBits(h.payloadLen, 12) && b[96..104] == NatBits(h.flags, 8)
  {
    var h := Fields(b);
    FieldAt(b, 64, 67, h.gearId);
    FieldAt(b, 67, 70, h.fecRate);
    FieldAt(b, 70, 82, h.streamId);
    FieldAt(b, 82, 84, h.priority);
    FieldAt(b, 84, 96, h.payloadLen);
    FieldAt(b, 96, 104, h.flags);
  }

  /** Where on the wire each field of a header is, highest bit first, from the highest bit of the first byte. */
  lemma FieldPositions(bytes: seq<Byte>, h: FrameHeader)
    requires ParseHeader(bytes) == Some(h)
    ensures var b := MessageBits16(bytes);
            && |b| == 120
            && b[0..4] == NatBits(h.version, 4) && b[4..8] == NatBits(h.frameType, 4)
            && b[8..32] == NatBits(h.sessionId, 24) && b[32..48] == NatBits(h.sequence, 16)
            && b[48..64] == NatBits(h.ack, 16) && b[64..67] == NatBits(h.gearId, 3)
            && b[67..70] == NatBits(h.fecRate, 3) && b[70..82] == NatBits(h.streamId, 12)
            && b[82..84] == NatBits(h.priority, 2) && b[84..96] == NatBits(h.payloadLen, 12)
            && b[96..104] == NatBits(h.flags, 8) && b[104..120] == Bits16(Crc16(bytes[..13]))
  {
    HeadPositions(MessageBits16(bytes));
    TailPositions(MessageBits16(bytes));
    BitsNatInjective(MessageBits16(bytes)[104..120], Bits16(Crc16(bytes[..13])));
  }

  // ------------------------------------------------------------ serializeHeader and parseHeader

  lemma {:induction false} ZeroBytes(n: nat)
    ensures MessageBits16(seq(n, _ => 0)) == Zeros(8 * n)
  {
    if n > 0 {
      var z: seq<Byte> := seq(n, _ => 0);
      assert z[..n - 1] == seq(n - 1, _ => 0);
      ZeroBytes(n - 1);
      ByteOnTop16(0);
      LowBytesOff(0, 0x80, 8);
      ZeroByte();
    }
  }

  lemma ZeroByte()
    ensures HighFirst(0) == Zeros(8)
  {
    forall k | 0 <= k < 8 ensures !HighFirst(0)[k] { HighFirstAt(0, k); }
  }

  /** One writeBits call of the serializer: the fields so far grow by one. */
  method AppendField(out: array<Byte>, bitPos: nat, value: nat, bits: nat, ghost prefix: Bits) returns (pos: nat)
    requires out.Length == HEADER_BYTES && bitPos == |prefix| && bitPos + bits <= 120
    requires MessageBits16(out[..]) == prefix + Zeros(120 - bitPos)
    modifies out
    ensures pos == bitPos + bits && MessageBits16(out[..]) == prefix + NatBits(value, bits) + Zeros(120 - pos)
  {
    OrBitsAppends(prefix, 120 - bitPos, NatBits(value, bits));
    pos := WriteBits(out, bitPos, value, bits);
  }

  method WriteHead(out: array<Byte>, h: FrameHeader) returns (bitPos: nat)
    requires out.Length == HEADER_BYTES && MessageBits16(out[..]) == Zeros(120)
    modifies out
    ensures bitPos == 64 && MessageBits16(out[..]) == LayoutHead(h) + Zeros(56)
  {
    assert Zeros(120) == [] + Zeros(120);
    bitPos := AppendField(out, 0, h.version, 4, []);
    ghost var p := NatBits(h.version, 4);
    assert [] + p == p;
    bitPos := AppendField(out, bitPos, h.frameType, 4, p);
    p := p + NatBits(h.frameType, 4);
    bitPos := AppendField(out, bitPos, h.sessionId, 24, p);
    p := p + NatBits(h.sessionId, 24);
    bitPos := AppendField(out, bitPos, h.sequence, 16, p);
    p := p + NatBits(h.sequence, 16);
    bitPos := AppendField(out, bitPos, h.ack, 16, p);
  }

  method WriteTail(out: array<Byte>, h: FrameHeader) returns (bitPos: nat)
    requires out.Length == HEADER_BYTES && MessageBits16(out[..]) == LayoutHead(h) + Zeros(56)
    modifies out
    ensures bitPos == 104 && MessageBits16(out[..]) == Layout(h) + Zeros(16)
  {
    ghost var p := LayoutHead(h);
    bitPos := AppendField(out, 64, h.gearId, 3, p);
    p := p + NatBits(h.gearId, 3);
    bitPos := AppendField(out, bitPos, h.fecRate, 3, p);
    p := p + NatBits(h.fecRate, 3);
    bitPos := AppendField(out, bitPos, h.streamId, 12, p);
    p := p + NatBits(h.streamId, 12);
    bitPos := AppendField(out, bitPos, h.priority, 2, p);
    p := p + NatBits(h.priority, 2);
    bitPos := AppendField(out, bitPos, h.payloadLen, 12, p);
    p := p + NatBits(h.payloadLen, 12);
    bitPos := AppendField(out, bitPos, h.flags, 8, p);
  }

  method SerializeHeader(h: FrameHeader) returns (out: array<Byte>)
    ensures fresh(out) && Serialized(out[..], h)
  {
    out := new Byte[HEADER_BYTES](_ => 0);
    ZeroBytes(HEADER_BYTES);
    assert out[..] == seq(HEADER_BYTES, _ => 0);
    var bitPos := WriteHead(out, h);
    bitPos := WriteTail(out, h);
    assert bitPos == 104;
    ghost var before := out[..];
    var crc := Crc16Ccitt(out, 0, HEADER_NOCRC_BYTES);
    assert out[0..0 + HEADER_NOCRC_BYTES] == before[..HEADER_NOCRC_BYTES];
    var crcValue := CrcValue(crc);
    bitPos := AppendField(out, 104, crcValue, 16, Layout(h));
    NatBitsOfBits(Bits16(crc));
    ChecksumLeavesFields(before, out[..], Layout(h), Bits16(crc));
  }

  /** The machine word as the number writeBits takes. */
  function CrcValue(crc: bv16): nat { BitsNat(Bits16(crc)) }

  /** Writing the checksum does not touch the bytes it covers. */
  lemma ChecksumLeavesFields(before: seq<Byte>, after: seq<Byte>, fields: Bits, crc: Bits)
    requires |before| == |after| == HEADER_BYTES && |fields| == 104 && |crc| == 16
    requires MessageBits16(before) == fields + Zeros(16) && MessageBits16(after) == fields + crc + Zeros(0)
    ensures before[..HEADER_NOCRC_BYTES] == after[..HEADER_NOCRC_BYTES]
    ensures MessageBits16(after) == fields + crc
  {
    PrefixBits(before, HEADER_NOCRC_BYTES);
    PrefixBits(after, HEADER_NOCRC_BYTES);
    assert MessageBits16(before)[..104] == fields && MessageBits16(after)[..104] == fields;
    BitsDetermine(before[..HEADER_NOCRC_BYTES], after[..HEADER_NOCRC_BYTES]);
  }

  lemma {:induction false} PrefixBits(data: seq<Byte>, n: nat)
    requires n <= |data|
    ensures MessageBits16(data[..n]) == MessageBits16(data)[..8 * n]
    decreases |data|
  {
    if n == |data| {
      assert data[..n] == data;
    } else {
      PrefixBits(data[..|data| - 1], n);
      assert data[..|data| - 1][..n] == data[..n];
    }
  }

  /** The readBits calls of parseHeader, one field after the other. */
  method ReadFields(bytes: array<Byte>) returns (h: FrameHeader)
    requires bytes.Length == HEADER_BYTES
    ensures h == Fields(MessageBits16(bytes[..]))
  {
    var version := ReadBits(bytes, 0, 4);
    var frameType := ReadBits(bytes, 4, 4);
    var sessionId := ReadBits(bytes, 8, 24);
    var sequence := ReadBits(bytes, 32, 16);
    var ack := ReadBits(bytes, 48, 16);
    var gearId := ReadBits(bytes, 64, 3);
    var fecRate := ReadBits(bytes, 67, 3);
    var streamId := ReadBits(bytes, 70, 12);
    var priority := ReadBits(bytes, 82, 2);
    var payloadLen := ReadBits(bytes, 84, 12);
    var flags := ReadBits(bytes, 96, 8);
    return FrameHeader(version, frameType, sessionId, sequence, ack, gearId, fecRate, streamId, priority, payloadLen,
                       flags);
  }

  method ParseHeaderBytes(bytes: array<Byte>) returns (r: Option<FrameHeader>)
    ensures r == ParseHeader(bytes[..])
  {
    if bytes.Length != HEADER_BYTES { return None; }
    var expected := Crc16Ccitt(bytes, 0, HEADER_NOCRC_BYTES);
    assert bytes[0..0 + HEADER_NOCRC_BYTES] == bytes[..][..HEADER_NOCRC_BYTES];
    var h := ReadFields(bytes);
    var crc := ReadBits(bytes, 104, 16);
    var expectedValue := CrcValue(expected);
    if crc != expectedValue { return None; }
    return Some(h);
  }

  // ------------------------------------------------------------ corrupted headers

  lemma AcceptedIff(bytes: seq<Byte>)
    requires |bytes| == HEADER_BYTES
    ensures ParseHeader(bytes).Some? <==> MessageBits16(bytes)[104..] == Bits16(Crc16(bytes[..HEADER_NOCRC_BYTES]))
  {
    var e, r := MessageBits16(bytes)[104..120], Bits16(Crc16(bytes[..HEADER_NOCRC_BYTES]));
    assert MessageBits16(bytes)[104..] == e;
    if BitsNat(e) == BitsNat(r) { BitsNatInjective(e, r); }
  }

  lemma ChecksumClears(poly: Bits, init: Bits, m: Bits, e: Bits)
    requires |init| == |poly| > 0 && poly[|poly| - 1] && |e| == |poly|
    ensures FeedAll(poly, init, m + e) == Zeros(|poly|) <==> e == FeedAll(poly, init, m)
  {
    FeedAllSplit(poly, init, m, e);
    ClearedOnlyBy(poly, FeedAll(poly, init, m), e);
    assert e + Zeros(0) == e;
  }

  /** Appending its own checksum, and only that, clears a register. */
  lemma OwnChecksumClears(poly: Bits, init: Bits, b: Bits, n: nat)
    requires |init| == |poly| > 0 && poly[|poly| - 1] && |b| == n + |poly|
    ensures FeedAll(poly, init, b) == Zeros(|poly|) <==> b[n..] == FeedAll(poly, init, b[..n])
  {
    var lo, hi := b[..n], b[n..];
    assert b == lo + hi;
    ChecksumClears(poly, init, lo, hi);
  }

  lemma HeaderChecksum(bytes: seq<Byte>)
    requires |bytes| == HEADER_BYTES
    ensures Bits16(Crc16(bytes[..HEADER_NOCRC_BYTES])) == FeedAll(Poly16(), Bits16(0xFFFF), MessageBits16(bytes)[..104])
  {
    UpdateFeeds16(0xFFFF, bytes[..HEADER_NOCRC_BYTES]);
    PrefixBits(bytes, HEADER_NOCRC_BYTES);
  }

  /** A header is accepted exactly when its 120 bits drive the checksum register to zero. */
  lemma AcceptedMeansCleared(bytes: seq<Byte>)
    requires |bytes| == HEADER_BYTES
    ensures ParseHeader(bytes).Some? <==> FeedAll(Poly16(), Bits16(0xFFFF), MessageBits16(bytes)) == Zeros(16)
  {
    AcceptedIff(bytes);
    HeaderChecksum(bytes);
    OwnChecksumClears(Poly16(), Bits16(0xFFFF), MessageBits16(bytes), 104);
  }

  /** A corruption of a header confined to 16 consecutive bits, checksum included, is rejected. */
  lemma HeaderBurstRejected(x: seq<Byte>, y: seq<Byte>, from: nat)
    requires ParseHeader(x).Some? && |y| == HEADER_BYTES && x != y
    requires forall i :: 0 <= i < 120 && MessageBits16(x)[i] != MessageBits16(y)[i] ==> from <= i < from + 16
    ensures ParseHeader(y) == None
  {
    AcceptedMeansCleared(x);
    AcceptedMeansCleared(y);
    if MessageBits16(x) == MessageBits16(y) { BitsDetermine(x, y); }
    BurstDetected(Poly16(), Bits16(0xFFFF), MessageBits16(x), MessageBits16(y), from);
  }

  // ------------------------------------------------------------ whole frames

  function U32Bytes(v: bv32): (r: seq<Byte>)
    ensures |r| == 4
  {
    [((v >> 24) & 0xFF) as Byte, ((v >> 16) & 0xFF) as Byte, ((v >> 8) & 0xFF) as Byte, (v & 0xFF) as Byte]
  }

  function U32At(b: seq<Byte>): bv32
    requires |b| == 4
  {
    WordOf(b[0], b[1], b[2], b[3])
  }

  function WordOf(p: Byte, q: Byte, r: Byte, s: Byte): bv32 {
    ((p as bv32) << 24) | ((q as bv32) << 16) | ((r as bv32) << 8) | (s as bv32)
  }

  lemma U32RoundTrip(v: bv32)
    ensures U32At(U32Bytes(v)) == v
  {
  }

  lemma U32Injective(b: seq<Byte>)
    requires |b| == 4
    ensures U32Bytes(U32At(b)) == b
  {
    U32Words(b[0], b[1], b[2], b[3]);
  }

  lemma U32Words(p: Byte, q: Byte, r: Byte, s: Byte)
    ensures var v := ((p as bv32) << 24) | ((q as bv32) << 16) | ((r as bv32) << 8) | (s as bv32);
            ((v >> 24) & 0xFF) as Byte == p && ((v >> 16) & 0xFF) as Byte == q && ((v >> 8) & 0xFF) as Byte == r &&
              (v & 0xFF) as Byte == s
  {
  }

  /** The bytes crc32c covers. */
  function Body(header: seq<Byte>, payload: seq<Byte>): seq<Byte> { [MAGIC0, MAGIC1] + header + payload }

  function MakeFrame(header: seq<Byte>, payload: seq<Byte>): seq<Byte> {
    Body(header, payload) + U32Bytes(Crc32(Body(header, payload)))
  }

  /** What ingestFrame makes of a frame's bytes before it looks at the header's contents. */
  datatype Ingested = Accepted(header: FrameHeader, payload: seq<Byte>) | BadCrc | BadArgument

  function ParseFrame(frame: seq<Byte>): Ingested {
    if |frame| < FIXED_PREAMBLE_BYTES + HEADER_BYTES + FRAME_CRC_BYTES then BadArgument
    else if frame[0] != MAGIC0 || frame[1] != MAGIC1 then BadCrc
    else if U32At(frame[|frame| - 4..]) != Crc32(frame[..|frame| - 4]) then BadCrc
    else
      var start := FIXED_PREAMBLE_BYTES + HEADER_BYTES;
      match ParseHeader(frame[FIXED_PREAMBLE_BYTES..start])
      case None => BadCrc
      case Some(h) =>
        if start + h.payloadLen + FRAME_CRC_BYTES != |frame| then BadArgument
        else Accepted(h, frame[start..start + h.payloadLen])
  }

  /** ingestFrame's checks accept every frame sendInternal builds, and recover its parts. */
  lemma FrameRoundTrip(header: seq<Byte>, h: FrameHeader, payload: seq<Byte>)
    requires Serialized(header, h) && InRange(h) && h.payloadLen == |payload|
    ensures ParseFrame(MakeFrame(header, payload)) == Accepted(h, payload)
  {
    var body, frame := Body(header, payload), MakeFrame(header, payload);
    U32RoundTrip(Crc32(body));
    assert frame[..|frame| - 4] == body && frame[|frame| - 4..] == U32Bytes(Crc32(body));
    assert frame[2..17] == header;
    ParseUndoesSerialize(header, h);
    assert frame[17..17 + h.payloadLen] == payload;
  }

  lemma AcceptedParts(frame: seq<Byte>)
    requires ParseFrame(frame).Accepted?
    ensures var a := ParseFrame(frame);
            && |frame| >= 4 && frame[..|frame| - 4] == Body(frame[2..17], a.payload)
            && frame[|frame| - 4..] == U32Bytes(Crc32(Body(frame[2..17], a.payload)))
  {
    var a := ParseFrame(frame);
    assert frame[..|frame| - 4] == Body(frame[2..17], a.payload);
    U32Injective(frame[|frame| - 4..]);
  }

  /** And they accept nothing else. */
  lemma OnlyBuiltFramesAccepted(frame: seq<Byte>)
    requires ParseFrame(frame).Accepted?
    ensures var a := ParseFrame(frame);
            && Serialized(frame[2..17], a.header) && InRange(a.header) && a.header.payloadLen == |a.payload|
            && frame == MakeFrame(frame[2..17], a.payload)
  {
    ParsedIsSerialized(frame[2..17], ParseFrame(frame).header);
    AcceptedParts(frame);
    assert frame == frame[..|frame| - 4] + frame[|frame| - 4..];
  }

  /** What is accepted, byte by byte: the magic, 15 header bytes that parse, as many payload bytes as they say, and the
      CRC-32C of all of that, highest byte first. */
  lemma AcceptedBytes(frame: seq<Byte>)
    ensures ParseFrame(frame).Accepted? <==>
              && |frame| >= 21 && frame[0] == 0xC7 && frame[1] == 0x58 && ParseHeader(frame[2..17]).Some?
              && |frame| == 21 + ParseHeader(frame[2..17]).value.payloadLen
              && BytesOf(frame[|frame| - 4..], Crc32(frame[..|frame| - 4]))
    ensures ParseFrame(frame).Accepted? ==>
              ParseFrame(frame) == Accepted(ParseHeader(frame[2..17]).value, frame[17..|frame| - 4])
  {
    if |frame| >= 21 { TrailerBytes(frame[|frame| - 4..], Crc32(frame[..|frame| - 4])); }
  }

  /** These four bytes are this word, highest byte first. */
  predicate BytesOf(tail: seq<Byte>, c: bv32)
    requires |tail| == 4
  {
    && tail[0] as bv32 == c >> 24 && tail[1] as bv32 == (c >> 16) & 0xFF
    && tail[2] as bv32 == (c >> 8) & 0xFF && tail[3] as bv32 == c & 0xFF
  }

  lemma TrailerBytes(tail: seq<Byte>, c: bv32)
    requires |tail| == 4
    ensures U32At(tail) == c <==> BytesOf(tail, c)
  {
    var p, q, r, s := tail[0], tail[1], tail[2], tail[3];
    assert U32At(tail) == c <==> WordOf(p, q, r, s) == c;
    TrailerMeans(p, q, r, s, c, WordOf(p, q, r, s));
  }

  lemma TrailerMeans(p: Byte, q: Byte, r: Byte, s: Byte, c: bv32, v: bv32)
    requires v == WordOf(p, q, r, s)
    ensures v == c <==>
              p as bv32 == c >> 24 && q as bv32 == (c >> 16) & 0xFF && r as bv32 == (c >> 8) & 0xFF &&
                s as bv32 == c & 0xFF
  {
    TrailerWords(p, q, r, s, c, v);
  }

  lemma TrailerWords(p: Byte, q: Byte, r: Byte, s: Byte, c: bv32, v: bv32)
    requires v == ((p as bv32) << 24) | ((q as bv32) << 16) | ((r as bv32) << 8) | (s as bv32)
    ensures v == c <==>
              p as bv32 == c >> 24 && q as bv32 == (c >> 16) & 0xFF && r as bv32 == (c >> 8) & 0xFF &&
                s as bv32 == c & 0xFF
  {
  }

  /** A corruption confined to four consecutive covered bytes is rejected as a CRC error. */
  lemma FrameBurstRejected(x: seq<Byte>, y: seq<Byte>, from: nat)
    requires ParseFrame(x).Accepted? && |y| == |x| && x != y && x[|x| - 4..] == y[|x| - 4..]
    requires forall i :: 0 <= i < |x| && x[i] != y[i] ==> from <= i < from + 4
    ensures ParseFrame(y) == BadCrc
  {
    var n := |x| - 4;
    assert x == x[..n] + x[n..] && y == y[..n] + y[n..];
    Crc32DetectsFourBytes(x[..n], y[..n], from);
  }

  // ------------------------------------------------------------ building and checking frames in arrays

  /** The magic, header and payload at the front of a frame. */
  method PutBody(frame: array<Byte>, header: array<Byte>, payload: array<Byte>)
    requires header.Length == HEADER_BYTES && frame != header && frame != payload
    requires frame.Length == FIXED_PREAMBLE_BYTES + HEADER_BYTES + payload.Length + FRAME_CRC_BYTES
    modifies frame
    ensures frame[..frame.Length - FRAME_CRC_BYTES] == Body(header[..], payload[..])
  {
    frame[0] := MAGIC0;
    frame[1] := MAGIC1;
    forall i | 0 <= i < HEADER_BYTES { frame[FIXED_PREAMBLE_BYTES + i] := header[i]; }
    forall i | 0 <= i < payload.Length { frame[FIXED_PREAMBLE_BYTES + HEADER_BYTES + i] := payload[i]; }
  }

  /** The CRC at its end. */
  method PutCrc(frame: array<Byte>, crc: bv32)
    requires frame.Length >= FRAME_CRC_BYTES
    modifies frame
    ensures frame[..] == old(frame[..frame.Length - FRAME_CRC_BYTES]) + U32Bytes(crc)
  {
    var n, tail := frame.Length - FRAME_CRC_BYTES, U32Bytes(crc);
    frame[n], frame[n + 1], frame[n + 2], frame[n + 3] := tail[0], tail[1], tail[2], tail[3];
  }

  /** sendInternal's frame assembly. */
  method BuildFrame(header: array<Byte>, payload: array<Byte>) returns (frame: array<Byte>)
    requires header.Length == HEADER_BYTES && payload.Length <= MAX_FRAME_PAYLOAD
    ensures fresh(frame) && frame[..] == MakeFrame(header[..], payload[..])
  {
    var n := FIXED_PREAMBLE_BYTES + HEADER_BYTES + payload.Length;
    frame := new Byte[n + FRAME_CRC_BYTES](_ => 0);
    PutBody(frame, header, payload);
    var crc := Crc32c(frame, 0, n);
    assert frame[0..0 + n] == frame[..n];
    PutCrc(frame, crc);
  }

  /** The magic and the CRC-32C of a frame that is long enough. */
  method CheckSum(frame: array<Byte>) returns (ok: bool)
    requires frame.Length >= FIXED_PREAMBLE_BYTES + HEADER_BYTES + FRAME_CRC_BYTES
    ensures var n := frame.Length;
            ok == (frame[0] == MAGIC0 && frame[1] == MAGIC1 && U32At(frame[..][n - 4..]) == Crc32(frame[..][..n - 4]))
  {
    var n := frame.Length;
    if frame[0] != MAGIC0 || frame[1] != MAGIC1 { return false; }
    var expected := U32At([frame[n - 4], frame[n - 3], frame[n - 2], frame[n - 1]]);
    assert [frame[n - 4], frame[n - 3], frame[n - 2], frame[n - 1]] == frame[..][n - 4..];
    var actual := Crc32c(frame, 0, n - 4);
    assert frame[0..0 + (n - 4)] == frame[..][..n - 4];
    ok := expected == actual;
  }

  /** The header, parsed from a copy of its bytes. */
  method CopyHeader(frame: array<Byte>) returns (header: Option<FrameHeader>)
    requires frame.Length >= FIXED_PREAMBLE_BYTES + HEADER_BYTES
    ensures header == ParseHeader(frame[..][FIXED_PREAMBLE_BYTES..FIXED_PREAMBLE_BYTES + HEADER_BYTES])
  {
    var headerBytes := new Byte[HEADER_BYTES](
      i requires 0 <= i < HEADER_BYTES reads frame => frame[FIXED_PREAMBLE_BYTES + i]);
    header := ParseHeaderBytes(headerBytes);
    assert headerBytes[..] == frame[..][FIXED_PREAMBLE_BYTES..FIXED_PREAMBLE_BYTES + HEADER_BYTES];
  }

  /** ingestFrame's checks. */
  method CheckFrame(frame: array<Byte>) returns (r: Ingested)
    ensures r == ParseFrame(frame[..])
  {
    var n := frame.Length;
    if n < FIXED_PREAMBLE_BYTES + HEADER_BYTES + FRAME_CRC_BYTES { return BadArgument; }
    var ok := CheckSum(frame);
    if !ok { return BadCrc; }
    var header := CopyHeader(frame);
    if header.None? { return BadCrc; }
    var start := FIXED_PREAMBLE_BYTES + HEADER_BYTES;
    var end := start + header.value.payloadLen;
    if end + FRAME_CRC_BYTES != n { return BadArgument; }
    return Accepted(header.value, frame[start..end]);
  }
}
