/** Bit fields of the Cyrinx frame header: writeBits and readBits over byte buffers. */
module HeaderBits {
  import opened ShiftRegister
  import opened Crc
  import opened Binary

  /** 1 shl index, for a bit index within a byte. */
  function BitMask(index: nat): Byte
    requires index < 8
  {
    match index
    case 0 => 1
    case 1 => 2
    case 2 => 4
    case 3 => 8
    case 4 => 16
    case 5 => 32
    case 6 => 64
    case _ => 128
  }

  predicate TestBit(b: Byte, index: nat)
    requires index < 8
  {
    b & BitMask(index) != 0
  }

  function SetBit(b: Byte, index: nat): Byte
    requires index < 8
  {
    b | BitMask(index)
  }

  // ------------------------------------------------------------ numbers as bit lists

  /** The low n bits of value, most significant first. */
  function NatBits(value: nat, n: nat): (r: Bits)
    ensures |r| == n
    decreases n, value
  {
    if n == 0 then [] else NatBits(value / 2, n - 1) + [value % 2 == 1]
  }

  function BitsNat(bits: Bits): nat {
    if bits == [] then 0 else 2 * BitsNat(bits[..|bits| - 1]) + (if bits[|bits| - 1] then 1 else 0)
  }

  lemma {:induction false} NatBitsAt(value: nat, n: nat, i: nat)
    requires i < n
    ensures NatBits(value, n)[i] == (Shr(value, n - 1 - i) % 2 == 1)
    decreases n
  {
    if i < n - 1 { NatBitsAt(value / 2, n - 1, i); }
  }

  lemma {:induction false} BitsNatOfNat(value: nat, n: nat)
    requires value < Pow2(n)
    ensures BitsNat(NatBits(value, n)) == value
    decreases n
  {
    if n > 0 {
      BitsNatOfNat(value / 2, n - 1);
      assert NatBits(value, n)[..n - 1] == NatBits(value / 2, n - 1);
    }
  }

  lemma {:induction false} NatBitsOfBits(bits: Bits)
    ensures NatBits(BitsNat(bits), |bits|) == bits && BitsNat(bits) < Pow2(|bits|)
    decreases |bits|
  {
    if bits != [] {
      NatBitsOfBits(bits[..|bits| - 1]);
      assert bits == bits[..|bits| - 1] + [bits[|bits| - 1]];
    }
  }

  // ------------------------------------------------------------ one byte

  lemma {:induction false} DownAt(c: bv16, mask: bv16, n: nat, k: nat)
    requires k < n
    ensures Down(c, mask, n)[k] == On16(c, MaskDown(mask, k))
    decreases n
  {
    if k > 0 { DownAt(c, mask >> 1, n - 1, k - 1); }
  }

  lemma MaskDownIs(k: nat)
    requires k < 8
    ensures MaskDown(0x8000, k) == (BitMask(7 - k) as bv16) << 8
  {
    if k >= 4 { MaskDown4(0x8000, k - 4); }
  }

  lemma TopByteTest(b: Byte, mask: Byte)
    ensures On16((b as bv16) << 8, (mask as bv16) << 8) == (b & mask != 0)
  {
  }

  /** The bit-serial order of a byte is the order writeBits and readBits use. */
  lemma HighFirstAt(b: Byte, k: nat)
    requires k < 8
    ensures HighFirst(b)[k] == TestBit(b, 7 - k)
  {
    DownAt((b as bv16) << 8, 0x8000, 8, k);
    MaskDownIs(k);
    TopByteTest(b, BitMask(7 - k));
  }

  lemma SetBitTests(b: Byte, i: nat, j: nat)
    requires i < 8 && j < 8
    ensures TestBit(SetBit(b, i), j) == (TestBit(b, j) || i == j)
  {
    MasksDisjoint(i, j);
  }

  lemma MasksDisjoint(i: nat, j: nat)
    requires i < 8 && j < 8
    ensures (BitMask(i) & BitMask(j) != 0) == (i == j)
  {
  }

  lemma SetBitBitsAt(b: Byte, k: nat, j: nat)
    requires k < 8 && j < 8
    ensures HighFirst(SetBit(b, 7 - k))[j] == (HighFirst(b)[j] || j == k)
  {
    HighFirstAt(SetBit(b, 7 - k), j);
    HighFirstAt(b, j);
    SetBitTests(b, 7 - k, 7 - j);
  }

  lemma SetBitBits(b: Byte, k: nat)
    requires k < 8
    ensures HighFirst(SetBit(b, 7 - k)) == HighFirst(b)[k := true]
  {
    var h, g := HighFirst(SetBit(b, 7 - k)), HighFirst(b)[k := true];
    forall j | 0 <= j < 8 ensures h[j] == g[j] { SetBitBitsAt(b, k, j); }
  }

  lemma TestsEqual(a: Byte, b: Byte, k: nat)
    requires HighFirst(a) == HighFirst(b) && k < 8
    ensures TestBit(a, 7 - k) == TestBit(b, 7 - k)
  {
    HighFirstAt(a, k);
    HighFirstAt(b, k);
  }

  lemma HighFirstInjective(a: Byte, b: Byte)
    requires HighFirst(a) == HighFirst(b)
    ensures a == b
  {
    TestsEqual(a, b, 0); TestsEqual(a, b, 1); TestsEqual(a, b, 2); TestsEqual(a, b, 3);
    TestsEqual(a, b, 4); TestsEqual(a, b, 5); TestsEqual(a, b, 6); TestsEqual(a, b, 7);
  }

  // ------------------------------------------------------------ buffers

  lemma {:induction false} MessageSlice(data: seq<Byte>, i: nat)
    requires i < |data|
    ensures MessageBits16(data)[8 * i..8 * i + 8] == HighFirst(data[i])
    decreases |data|
  {
    var n := |data| - 1;
    if i < n { MessageSlice(data[..n], i); }
  }

  lemma {:induction false} MessageBits16At(data: seq<Byte>, i: nat)
    requires i < 8 * |data|
    ensures MessageBits16(data)[i] == HighFirst(data[i / 8])[i % 8]
    decreases |data|
  {
    var n := |data| - 1;
    if i < 8 * n { MessageBits16At(data[..n], i); }
  }

  lemma ReplaceByte(data: seq<Byte>, pos: nat, b: Byte)
    requires pos < 8 * |data| && HighFirst(b) == HighFirst(data[pos / 8])[pos % 8 := true]
    ensures MessageBits16(data[pos / 8 := b]) == MessageBits16(data)[pos := true]
  {
    var d := data[pos / 8 := b];
    forall i | 0 <= i < 8 * |data| ensures MessageBits16(d)[i] == MessageBits16(data)[pos := true][i] {
      MessageBits16At(d, i);
      MessageBits16At(data, i);
    }
  }

  /** Setting one bit of a buffer. */
  lemma BufferSetBit(data: seq<Byte>, pos: nat)
    requires pos < 8 * |data|
    ensures MessageBits16(data[pos / 8 := SetBit(data[pos / 8], 7 - pos % 8)]) == MessageBits16(data)[pos := true]
  {
    SetBitBits(data[pos / 8], pos % 8);
    ReplaceByte(data, pos, SetBit(data[pos / 8], 7 - pos % 8));
  }

  /** The buffer's bits with the first n of `field` added from `pos` on. */
  function OrFirst(buffer: Bits, pos: nat, field: Bits, n: nat): (r: Bits)
    requires pos + n <= |buffer| && n <= |field|
    ensures |r| == |buffer| && forall i :: 0 <= i < |r| ==>
            r[i] == (buffer[i] || (pos <= i < pos + n && field[i - pos]))
  {
    seq(|buffer|, i requires 0 <= i < |buffer| => buffer[i] || (pos <= i < pos + n && field[i - pos]))
  }

  function OrBits(buffer: Bits, pos: nat, field: Bits): (r: Bits)
    requires pos + |field| <= |buffer|
    ensures |r| == |buffer|
  {
    OrFirst(buffer, pos, field, |field|)
  }

  lemma OrFirstStep(buffer: Bits, pos: nat, field: Bits, n: nat)
    requires pos + n < |buffer| && n < |field|
    ensures OrFirst(buffer, pos, field, n + 1)
         == if field[n] then OrFirst(buffer, pos, field, n)[pos + n := true] else OrFirst(buffer, pos, field, n)
    ensures OrFirst(buffer, pos, field, 0) == buffer
  {
  }

  /** Adding a field to the zeros that follow a prefix appends it. */
  lemma OrBitsAppends(prefix: Bits, n: nat, field: Bits)
    requires |field| <= n
    ensures OrBits(prefix + Zeros(n), |prefix|, field) == prefix + field + Zeros(n - |field|)
  {
  }

  /** buffer[pos / 8] |= 1 shl (7 - pos % 8). */
  method SetBufferBit(buffer: array<Byte>, pos: nat)
    requires pos < 8 * buffer.Length
    modifies buffer
    ensures MessageBits16(buffer[..]) == old(MessageBits16(buffer[..]))[pos := true]
  {
    ghost var data := buffer[..];
    var byteIndex := pos / 8;
    var bitIndex := 7 - pos % 8;
    buffer[byteIndex] := SetBit(buffer[byteIndex], bitIndex);
    assert buffer[..] == data[byteIndex := SetBit(data[byteIndex], bitIndex)];
    BufferSetBit(data, pos);
  }

  /** (buffer[pos / 8] ushr (7 - pos % 8)) and 1. */
  method GetBufferBit(buffer: array<Byte>, pos: nat) returns (bit: nat)
    requires pos < 8 * buffer.Length
    ensures bit == if MessageBits16(buffer[..])[pos] then 1 else 0
  {
    var byteIndex := pos / 8;
    var bitIndex := 7 - pos % 8;
    bit := if TestBit(buffer[byteIndex], bitIndex) then 1 else 0;
    MessageBits16At(buffer[..], pos);
    HighFirstAt(buffer[byteIndex], pos % 8);
  }

  /** One round of writeBits: a 1 is written, a 0 is not. */
  method WriteBit(buffer: array<Byte>, pos: nat, on: bool)
    requires pos < 8 * buffer.Length
    modifies buffer
    ensures MessageBits16(buffer[..]) ==
              if on then old(MessageBits16(buffer[..]))[pos := true] else old(MessageBits16(buffer[..]))
  {
    if on { SetBufferBit(buffer, pos); }
  }

  method WriteBits(buffer: array<Byte>, bitPos: nat, value: nat, bits: nat) returns (pos: nat)
    requires bitPos + bits <= 8 * buffer.Length
    modifies buffer
    ensures pos == bitPos + bits
    ensures MessageBits16(buffer[..]) == OrBits(old(MessageBits16(buffer[..])), bitPos, NatBits(value, bits))
  {
    ghost var before, field := MessageBits16(buffer[..]), NatBits(value, bits);
    assert OrFirst(before, bitPos, field, 0) == before;
    pos := bitPos;
    for i := 0 to bits
      invariant pos == bitPos + i
      invariant MessageBits16(buffer[..]) == OrFirst(before, bitPos, field, i)
    {
      NatBitsAt(value, bits, i);
      OrFirstStep(before, bitPos, field, i);
      var shift := bits - 1 - i;
      var bit := Shr(value, shift) % 2;
      WriteBit(buffer, pos, bit == 1);
      pos := pos + 1;
    }
  }

  method ReadBits(buffer: array<Byte>, bitPos: nat, bits: nat) returns (value: nat)
    requires bitPos + bits <= 8 * buffer.Length
    ensures value == BitsNat(MessageBits16(buffer[..])[bitPos..bitPos + bits])
  {
    ghost var all := MessageBits16(buffer[..]);
    value := 0;
    var pos := bitPos;
    for i := 0 to bits
      invariant pos == bitPos + i && value == BitsNat(all[bitPos..bitPos + i])
    {
      var bit := GetBufferBit(buffer, pos);
      assert all[bitPos..bitPos + i + 1][..i] == all[bitPos..bitPos + i];
      value := 2 * value + bit;
      pos := pos + 1;
    }
  }

  /** The bits of a buffer determine it. */
  lemma BitsDetermine(x: seq<Byte>, y: seq<Byte>)
    requires |x| == |y| && MessageBits16(x) == MessageBits16(y)
    ensures x == y
  {
    forall i | 0 <= i < |x| ensures x[i] == y[i] {
      MessageSlice(x, i);
      MessageSlice(y, i);
      HighFirstInjective(x[i], y[i]);
    }
  }
}
