/** The two checksums of CyrinxTransportSession.kt, on machine words as the source computes
    them, and the corruption they are sure to catch. */
module Crc {
  import opened ShiftRegister

  type Byte = bv8

  // ------------------------------------------------------------ crc16ccitt

  function Shift16(c: bv16): bv16 {
    if (c & 0x8000) != 0 then (c << 1) ^ 0x1021 else c << 1
  }

  function Shifts16(c: bv16, n: nat): bv16
    decreases n, c
  {
    if n == 0 then c else Shifts16(Shift16(c), n - 1)
  }

  function AddByte16(c: bv16, b: Byte): bv16 { Shifts16(c ^ ((b as bv16) << 8), 8) }

  function Update16(c: bv16, data: seq<Byte>): bv16
    decreases |data|
  {
    if data == [] then c else AddByte16(Update16(c, data[..|data| - 1]), data[|data| - 1])
  }

  function Crc16(data: seq<Byte>): bv16 { Update16(0xFFFF, data) }

  /** The source's loops. */
  method Crc16Ccitt(data: array<Byte>, start: nat, len: nat) returns (crc: bv16)
    requires start + len <= data.Length
    ensures crc == Crc16(data[start..start + len])
  {
    crc := 0xFFFF;
    for i := 0 to len
      invariant crc == Update16(0xFFFF, data[start..start + i])
    {
      ghost var next := AddByte16(crc, data[start + i]);
      crc := crc ^ ((data[start + i] as bv16) << 8);
      for j := 0 to 8
        invariant Shifts16(crc, 8 - j) == next
      {
        crc := if (crc & 0x8000) != 0 then (crc << 1) ^ 0x1021 else crc << 1;
      }
      assert data[start..start + i + 1][..i] == data[start..start + i];
    }
  }

  // ------------------------------------------------------------ crc32c

  function Shift32(c: bv32): bv32 {
    (c >> 1) ^ (0x82F63B78 & (if (c & 1) != 0 then 0xFFFFFFFF else 0))
  }

  function Shifts32(c: bv32, n: nat): bv32
    decreases n, c
  {
    if n == 0 then c else Shifts32(Shift32(c), n - 1)
  }

  function AddByte32(c: bv32, b: Byte): bv32 { Shifts32(c ^ (b as bv32), 8) }

  function Update32(c: bv32, data: seq<Byte>): bv32
    decreases |data|
  {
    if data == [] then c else AddByte32(Update32(c, data[..|data| - 1]), data[|data| - 1])
  }

  /** Kotlin's inv(). */
  function Invert(c: bv32): bv32 { !c }

  function Crc32(data: seq<Byte>): bv32 { Invert(Update32(0xFFFFFFFF, data)) }

  /** The source's outer loop; its inner loop is TakeByte. */
  method Crc32c(data: array<Byte>, start: nat, len: nat) returns (crc: bv32)
    requires start + len <= data.Length
    ensures crc == Crc32(data[start..start + len])
  {
    crc := 0xFFFFFFFF;
    for i := 0 to len
      invariant crc == Update32(0xFFFFFFFF, data[start..start + i])
    {
      crc := TakeByte(crc, data[start + i]);
      assert data[start..start + i + 1][..i] == data[start..start + i];
    }
    crc := Invert(crc);
  }

  method TakeByte(c: bv32, b: Byte) returns (crc: bv32)
    ensures crc == AddByte32(c, b)
  {
    crc := c ^ (b as bv32);
    ghost var mixed := crc;
    for j := 0 to 8
      invariant Shifts32(crc, 8 - j) == Shifts32(mixed, 8)
    {
      var mask: bv32 := if (crc & 1) != 0 then 0xFFFFFFFF else 0;
      crc := (crc >> 1) ^ (0x82F63B78 & mask);
    }
  }

  // ------------------------------------------------------------ words as bit lists, crc16ccitt

  predicate On16(c: bv16, mask: bv16) { c & mask != 0 }

  /** n bits of c, from the one under the mask downwards: crc16ccitt shifts left. */
  function Down(c: bv16, mask: bv16, n: nat): (r: Bits)
    ensures |r| == n
    decreases n, c
  {
    if n == 0 then [] else [On16(c, mask)] + Down(c, mask >> 1, n - 1)
  }

  function Bits16(c: bv16): (r: Bits)
    ensures |r| == 16
  {
    Down(c, 0x8000, 16)
  }

  /** A byte in the order crc16ccitt takes its bits. */
  function HighFirst(b: Byte): (r: Bits)
    ensures |r| == 8
  {
    Down((b as bv16) << 8, 0x8000, 8)
  }

  function MessageBits16(data: seq<Byte>): (r: Bits)
    ensures |r| == 8 * |data|
    decreases |data|
  {
    if data == [] then [] else MessageBits16(data[..|data| - 1]) + HighFirst(data[|data| - 1])
  }

  function MaskDown(mask: bv16, n: nat): bv16
    decreases n
  {
    if n == 0 then mask else MaskDown(mask >> 1, n - 1)
  }

  lemma MaskDown4(mask: bv16, n: nat)
    ensures MaskDown(mask, n + 4) == MaskDown(mask >> 4, n)
  {
    assert MaskDown(mask, n + 4) == MaskDown(mask >> 1 >> 1, n + 2);
    assert mask >> 1 >> 1 >> 1 >> 1 == mask >> 4;
  }

  lemma MasksDown()
    ensures MaskDown(0x8000, 8) == 0x80 && MaskDown(0x4000, 15) == 0 && MaskDown(0x8000, 15) == 1
  {
    MaskDown4(0x8000, 4); MaskDown4(0x800, 0);
    MaskDown4(0x4000, 11); MaskDown4(0x400, 7); MaskDown4(0x40, 3);
    MaskDown4(0x8000, 11); MaskDown4(0x800, 7); MaskDown4(0x80, 3);
    assert MaskDown(4, 3) == MaskDown(1, 1) && MaskDown(8, 3) == MaskDown(2, 1);
  }

  lemma SingleBit16(mask: bv16)
    requires mask & (mask - 1) == 0
    ensures (mask >> 1) & ((mask >> 1) - 1) == 0
  {
  }

  lemma XorBit16(c: bv16, d: bv16, mask: bv16)
    requires mask & (mask - 1) == 0
    ensures On16(c ^ d, mask) == (On16(c, mask) != On16(d, mask))
  {
  }

  lemma ShiftBit16(c: bv16, mask: bv16)
    requires mask & (mask - 1) == 0
    ensures On16(c << 1, mask) == On16(c, mask >> 1)
  {
  }

  lemma {:induction false} DownXor(c: bv16, d: bv16, mask: bv16, n: nat)
    requires mask & (mask - 1) == 0
    ensures Down(c ^ d, mask, n) == Xor(Down(c, mask, n), Down(d, mask, n))
    decreases n
  {
    if n > 0 {
      XorBit16(c, d, mask);
      SingleBit16(mask);
      DownXor(c, d, mask >> 1, n - 1);
    }
  }

  lemma {:induction false} DownShifted(c: bv16, mask: bv16, n: nat)
    requires mask & (mask - 1) == 0
    ensures Down(c << 1, mask, n) == Down(c, mask >> 1, n)
    decreases n
  {
    if n > 0 {
      ShiftBit16(c, mask);
      SingleBit16(mask);
      DownShifted(c, mask >> 1, n - 1);
    }
  }

  lemma {:induction false} DownSplit(c: bv16, mask: bv16, m: nat, n: nat)
    ensures Down(c, mask, m + n) == Down(c, mask, m) + Down(c, MaskDown(mask, m), n)
    decreases m
  {
    if m > 0 { DownSplit(c, mask >> 1, m - 1, n); }
  }

  lemma ShiftLeft16(c: bv16)
    ensures Bits16(c << 1) == Bits16(c)[1..] + [false]
  {
    DownShifted(c, 0x8000, 16);
    DownSplit(c, 0x4000, 15, 1);
    MasksDown();
    assert Down(c, 0, 1) == [false];
    assert Bits16(c)[1..] == Down(c, 0x4000, 15);
  }

  /** The polynomial 0x1021 as feedback taps. */
  function Poly16(): (r: Bits)
    ensures |r| == 16 && r[15]
  {
    DownSplit(0x1021, 0x8000, 15, 1);
    MasksDown();
    assert Down(0x1021, 1, 1) == [true];
    Bits16(0x1021)
  }

  lemma ShiftIsStep16(c: bv16)
    ensures Bits16(Shift16(c)) == Step(Poly16(), Bits16(c))
  {
    ShiftLeft16(c);
    DownXor(c << 1, 0x1021, 0x8000, 16);
  }

  lemma {:induction false} StepsFollow16(poly: Bits, c: bv16, r: Bits, n: nat)
    requires |poly| == 16 && Bits16(c) == r
    requires forall x: bv16 :: Bits16(Shift16(x)) == Step(poly, Bits16(x))
    ensures Bits16(Shifts16(c, n)) == StepMany(poly, r, n)
    decreases n
  {
    if n > 0 { StepsFollow16(poly, Shift16(c), Step(poly, r), n - 1); }
  }

  lemma ShiftsAreSteps16(c: bv16, n: nat)
    ensures Bits16(Shifts16(c, n)) == StepMany(Poly16(), Bits16(c), n)
  {
    forall x: bv16 ensures Bits16(Shift16(x)) == Step(Poly16(), Bits16(x)) { ShiftIsStep16(x); }
    StepsFollow16(Poly16(), c, Bits16(c), n);
  }

  lemma {:induction false} LowBytesOff(c: bv16, mask: bv16, n: nat)
    requires c & 0xFF == 0 && mask <= 0xFF
    ensures Down(c, mask, n) == Zeros(n)
    decreases n
  {
    if n > 0 { LowBytesOff(c, mask >> 1, n - 1); }
  }

  lemma ByteOnTop16(b: Byte)
    ensures Bits16((b as bv16) << 8) == HighFirst(b) + Zeros(8)
  {
    DownSplit((b as bv16) << 8, 0x8000, 8, 8);
    MasksDown();
    LowBytesOff((b as bv16) << 8, 0x80, 8);
  }

  lemma JoinBits16(c: bv16, d: bv16, m: Bits)
    requires Bits16(d) == m
    ensures Bits16(c ^ d) == Xor(Bits16(c), m)
  {
    DownXor(c, d, 0x8000, 16);
  }

  lemma ByteJoins16(c: bv16, b: Byte)
    ensures Bits16(c ^ ((b as bv16) << 8)) == Xor(Bits16(c), HighFirst(b) + Zeros(8))
  {
    ByteOnTop16(b);
    JoinBits16(c, (b as bv16) << 8, HighFirst(b) + Zeros(8));
  }

  /** Taking in a byte is feeding its eight bits. */
  lemma AddByteFeeds16(c: bv16, b: Byte)
    ensures Bits16(AddByte16(c, b)) == FeedAll(Poly16(), Bits16(c), HighFirst(b))
  {
    ByteJoins16(c, b);
    ShiftsFeed16(c, c ^ ((b as bv16) << 8), HighFirst(b));
  }

  lemma ShiftsFeed16(c: bv16, x: bv16, m: Bits)
    requires |m| == 8 && Bits16(x) == Xor(Bits16(c), m + Zeros(8))
    ensures Bits16(Shifts16(x, 8)) == FeedAll(Poly16(), Bits16(c), m)
  {
    ShiftsAreSteps16(x, 8);
    StepManyFeeds(Poly16(), Bits16(c), m);
  }

  /** crc16ccitt is the bit-serial register run over the message. */
  lemma {:induction false} UpdateFeeds16(c: bv16, data: seq<Byte>)
    ensures Bits16(Update16(c, data)) == FeedAll(Poly16(), Bits16(c), MessageBits16(data))
    decreases |data|
  {
    if data != [] {
      var before, b := data[..|data| - 1], data[|data| - 1];
      UpdateFeeds16(c, before);
      AddByteFeeds16(Update16(c, before), b);
      FeedAllSplit(Poly16(), Bits16(c), MessageBits16(before), HighFirst(b));
    }
  }

  /** Two messages of one length that differ, but only inside 16 consecutive bits, have
      different crc16ccitt values. */
  lemma Crc16DetectsBursts(x: seq<Byte>, y: seq<Byte>, from: nat)
    requires |x| == |y| && MessageBits16(x) != MessageBits16(y)
    requires forall i :: 0 <= i < 8 * |x| && MessageBits16(x)[i] != MessageBits16(y)[i] ==> from <= i < from + 16
    ensures Crc16(x) != Crc16(y)
  {
    UpdateFeeds16(0xFFFF, x);
    UpdateFeeds16(0xFFFF, y);
    BurstDetected(Poly16(), Bits16(0xFFFF), MessageBits16(x), MessageBits16(y), from);
  }

  // ------------------------------------------------------------ words as bit lists, crc32c

  predicate On32(c: bv32, mask: bv32) { c & mask != 0 }

  /** n bits of c, from the one under the mask upwards: crc32c shifts right. */
  function Up(c: bv32, mask: bv32, n: nat): (r: Bits)
    ensures |r| == n
    decreases n, c
  {
    if n == 0 then [] else [On32(c, mask)] + Up(c, mask << 1, n - 1)
  }

  function Bits32(c: bv32): (r: Bits)
    ensures |r| == 32
  {
    Up(c, 1, 32)
  }

  /** A byte in the order crc32c takes its bits. */
  function LowFirst(b: Byte): (r: Bits)
    ensures |r| == 8
  {
    Up(b as bv32, 1, 8)
  }

  function MessageBits32(data: seq<Byte>): (r: Bits)
    ensures |r| == 8 * |data|
    decreases |data|
  {
    if data == [] then [] else MessageBits32(data[..|data| - 1]) + LowFirst(data[|data| - 1])
  }

  function MaskUp(mask: bv32, n: nat): bv32
    decreases n
  {
    if n == 0 then mask else MaskUp(mask << 1, n - 1)
  }

  lemma MaskUp4(mask: bv32, n: nat)
    ensures MaskUp(mask, n + 4) == MaskUp(mask << 4, n)
  {
    assert MaskUp(mask, n + 4) == MaskUp(mask << 1 << 1, n + 2);
    assert mask << 1 << 1 << 1 << 1 == mask << 4;
  }

  lemma MaskUp8(mask: bv32, n: nat)
    ensures MaskUp(mask, n + 8) == MaskUp(mask << 8, n)
  {
    MaskUp4(mask, n + 4);
    MaskUp4(mask << 4, n);
    assert mask << 4 << 4 == mask << 8;
  }

  lemma MasksUp()
    ensures MaskUp(1, 8) == 0x100 && MaskUp(2, 31) == 0 && MaskUp(1, 31) == 0x80000000
  {
    MaskUp8(1, 0);
    MaskUp8(2, 23); MaskUp8(0x200, 15); MaskUp8(0x20000, 7); MaskUp4(0x2000000, 3);
    MaskUp8(1, 23); MaskUp8(0x100, 15); MaskUp8(0x10000, 7); MaskUp4(0x1000000, 3);
    assert MaskUp(0x20000000, 3) == MaskUp(0x80000000, 1) && MaskUp(0x10000000, 3) == MaskUp(0x40000000, 1);
  }

  lemma SingleBit32(mask: bv32)
    requires mask & (mask - 1) == 0
    ensures (mask << 1) & ((mask << 1) - 1) == 0
  {
  }

  lemma XorBit32(c: bv32, d: bv32, mask: bv32)
    requires mask & (mask - 1) == 0
    ensures On32(c ^ d, mask) == (On32(c, mask) != On32(d, mask))
  {
  }

  lemma {:induction false} UpXor(c: bv32, d: bv32, mask: bv32, n: nat)
    requires mask & (mask - 1) == 0
    ensures Up(c ^ d, mask, n) == Xor(Up(c, mask, n), Up(d, mask, n))
    decreases n
  {
    if n > 0 {
      XorBit32(c, d, mask);
      SingleBit32(mask);
      UpXor(c, d, mask << 1, n - 1);
      XorHeads(On32(c, mask), On32(d, mask), Up(c, mask << 1, n - 1), Up(d, mask << 1, n - 1));
    }
  }

  lemma XorHeads(p: bool, q: bool, a: Bits, b: Bits)
    requires |a| == |b|
    ensures Xor([p] + a, [q] + b) == [p != q] + Xor(a, b)
  {
  }

  lemma {:induction false} UpShifted(c: bv32, mask: bv32, n: nat)
    requires mask & (mask - 1) == 0
    ensures Up(c >> 1, mask, n) == Up(c, mask << 1, n)
    decreases n
  {
    if n > 0 {
      SingleBit32(mask);
      UpShifted(c, mask << 1, n - 1);
    }
  }

  lemma {:induction false} UpSplit(c: bv32, mask: bv32, m: nat, n: nat)
    ensures Up(c, mask, m + n) == Up(c, mask, m) + Up(c, MaskUp(mask, m), n)
    decreases m
  {
    if m > 0 { UpSplit(c, mask << 1, m - 1, n); }
  }

  lemma ShiftRight32(c: bv32)
    ensures Bits32(c >> 1) == Bits32(c)[1..] + [false]
  {
    UpShifted(c, 1, 32);
    UpSplit(c, 2, 31, 1);
    MasksUp();
    assert Up(c, 0, 1) == [false];
    assert Bits32(c)[1..] == Up(c, 2, 31);
  }

  /** The reflected polynomial 0x82F63B78 as feedback taps. */
  function Poly32(): (r: Bits)
    ensures |r| == 32 && r[31]
  {
    UpSplit(0x82F63B78, 1, 31, 1);
    MasksUp();
    assert Up(0x82F63B78, 0x80000000, 1) == [true];
    Bits32(0x82F63B78)
  }

  lemma ShiftCases32(c: bv32)
    ensures Shift32(c) == if On32(c, 1) then (c >> 1) ^ 0x82F63B78 else c >> 1
  {
  }

  lemma ShiftIsStep32(c: bv32)
    ensures Bits32(Shift32(c)) == Step(Poly32(), Bits32(c))
  {
    ShiftCases32(c);
    ShiftRight32(c);
    UpXor(c >> 1, 0x82F63B78, 1, 32);
  }

  lemma {:induction false} StepsFollow32(poly: Bits, c: bv32, r: Bits, n: nat)
    requires |poly| == 32 && Bits32(c) == r
    requires forall x: bv32 :: Bits32(Shift32(x)) == Step(poly, Bits32(x))
    ensures Bits32(Shifts32(c, n)) == StepMany(poly, r, n)
    decreases n
  {
    if n > 0 { StepsFollow32(poly, Shift32(c), Step(poly, r), n - 1); }
  }

  lemma ShiftsAreSteps32(c: bv32, n: nat)
    ensures Bits32(Shifts32(c, n)) == StepMany(Poly32(), Bits32(c), n)
  {
    forall x: bv32 ensures Bits32(Shift32(x)) == Step(Poly32(), Bits32(x)) { ShiftIsStep32(x); }
    StepsFollow32(Poly32(), c, Bits32(c), n);
  }

  lemma {:induction false} HighBytesOff(c: bv32, mask: bv32, n: nat)
    requires c <= 0xFF && mask & 0xFF == 0
    ensures Up(c, mask, n) == Zeros(n)
    decreases n
  {
    if n > 0 { HighBytesOff(c, mask << 1, n - 1); }
  }

  lemma ByteAtBottom32(b: Byte)
    ensures Bits32(b as bv32) == LowFirst(b) + Zeros(24)
  {
    UpSplit(b as bv32, 1, 8, 24);
    MasksUp();
    HighBytesOff(b as bv32, 0x100, 24);
  }

  lemma JoinBits32(c: bv32, d: bv32, m: Bits)
    requires Bits32(d) == m
    ensures Bits32(c ^ d) == Xor(Bits32(c), m)
  {
    UpXor(c, d, 1, 32);
  }

  lemma ByteJoins32(c: bv32, b: Byte)
    ensures Bits32(c ^ (b as bv32)) == Xor(Bits32(c), LowFirst(b) + Zeros(24))
  {
    ByteAtBottom32(b);
    JoinBits32(c, b as bv32, LowFirst(b) + Zeros(24));
  }

  lemma AddByteFeeds32(c: bv32, b: Byte)
    ensures Bits32(AddByte32(c, b)) == FeedAll(Poly32(), Bits32(c), LowFirst(b))
  {
    ByteJoins32(c, b);
    ShiftsFeed32(c, c ^ (b as bv32), LowFirst(b));
  }

  lemma ShiftsFeed32(c: bv32, x: bv32, m: Bits)
    requires |m| == 8 && Bits32(x) == Xor(Bits32(c), m + Zeros(24))
    ensures Bits32(Shifts32(x, 8)) == FeedAll(Poly32(), Bits32(c), m)
  {
    ShiftsAreSteps32(x, 8);
    StepManyFeeds(Poly32(), Bits32(c), m);
  }

  /** crc32c is the bit-serial register run over the message. */
  lemma {:induction false} UpdateFeeds32(c: bv32, data: seq<Byte>)
    ensures Bits32(Update32(c, data)) == FeedAll(Poly32(), Bits32(c), MessageBits32(data))
    decreases |data|
  {
    if data != [] {
      var before, b := data[..|data| - 1], data[|data| - 1];
      UpdateFeeds32(c, before);
      AddByteFeeds32(Update32(c, before), b);
      FeedAllSplit(Poly32(), Bits32(c), MessageBits32(before), LowFirst(b));
    }
  }

  /** Two messages of one length that differ, but only inside 32 consecutive bits, have
      different crc32c values. */
  lemma Crc32DetectsBursts(x: seq<Byte>, y: seq<Byte>, from: nat)
    requires |x| == |y| && MessageBits32(x) != MessageBits32(y)
    requires forall i :: 0 <= i < 8 * |x| && MessageBits32(x)[i] != MessageBits32(y)[i] ==> from <= i < from + 32
    ensures Crc32(x) != Crc32(y)
  {
    UpdateFeeds32(0xFFFFFFFF, x);
    UpdateFeeds32(0xFFFFFFFF, y);
    BurstDetected(Poly32(), Bits32(0xFFFFFFFF), MessageBits32(x), MessageBits32(y), from);
  }

  // ------------------------------------------------------------ the checksums, bit by bit

  function Ones(n: nat): (r: Bits)
    ensures |r| == n
  {
    seq(n, i => true)
  }

  lemma DownNibble(c: bv16, mask: bv16, n: nat)
    ensures Down(c, mask, n + 4)
         == [On16(c, mask), On16(c, mask >> 1), On16(c, mask >> 2), On16(c, mask >> 3)] + Down(c, mask >> 4, n)
  {
    assert mask >> 1 >> 1 == mask >> 2 && mask >> 2 >> 1 == mask >> 3 && mask >> 3 >> 1 == mask >> 4;
    assert Down(c, mask, n + 4) == [On16(c, mask)] + Down(c, mask >> 1, n + 3);
    assert Down(c, mask >> 1, n + 3) == [On16(c, mask >> 1)] + Down(c, mask >> 2, n + 2);
    assert Down(c, mask >> 2, n + 2) == [On16(c, mask >> 2)] + Down(c, mask >> 3, n + 1);
  }

  /** x^16 + x^12 + x^5 + 1, highest power first and the leading one left out. */
  function Taps16(): (r: Bits)
    ensures |r| == 16
  {
    [false, false, false, true, false, false, false, false,
     false, false, true, false, false, false, false, true]
  }

  lemma Poly16Ends()
    ensures Down(0x1021, 0x8000, 16) == [false, false, false, true, false, false, false, false] + Down(0x1021, 0x80, 8)
    ensures Down(0x1021, 0x80, 8) == [false, false, true, false, false, false, false, true]
  {
    DownNibble(0x1021, 0x8000, 12);
    DownNibble(0x1021, 0x800, 8);
    DownNibble(0x1021, 0x80, 4);
    DownNibble(0x1021, 0x8, 0);
  }

  lemma Poly16IsTaps()
    ensures Poly16() == Taps16()
  {
    Poly16Ends();
  }

  lemma {:induction false} DownOnes(mask: bv16, n: nat)
    requires mask & (mask - 1) == 0 && n <= 16 && (n > 0 ==> MaskDown(mask, n - 1) != 0)
    ensures Down(0xFFFF, mask, n) == Ones(n)
  {
    if n > 0 {
      SingleBit16(mask);
      if n > 1 { DownOnes(mask >> 1, n - 1); }
      MaskStays(mask, n - 1);
    }
  }

  /** A mask that is still there after more shifts is there now. */
  lemma {:induction false} MaskStays(mask: bv16, n: nat)
    requires MaskDown(mask, n) != 0
    ensures mask != 0
    decreases n
  {
    if n > 0 { MaskStays(mask >> 1, n - 1); }
  }

  /** crc16ccitt, whatever the data: the register of x^16 + x^12 + x^5 + 1, started at all ones and fed each byte from
      its highest bit down. */
  lemma Crc16IsRegister(data: seq<Byte>)
    ensures Bits16(Crc16(data)) == FeedAll(Taps16(), Ones(16), MessageBits16(data))
  {
    Poly16IsTaps();
    MasksDown();
    DownOnes(0x8000, 16);
    UpdateFeeds16(0xFFFF, data);
  }

  lemma UpPair(c: bv32, mask: bv32, n: nat)
    ensures Up(c, mask, n + 2) == [On32(c, mask), On32(c, mask << 1)] + Up(c, mask << 2, n)
  {
    assert mask << 1 << 1 == mask << 2;
    assert Up(c, mask, n + 2) == [On32(c, mask)] + Up(c, mask << 1, n + 1);
  }

  /** Eight bits of a word, the mask of the first one given. */
  lemma UpEight(c: bv32, mask: bv32, m2: bv32, m4: bv32, m6: bv32)
    requires m2 == mask << 2 && m4 == m2 << 2 && m6 == m4 << 2
    ensures Up(c, mask, 8)
         == [On32(c, mask), On32(c, mask << 1), On32(c, m2), On32(c, m2 << 1),
             On32(c, m4), On32(c, m4 << 1), On32(c, m6), On32(c, m6 << 1)]
  {
    UpFour(c, mask, m2, 4);
    UpFour(c, m4, m6, 0);
    JoinFours(On32(c, mask), On32(c, mask << 1), On32(c, m2), On32(c, m2 << 1), Up(c, m4, 4));
  }

  lemma JoinFours(a: bool, b: bool, c: bool, d: bool, rest: Bits)
    requires |rest| == 4
    ensures [a, b, c, d] + rest == [a, b, c, d, rest[0], rest[1], rest[2], rest[3]]
  {
  }

  lemma UpFour(c: bv32, mask: bv32, m2: bv32, n: nat)
    requires m2 == mask << 2
    ensures Up(c, mask, n + 4)
         == [On32(c, mask), On32(c, mask << 1), On32(c, m2), On32(c, m2 << 1)] + Up(c, m2 << 2, n)
  {
    UpPair(c, mask, n + 2);
    UpPair(c, m2, n);
    PairsJoin(On32(c, mask), On32(c, mask << 1), On32(c, m2), On32(c, m2 << 1), Up(c, m2 << 2, n));
  }

  lemma PairsJoin(a: bool, b: bool, c: bool, d: bool, rest: Bits)
    ensures [a, b] + ([c, d] + rest) == [a, b, c, d] + rest
  {
  }

  lemma UpBytes(c: bv32)
    ensures Bits32(c) == Up(c, 1, 8) + (Up(c, 0x100, 8) + (Up(c, 0x10000, 8) + Up(c, 0x1000000, 8)))
  {
    UpSplit(c, 1, 8, 24);
    MaskUp8(1, 0);
    UpSplit(c, 0x100, 8, 16);
    MaskUp8(0x100, 0);
    UpSplit(c, 0x10000, 8, 8);
    MaskUp8(0x10000, 0);
  }

  /** The Castagnoli polynomial 0x1EDC6F41, highest power first and the leading one left out. */
  function Taps32(): (r: Bits)
    ensures |r| == 32
  {
    [false, false, false, true, true, true, true, false] +
    ([true, true, false, true, true, true, false, false] +
    ([false, true, true, false, true, true, true, true] +
     [false, true, false, false, false, false, false, true]))
  }

  lemma Poly32Bytes()
    ensures Up(0x82F63B78, 1, 8) == [false, false, false, true, true, true, true, false]
    ensures Up(0x82F63B78, 0x100, 8) == [true, true, false, true, true, true, false, false]
    ensures Up(0x82F63B78, 0x10000, 8) == [false, true, true, false, true, true, true, true]
    ensures Up(0x82F63B78, 0x1000000, 8) == [false, true, false, false, false, false, false, true]
  {
    UpEight(0x82F63B78, 1, 4, 0x10, 0x40);
    UpEight(0x82F63B78, 0x100, 0x400, 0x1000, 0x4000);
    UpEight(0x82F63B78, 0x10000, 0x40000, 0x100000, 0x400000);
    UpEight(0x82F63B78, 0x1000000, 0x4000000, 0x10000000, 0x40000000);
  }

  lemma Poly32IsTaps()
    ensures Poly32() == Taps32()
  {
    UpBytes(0x82F63B78);
    Poly32Bytes();
  }

  lemma NotBit32(c: bv32, mask: bv32)
    requires mask & (mask - 1) == 0 && mask != 0
    ensures On32(!c, mask) != On32(c, mask)
  {
  }

  lemma {:induction false} MaskStays32(mask: bv32, n: nat)
    requires MaskUp(mask, n) != 0
    ensures mask != 0
    decreases n
  {
    if n > 0 { MaskStays32(mask << 1, n - 1); }
  }

  /** Each bit is the other one. */
  predicate Opposite(a: Bits, b: Bits) { |a| == |b| && forall k :: 0 <= k < |a| ==> a[k] != b[k] }

  lemma OppositeCons(p: bool, q: bool, a: Bits, b: Bits)
    requires p != q && Opposite(a, b)
    ensures Opposite([p] + a, [q] + b)
  {
  }

  lemma UpHead(c: bv32, mask: bv32, n: nat)
    requires n > 0
    ensures Up(c, mask, n) == [On32(c, mask)] + Up(c, mask << 1, n - 1)
  {
  }

  lemma {:induction false} UpNot(c: bv32, d: bv32, mask: bv32, n: nat)
    requires mask & (mask - 1) == 0 && d == !c && (n > 0 ==> MaskUp(mask, n - 1) != 0)
    ensures Opposite(Up(d, mask, n), Up(c, mask, n))
    decreases n
  {
    if n > 0 {
      assert mask != 0 by { MaskStays32(mask, n - 1); }
      assert On32(d, mask) != On32(c, mask) by { NotBit32(c, mask); }
      SingleBit32(mask);
      UpNot(c, d, mask << 1, n - 1);
      UpHead(c, mask, n);
      UpHead(d, mask, n);
      OppositeCons(On32(d, mask), On32(c, mask), Up(d, mask << 1, n - 1), Up(c, mask << 1, n - 1));
    }
  }

  lemma NotBits32(c: bv32)
    ensures Opposite(Bits32(!c), Bits32(c))
  {
    MasksUp();
    UpNot(c, !c, 1, 32);
  }

  lemma {:induction false} UpZeros(mask: bv32, n: nat)
    ensures Up(0, mask, n) == Zeros(n)
    decreases n
  {
    if n > 0 { UpZeros(mask << 1, n - 1); }
  }

  lemma AllOnes32()
    ensures Bits32(0xFFFFFFFF) == Ones(32)
  {
    UpZeros(1, 32);
    NotBits32(0);
  }

  /** crc32c, whatever the data: bit for bit the complement of the register of 0x1EDC6F41, started at all ones and fed
      each byte from its lowest bit up. */
  lemma Crc32IsRegister(data: seq<Byte>)
    ensures Opposite(Bits32(Crc32(data)), FeedAll(Taps32(), Ones(32), MessageBits32(data)))
  {
    Poly32IsTaps();
    AllOnes32();
    UpdateFeeds32(0xFFFFFFFF, data);
    NotBits32(Update32(0xFFFFFFFF, data));
  }

  // ------------------------------------------------------------ bursts in bytes

  lemma {:induction false} MessageBits32At(data: seq<Byte>, i: nat)
    requires i < 8 * |data|
    ensures MessageBits32(data)[i] == LowFirst(data[i / 8])[i % 8]
    decreases |data|
  {
    var n := |data| - 1;
    if i < 8 * n { MessageBits32At(data[..n], i); }
  }

  lemma {:induction false} UpEqualAt(c: bv32, d: bv32, mask: bv32, n: nat, k: nat)
    requires Up(c, mask, n) == Up(d, mask, n) && k < n
    ensures On32(c, MaskUp(mask, k)) == On32(d, MaskUp(mask, k))
    decreases n
  {
    assert Up(c, mask, n)[0] == On32(c, mask) && Up(d, mask, n)[0] == On32(d, mask);
    if k > 0 {
      assert Up(c, mask, n)[1..] == Up(c, mask << 1, n - 1) && Up(d, mask, n)[1..] == Up(d, mask << 1, n - 1);
      UpEqualAt(c, d, mask << 1, n - 1, k - 1);
    }
  }

  /** Different bytes have different bits. */
  lemma LowFirstInjective(a: Byte, b: Byte)
    requires LowFirst(a) == LowFirst(b)
    ensures a == b
  {
    var x, y := a as bv32, b as bv32;
    forall k: nat | k < 8 ensures On32(x, MaskUp(1, k)) == On32(y, MaskUp(1, k)) { UpEqualAt(x, y, 1, 8, k); }
    LowMasks();
    BytesByBits(x, y);
  }

  lemma LowMasks()
    ensures MaskUp(1, 0) == 1 && MaskUp(1, 1) == 2 && MaskUp(1, 2) == 4 && MaskUp(1, 3) == 8
    ensures MaskUp(1, 4) == 16 && MaskUp(1, 5) == 32 && MaskUp(1, 6) == 64 && MaskUp(1, 7) == 128
  {
    MaskUp4(1, 0); MaskUp4(1, 1); MaskUp4(1, 2); MaskUp4(1, 3);
    assert MaskUp(1, 3) == MaskUp(4, 1) && MaskUp(16, 3) == MaskUp(64, 1);
  }

  lemma BytesByBits(x: bv32, y: bv32)
    requires x <= 0xFF && y <= 0xFF
    requires On32(x, 1) == On32(y, 1) && On32(x, 2) == On32(y, 2) && On32(x, 4) == On32(y, 4) &&
             On32(x, 8) == On32(y, 8)
    requires On32(x, 16) == On32(y, 16) && On32(x, 32) == On32(y, 32) && On32(x, 64) == On32(y, 64) &&
             On32(x, 128) == On32(y, 128)
    ensures x == y
  {
  }

  lemma BitOfByte32(data: seq<Byte>, i: nat, k: nat)
    requires i < |data| && k < 8
    ensures MessageBits32(data)[8 * i + k] == LowFirst(data[i])[k]
  {
    MessageBits32At(data, 8 * i + k);
    assert (8 * i + k) / 8 == i && (8 * i + k) % 8 == k;
  }

  lemma DifferentBits32(x: seq<Byte>, y: seq<Byte>, i: nat)
    requires i < |x| == |y| && x[i] != y[i]
    ensures MessageBits32(x) != MessageBits32(y)
  {
    if MessageBits32(x) == MessageBits32(y) {
      forall k | 0 <= k < 8 ensures LowFirst(x[i])[k] == LowFirst(y[i])[k] {
        BitOfByte32(x, i, k);
        BitOfByte32(y, i, k);
      }
      LowFirstInjective(x[i], y[i]);
    }
  }

  lemma DifferenceWithin32(x: seq<Byte>, y: seq<Byte>, from: nat, j: nat)
    requires |x| == |y| && forall i :: 0 <= i < |x| && x[i] != y[i] ==> from <= i < from + 4
    requires j < 8 * |x| && MessageBits32(x)[j] != MessageBits32(y)[j]
    ensures 8 * from <= j < 8 * from + 32
  {
    MessageBits32At(x, j);
    MessageBits32At(y, j);
    assert x[j / 8] != y[j / 8];
  }

  /** Two messages that differ only inside four consecutive bytes never share a crc32c. */
  lemma Crc32DetectsFourBytes(x: seq<Byte>, y: seq<Byte>, from: nat)
    requires |x| == |y| && x != y
    requires forall i :: 0 <= i < |x| && x[i] != y[i] ==> from <= i < from + 4
    ensures Crc32(x) != Crc32(y)
  {
    var i :| 0 <= i < |x| && x[i] != y[i];
    DifferentBits32(x, y, i);
    forall j | 0 <= j < 8 * |x| && MessageBits32(x)[j] != MessageBits32(y)[j] ensures 8 * from <= j < 8 * from + 32 {
      DifferenceWithin32(x, y, from, j);
    }
    Crc32DetectsBursts(x, y, 8 * from);
  }
}
