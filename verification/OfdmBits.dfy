/** The bit layer of the OFDM body (AcousticPhyLink.kt): length prefix, bits, symbols and lengths. */
module OfdmBits {
  import opened Wrappers
  import opened ShiftRegister
  import opened Binary
  import opened HeaderBits
  import Crc

  type Octet = n: nat | n < 256

  const MAX_LENGTH: nat := 0xFFFF

  // ------------------------------------------------------------ values and their bits

  /** The low k bits of each value, most significant first, one value after the other. */
  function Unpacked(vs: seq<nat>, k: nat): (r: Bits)
    ensures |r| == |vs| * k
  {
    if vs == [] then [] else NatBits(vs[0], k) + Unpacked(vs[1..], k)
  }

  /** The bits cut into groups of k, the last filled up with zeros. */
  function Packed(bits: Bits, k: nat): (r: seq<nat>)
    requires k > 0
    decreases |bits|
  {
    if bits == [] then []
    else if |bits| <= k then [BitsNat(bits + Zeros(k - |bits|))]
    else [BitsNat(bits[..k])] + Packed(bits[k..], k)
  }

  function CeilDiv(a: nat, b: nat): nat
    requires b > 0
  {
    (a + b - 1) / b
  }

  lemma DivUnique(y: nat, b: nat, q: nat, r: nat)
    requires b > 0 && y == q * b + r && r < b
    ensures y / b == q
  {
    var p := y / b;
    assert y == p * b + y % b;
    if p < q { MulMono(p + 1, q, b); }
    if q < p { MulMono(q + 1, p, b); }
  }

  lemma CeilDivStep(a: nat, b: nat)
    requires b > 0
    ensures CeilDiv(a + b, b) == CeilDiv(a, b) + 1 && CeilDiv(0, b) == 0
    ensures 0 < a <= b ==> CeilDiv(a, b) == 1
  {
    var q, r := (a + b - 1) / b, (a + b - 1) % b;
    assert a + b - 1 == q * b + r;
    assert (q + 1) * b == q * b + b;
    DivUnique(a + b + b - 1, b, q + 1, r);
    DivUnique(b - 1, b, 0, b - 1);
    if 0 < a <= b { DivUnique(a + b - 1, b, 1, a - 1); }
  }

  lemma {:induction false} PackedLength(bits: Bits, k: nat)
    requires k > 0
    ensures |Packed(bits, k)| == CeilDiv(|bits|, k)
    decreases |bits|
  {
    CeilDivStep(if |bits| <= k then |bits| else |bits| - k, k);
    if |bits| > k { PackedLength(bits[k..], k); }
  }

  lemma {:induction false} UnpackedAppend(a: seq<nat>, b: seq<nat>, k: nat)
    ensures Unpacked(a + b, k) == Unpacked(a, k) + Unpacked(b, k)
  {
    if a == [] {
      assert a + b == b && [] + Unpacked(b, k) == Unpacked(b, k);
    } else {
      UnpackedAppend(a[1..], b, k);
      assert (a + b)[1..] == a[1..] + b && (a + b)[0] == a[0];
      assert NatBits(a[0], k) + Unpacked(a[1..], k) + Unpacked(b, k) ==
             NatBits(a[0], k) + (Unpacked(a[1..], k) + Unpacked(b, k));
    }
  }

  /** Unpacking gives back the bits, and after them only zeros. */
  lemma {:induction false} UnpackUndoesPack(bits: Bits, k: nat) returns (fill: nat)
    requires k > 0
    ensures fill < k && Unpacked(Packed(bits, k), k) == bits + Zeros(fill)
    decreases |bits|
  {
    if bits == [] {
      fill := 0;
      assert bits + Zeros(0) == [];
    } else if |bits| <= k {
      fill := k - |bits|;
      OneGroup(bits + Zeros(fill), k);
    } else {
      fill := UnpackUndoesPack(bits[k..], k);
      NatBitsOfBits(bits[..k]);
      var p := Packed(bits, k);
      assert p[0] == BitsNat(bits[..k]) && p[1..] == Packed(bits[k..], k);
      assert bits == bits[..k] + bits[k..];
      assert bits[..k] + (bits[k..] + Zeros(fill)) == bits[..k] + bits[k..] + Zeros(fill);
    }
  }

  lemma OneGroup(bits: Bits, k: nat)
    requires |bits| == k
    ensures Unpacked([BitsNat(bits)], k) == bits
  {
    NatBitsOfBits(bits);
    assert [BitsNat(bits)][1..] == [];
    assert bits + [] == bits;
  }

  // ------------------------------------------------------------ the length prefix

  function Min(a: nat, b: nat): nat { if a < b then a else b }

  /** prefixLengthBytes: two length bytes, then at most 65535 bytes of payload. */
  function PrefixLengthBytes(payload: seq<Octet>): seq<Octet> {
    var n := Min(|payload|, MAX_LENGTH);
    [n / 256, n % 256] + payload[..n]
  }

  function EncodeLengthPrefixed(payload: seq<Octet>): Bits { Unpacked(PrefixLengthBytes(payload), 8) }

  /** Whole bytes from bits. */
  function Bytes(bits: Bits): (r: seq<Octet>)
    requires |bits| % 8 == 0
    decreases |bits|
  {
    if bits == [] then [] else [ByteOf(bits[..8])] + Bytes(bits[8..])
  }

  function ByteOf(bits: Bits): Octet
    requires |bits| == 8
  {
    NatBitsOfBits(bits);
    EightBits();
    BitsNat(bits)
  }

  function DecodeLengthPrefixed(bits: Bits): Option<seq<Octet>> {
    if |bits| < 16 then None
    else
      var n := BitsNat(bits[..16]);
      if |bits| < 16 + n * 8 then None else Some(Bytes(bits[16..16 + n * 8]))
  }

  lemma {:induction false} BytesOfUnpacked(bs: seq<Octet>)
    ensures Bytes(Unpacked(bs, 8)) == bs
  {
    if bs != [] {
      BytesOfUnpacked(bs[1..]);
      var u := Unpacked(bs, 8);
      assert u[..8] == NatBits(bs[0], 8) && u[8..] == Unpacked(bs[1..], 8);
      EightBits();
      BitsNatOfNat(bs[0], 8);
    }
  }

  lemma {:induction false} BitsNatAppend(a: Bits, b: Bits)
    ensures BitsNat(a + b) == BitsNat(a) * Pow2(|b|) + BitsNat(b)
  {
    if b == [] {
      assert a + b == a;
    } else {
      var n := |b| - 1;
      BitsNatAppend(a, b[..n]);
      assert (a + b)[..|a| + n] == a + b[..n] && (a + b)[|a| + n] == b[n];
      assert BitsNat(a) * Pow2(n + 1) == 2 * (BitsNat(a) * Pow2(n));
    }
  }

  lemma EightBits()
    ensures Pow2(8) == 256
  {
    assert Pow2(4) == 16;
    Pow2Sum(4, 4);
  }

  lemma TwoBytes(a: nat, b: nat)
    requires a < 256 && b < 256
    ensures BitsNat(NatBits(a, 8) + NatBits(b, 8)) == a * 256 + b
  {
    EightBits();
    BitsNatAppend(NatBits(a, 8), NatBits(b, 8));
    BitsNatOfNat(a, 8);
    BitsNatOfNat(b, 8);
  }

  lemma LengthBits(n: nat)
    requires n <= MAX_LENGTH
    ensures BitsNat(NatBits(n / 256, 8) + NatBits(n % 256, 8)) == n
  {
    TwoBytes(n / 256, n % 256);
  }

  /** Any bits may follow an encoded payload: decoding gives the first 65535 bytes of it. */
  lemma DecodeUndoesEncode(payload: seq<Octet>, rest: Bits)
    ensures DecodeLengthPrefixed(EncodeLengthPrefixed(payload) + rest) == Some(payload[..Min(|payload|, MAX_LENGTH)])
  {
    var n := Min(|payload|, MAX_LENGTH);
    var body := payload[..n];
    var head := [n / 256, n % 256];
    assert PrefixLengthBytes(payload) == head + body;
    UnpackedAppend(head, body, 8);
    HeadBits(n / 256, n % 256);
    LengthBits(n);
    BytesOfUnpacked(body);
    var bits := EncodeLengthPrefixed(payload) + rest;
    assert bits[..16] == NatBits(n / 256, 8) + NatBits(n % 256, 8);
    assert bits[16..16 + n * 8] == Unpacked(body, 8);
  }

  lemma HeadBits(a: nat, b: nat)
    ensures Unpacked([a, b], 8) == NatBits(a, 8) + NatBits(b, 8)
  {
    assert [a, b][1..] == [b] && [b][1..] == [];
    assert NatBits(b, 8) + [] == NatBits(b, 8);
  }

  /** Symbols out, symbols in: whatever symbols follow as padding, the first 65535 bytes of the payload come back; so
      a payload survives exactly when it is no longer than that. */
  lemma SymbolRoundTripIff(payload: seq<Octet>, k: nat, padding: seq<nat>)
    requires k > 0
    ensures var back := DecodeLengthPrefixed(Unpacked(Packed(EncodeLengthPrefixed(payload), k) + padding, k));
            && back == Some(payload[..Min(|payload|, MAX_LENGTH)])
            && (back == Some(payload) <==> |payload| <= MAX_LENGTH)
  {
    var bits := EncodeLengthPrefixed(payload);
    var fill := UnpackUndoesPack(bits, k);
    UnpackedAppend(Packed(bits, k), padding, k);
    assert bits + Zeros(fill) + Unpacked(padding, k) == bits + (Zeros(fill) + Unpacked(padding, k));
    DecodeUndoesEncode(payload, Zeros(fill) + Unpacked(padding, k));
    if |payload| <= MAX_LENGTH { assert payload[..|payload|] == payload; }
  }

  // ------------------------------------------------------------ how long a body is

  /** The notch mask's bit for carrier i; carriers past the mask are on. */
  predicate CarrierOn(mask: seq<Octet>, i: nat) { i / 8 >= |mask| || NatBits(mask[i / 8], 8)[i % 8] }

  function ActiveCount(mask: seq<Octet>, carriers: nat): (n: nat)
    ensures n <= carriers
  {
    if carriers == 0 then 0 else ActiveCount(mask, carriers - 1) + (if CarrierOn(mask, carriers - 1) then 1 else 0)
  }

  predicate AllOnes(mask: seq<Octet>) { forall i :: 0 <= i < |mask| ==> mask[i] == 255 }

  lemma {:induction false} AllOnesKeepsAll(mask: seq<Octet>, carriers: nat)
    requires AllOnes(mask)
    ensures ActiveCount(mask, carriers) == carriers
  {
    if carriers > 0 {
      AllOnesKeepsAll(mask, carriers - 1);
      Bits255((carriers - 1) % 8);
    }
  }

  lemma Bits255(i: nat)
    requires i < 8
    ensures NatBits(255, 8)[i]
  {
    NatBitsAt(255, 8, i);
    assert Shr(255, 0) == 255 && Shr(255, 1) == 127 && Shr(255, 2) == 63 && Shr(255, 3) == 31;
    assert Shr(15, 0) == 15 && Shr(255, 4) == Shr(15, 0) && Shr(255, 5) == Shr(15, 1) == 7;
    assert Shr(255, 6) == Shr(15, 2) == 3 && Shr(255, 7) == Shr(15, 3) == 1;
  }

  /** The samples modulateOfdm emits for this payload. */
  function ModulatedLength(payload: seq<Octet>, k: nat, mask: seq<Octet>, carriers: nat, symbolLength: nat): nat
    requires k > 0
  {
    var symbols := |Packed(EncodeLengthPrefixed(payload), k)|;
    var active := ActiveCount(mask, carriers);
    if active == 0 then 0 else CeilDiv(symbols, active) * symbolLength
  }

  /** expectedOfdmSamples. */
  function ExpectedOfdmSamples(payloadBytes: nat, k: nat, carriers: nat, fftSize: nat, cpSamples: nat): nat
    requires k > 0
  {
    if fftSize == 0 || cpSamples == 0 || carriers == 0 then 0
    else
      var symbolsCount := CeilDiv((payloadBytes + 2) * 8, k);
      var frameCount := CeilDiv(symbolsCount, carriers);
      (if frameCount < 1 then 1 else frameCount) * (fftSize + cpSamples)
  }

  lemma CeilDivPositive(a: nat, b: nat)
    requires a > 0 && b > 0
    ensures CeilDiv(a, b) >= 1
  {
    if a <= b { DivUnique(a + b - 1, b, 1, a - 1); } else { CeilDivStep(a - b, b); }
  }

  /** Fewer carriers need the same number of frames exactly when those frames have room for every symbol. */
  lemma FramesAgreeIff(symbols: nat, active: nat, carriers: nat)
    requires 0 < active <= carriers
    ensures CeilDiv(symbols, active) == CeilDiv(symbols, carriers) <==> symbols <= CeilDiv(symbols, carriers) * active
  {
    var frames, needed := CeilDiv(symbols, carriers), CeilDiv(symbols, active);
    LastGroup(symbols, active, frames);
    assert frames <= needed by {
      LastGroup(symbols, active, needed);
      assert needed * active == active * needed && needed * carriers == carriers * needed;
      MulMono(active, carriers, needed);
      LastGroup(symbols, carriers, needed);
    }
  }

  /** What the receiver expects is what the sender emits exactly when the carriers the notch mask leaves on have room
      for the payload's symbols in the frames that all carriers would need; so always when the mask is all ones. */
  lemma ExpectedIsEmittedIff(payload: seq<Octet>, k: nat, mask: seq<Octet>, carriers: nat, fftSize: nat, cpSamples: nat)
    requires |payload| <= MAX_LENGTH && k > 0 && carriers > 0 && fftSize > 0 && cpSamples > 0
    ensures var symbols := CeilDiv((|payload| + 2) * 8, k);
            ExpectedOfdmSamples(|payload|, k, carriers, fftSize, cpSamples)
              == ModulatedLength(payload, k, mask, carriers, fftSize + cpSamples)
            <==> symbols <= CeilDiv(symbols, carriers) * ActiveCount(mask, carriers)
    ensures AllOnes(mask) ==>
              ExpectedOfdmSamples(|payload|, k, carriers, fftSize, cpSamples)
              == ModulatedLength(payload, k, mask, carriers, fftSize + cpSamples)
  {
    var symbols, active, step := CeilDiv((|payload| + 2) * 8, k), ActiveCount(mask, carriers), fftSize + cpSamples;
    assert |Packed(EncodeLengthPrefixed(payload), k)| == symbols by { PackedLength(EncodeLengthPrefixed(payload), k); }
    CeilDivPositive((|payload| + 2) * 8, k);
    CeilDivPositive(symbols, carriers);
    SamplesAgreeIff(symbols, active, carriers, step);
    if AllOnes(mask) {
      AllOnesKeepsAll(mask, carriers);
      SameFrames(symbols, carriers);
    }
  }

  lemma SamplesAgreeIff(symbols: nat, active: nat, carriers: nat, step: nat)
    requires symbols > 0 && active <= carriers && carriers > 0 && step > 0 && CeilDiv(symbols, carriers) > 0
    ensures CeilDiv(symbols, carriers) * step == (if active == 0 then 0 else CeilDiv(symbols, active) * step)
            <==> symbols <= CeilDiv(symbols, carriers) * active
  {
    if active > 0 {
      SameProduct(CeilDiv(symbols, active), CeilDiv(symbols, carriers), step);
      FramesAgreeIff(symbols, active, carriers);
    } else {
      SameProduct(0, CeilDiv(symbols, carriers), step);
    }
  }

  lemma SameFrames(symbols: nat, carriers: nat)
    requires carriers > 0
    ensures symbols <= CeilDiv(symbols, carriers) * carriers
  {
    LastGroup(symbols, carriers, CeilDiv(symbols, carriers));
  }

  lemma SameProduct(a: nat, b: nat, c: nat)
    requires c > 0
    ensures a * c == b * c <==> a == b
  {
    if a < b { MulMono(a + 1, b, c); }
    if b < a { MulMono(b + 1, a, c); }
  }

  // ------------------------------------------------------------ constellations

  datatype Point = Point(re: real, im: real)

  function MapQpsk(symbol: nat, norm: real): Point {
    match symbol % 4
    case 0 => Point(norm, norm)
    case 1 => Point(-norm, norm)
    case 2 => Point(norm, -norm)
    case _ => Point(-norm, -norm)
  }

  function DemapQpsk(p: Point): nat {
    if p.re >= 0.0 && p.im >= 0.0 then 0
    else if p.re < 0.0 && p.im >= 0.0 then 1
    else if p.re >= 0.0 && p.im < 0.0 then 2
    else 3
  }

  /** One axis of 16-QAM, in Gray order. */
  function Level16(bits: nat, d: real): real {
    match bits
    case 0 => -3.0 * d
    case 1 => -1.0 * d
    case 3 => 1.0 * d
    case _ => 3.0 * d
  }

  function Slice16(x: real, d: real): nat {
    if x < -2.0 * d then 0 else if x < 0.0 then 1 else if x < 2.0 * d then 3 else 2
  }

  function Map16Qam(symbol: nat, d: real): Point { Point(Level16(symbol % 4, d), Level16(symbol / 4 % 4, d)) }

  function Demap16Qam(p: Point, d: real): nat { Slice16(p.re, d) + 4 * Slice16(p.im, d) }

  /** One axis of 64-QAM, in plain order. */
  function Level64(bits: nat, d: real): real {
    match bits
    case 0 => -7.0 * d
    case 1 => -5.0 * d
    case 2 => -3.0 * d
    case 3 => -1.0 * d
    case 4 => 1.0 * d
    case 5 => 3.0 * d
    case 6 => 5.0 * d
    case _ => 7.0 * d
  }

  function Slice64(x: real, d: real): nat {
    if x < -6.0 * d then 0 else if x < -4.0 * d then 1 else if x < -2.0 * d then 2 else if x < 0.0 then 3
    else if x < 2.0 * d then 4 else if x < 4.0 * d then 5 else if x < 6.0 * d then 6 else 7
  }

  function Map64Qam(symbol: nat, d: real): Point { Point(Level64(symbol % 8, d), Level64(symbol / 8 % 8, d)) }

  function Demap64Qam(p: Point, d: real): nat { Slice64(p.re, d) + 8 * Slice64(p.im, d) }

  /** The point `dx`, `dy` away from p. */
  function Moved(p: Point, dx: real, dy: real): Point { Point(p.re + dx, p.im + dy) }

  predicate Within(dx: real, dy: real, d: real) { -d < dx < d && -d < dy < d }

  /** Each constellation's symbols come back, also when the point has moved by less than half the spacing. */
  lemma QpskSurvives(symbol: nat, norm: real, dx: real, dy: real)
    requires symbol < 4 && norm > 0.0 && Within(dx, dy, norm)
    ensures DemapQpsk(Moved(MapQpsk(symbol, norm), dx, dy)) == symbol
  {
  }

  lemma Qam16Survives(symbol: nat, d: real, dx: real, dy: real)
    requires symbol < 16 && d > 0.0 && Within(dx, dy, d)
    ensures Demap16Qam(Moved(Map16Qam(symbol, d), dx, dy), d) == symbol
  {
  }

  lemma Qam64Survives(symbol: nat, d: real, dx: real, dy: real)
    requires symbol < 64 && d > 0.0 && Within(dx, dy, d)
    ensures Demap64Qam(Moved(Map64Qam(symbol, d), dx, dy), d) == symbol
  {
  }

  datatype Mode = Qpsk | Qam16 | Qam64

  function BitsPerSymbol(mode: Mode): (k: nat)
    ensures k > 0
  {
    match mode case Qam16 => 4 case Qam64 => 6 case Qpsk => 2
  }

  function MapSymbol(mode: Mode, symbol: nat, d: real): Point {
    match mode case Qam16 => Map16Qam(symbol, d) case Qam64 => Map64Qam(symbol, d) case Qpsk => MapQpsk(symbol, d)
  }

  function DemapSymbol(mode: Mode, p: Point, d: real): nat {
    match mode case Qam16 => Demap16Qam(p, d) case Qam64 => Demap64Qam(p, d) case Qpsk => DemapQpsk(p)
  }

  /** The points of a body: one for each symbol, then padding points for symbol 0. */
  function Points(mode: Mode, symbols: seq<nat>, d: real): (r: seq<Point>)
    ensures |r| == |symbols|
  {
    seq(|symbols|, i requires 0 <= i < |symbols| => MapSymbol(mode, symbols[i], d))
  }

  function Demapped(mode: Mode, points: seq<Point>, d: real): (r: seq<nat>)
    ensures |r| == |points|
  {
    seq(|points|, i requires 0 <= i < |points| => DemapSymbol(mode, points[i], d))
  }

  /** Each received point is within half the spacing of the one sent. */
  predicate Near(sent: seq<Point>, got: seq<Point>, d: real) {
    |got| >= |sent| && forall i :: 0 <= i < |sent| ==> Within(got[i].re - sent[i].re, got[i].im - sent[i].im, d)
  }

  lemma SymbolSurvives(mode: Mode, symbol: nat, d: real, got: Point)
    requires symbol < Pow2(BitsPerSymbol(mode)) && d > 0.0
    requires var p := MapSymbol(mode, symbol, d); Within(got.re - p.re, got.im - p.im, d)
    ensures DemapSymbol(mode, got, d) == symbol
  {
    var p := MapSymbol(mode, symbol, d);
    var dx, dy := got.re - p.re, got.im - p.im;
    assert Moved(p, dx, dy) == got;
    assert Pow2(2) == 4 && Pow2(4) == 16 && Pow2(6) == 64 by { Pow2Sum(2, 2); Pow2Sum(4, 2); }
    match mode
    case Qpsk => QpskSurvives(symbol, d, dx, dy);
    case Qam16 => Qam16Survives(symbol, d, dx, dy);
    case Qam64 => Qam64Survives(symbol, d, dx, dy);
  }

  lemma {:induction false} PackedBelow(bits: Bits, k: nat, i: nat)
    requires k > 0 && i < |Packed(bits, k)|
    ensures Packed(bits, k)[i] < Pow2(k)
    decreases |bits|
  {
    if |bits| <= k {
      NatBitsOfBits(bits + Zeros(k - |bits|));
    } else if i == 0 {
      NatBitsOfBits(bits[..k]);
    } else {
      PackedBelow(bits[k..], k, i - 1);
    }
  }

  /** The bit layer end to end: if every body point arrives within half the spacing of where it was sent, the payload
      comes back whole, whatever points follow it in the last frame. */
  lemma BodyRoundTrip(payload: seq<Octet>, mode: Mode, d: real, got: seq<Point>)
    requires |payload| <= MAX_LENGTH && d > 0.0
    requires Near(Points(mode, Packed(EncodeLengthPrefixed(payload), BitsPerSymbol(mode)), d), got, d)
    ensures DecodeLengthPrefixed(Unpacked(Demapped(mode, got, d), BitsPerSymbol(mode))) == Some(payload)
  {
    var k := BitsPerSymbol(mode);
    var symbols, back := Packed(EncodeLengthPrefixed(payload), k), Demapped(mode, got, d);
    forall i | 0 <= i < |symbols| ensures back[i] == symbols[i] {
      PackedBelow(EncodeLengthPrefixed(payload), k, i);
      assert Points(mode, symbols, d)[i] == MapSymbol(mode, symbols[i], d);
      SymbolSurvives(mode, symbols[i], d, got[i]);
    }
    assert back == symbols + back[|symbols|..];
    SymbolRoundTripIff(payload, k, back[|symbols|..]);
  }

  // ------------------------------------------------------------ what goes on the air

  lemma {:induction false} UnpackedAt(vs: seq<nat>, k: nat, j: nat, i: nat)
    requires j < |vs| && i < k
    ensures Start(j, k) + i < |vs| * k && Unpacked(vs, k)[Start(j, k) + i] == (Shr(vs[j], k - 1 - i) % 2 == 1)
  {
    StartIs(j, k);
    MulMono(j + 1, |vs|, k);
    OneGroupMore(j, k);
    if j == 0 {
      NatBitsAt(vs[0], k, i);
    } else {
      UnpackedAt(vs[1..], k, j - 1, i);
      StartIs(j - 1, k);
      OneGroupMore(j - 1, k);
    }
  }

  /** Bit i of byte j of what is sent, highest bit first: two length bytes, high byte first, then the payload, cut off
      after 65535 bytes. */
  lemma EncodedBit(payload: seq<Octet>, j: nat, i: nat)
    requires i < 8
    ensures var n := if |payload| < 65535 then |payload| else 65535;
            && |EncodeLengthPrefixed(payload)| == 16 + 8 * n
            && (j < n + 2 ==>
                  EncodeLengthPrefixed(payload)[8 * j + i] ==
                    (Shr(if j == 0 then n / 256 else if j == 1 then n % 256 else payload[j - 2], 7 - i) % 2 == 1))
  {
    var prefix := PrefixLengthBytes(payload);
    if j < |prefix| {
      UnpackedAt(prefix, 8, j, i);
      StartIs(j, 8);
    }
  }

  /** QPSK: the low bit turns the real part, the high bit the imaginary part. */
  lemma QpskPoints(symbol: nat, norm: real)
    requires symbol < 4
    ensures MapQpsk(symbol, norm) == Point(if symbol % 2 == 0 then norm else -norm,
                                           if symbol / 2 == 0 then norm else -norm)
  {
  }

  /** 16-QAM: the low two bits give the real part and the high two the imaginary part, in Gray order. */
  lemma Qam16Points(symbol: nat, d: real)
    requires symbol < 16
    ensures var re, im := GrayRank(symbol % 4), GrayRank(symbol / 4);
            Map16Qam(symbol, d) == Point((2 * re - 3) as real * d, (2 * im - 3) as real * d)
  {
  }

  /** The rank of a pair of bits in the order 00, 01, 11, 10. */
  function GrayRank(bits: nat): (rank: nat)
    requires bits < 4
    ensures rank < 4 && [0, 1, 3, 2][rank] == bits
  {
    if bits == 3 then 2 else if bits == 2 then 3 else bits
  }

  lemma Level64Is(bits: nat, d: real)
    requires bits < 8
    ensures Level64(bits, d) == (2 * bits - 7) as real * d
  {
  }

  /** 64-QAM: the low three bits give the real part and the high three the imaginary part, in plain order. */
  lemma Qam64Points(symbol: nat, d: real)
    requires symbol < 64
    ensures Map64Qam(symbol, d) == Point((2 * (symbol % 8) - 7) as real * d, (2 * (symbol / 8) - 7) as real * d)
  {
    Level64Is(symbol % 8, d);
    Level64Is(symbol / 8 % 8, d);
    assert symbol / 8 % 8 == symbol / 8;
  }

  /** Which symbol a point is taken for, wherever it arrives.  QPSK: by the signs, zero counting as positive. */
  lemma QpskRegions(p: Point)
    ensures DemapQpsk(p) == (if p.re < 0.0 then 1 else 0) + (if p.im < 0.0 then 2 else 0)
  {
  }

  /** One axis of 16-QAM: the level of this rank is read exactly from halfway below it, included, to halfway above it;
      the outer levels have no outer bound. */
  lemma Regions16(x: real, d: real, rank: nat)
    requires d > 0.0 && rank < 4
    ensures Slice16(x, d) == [0, 1, 3, 2][rank] <==>
              (rank == 0 || (2 * rank - 4) as real * d <= x) && (rank == 3 || x < (2 * rank - 2) as real * d)
  {
  }

  /** One axis of 64-QAM, the same. */
  lemma Regions64(x: real, d: real, rank: nat)
    requires d > 0.0 && rank < 8
    ensures Slice64(x, d) == rank <==>
              (rank == 0 || (2 * rank - 8) as real * d <= x) && (rank == 7 || x < (2 * rank - 6) as real * d)
  {
    var low, high := (2 * rank - 8) as real * d, (2 * rank - 6) as real * d;
    if rank < 4 {
      assert rank == 0 || rank == 1 || rank == 2 || rank == 3;
    } else {
      assert rank == 4 || rank == 5 || rank == 6 || rank == 7;
    }
  }

  /** Without carriers, a transform or a cyclic prefix nothing is expected. */
  lemma NothingExpected(payloadBytes: nat, k: nat, carriers: nat, fftSize: nat, cpSamples: nat)
    requires k > 0
    ensures ExpectedOfdmSamples(payloadBytes, k, carriers, fftSize, cpSamples) == 0
            <==> carriers == 0 || fftSize == 0 || cpSamples == 0
  {
    if carriers > 0 && fftSize > 0 && cpSamples > 0 {
      var frames := CeilDiv(CeilDiv((payloadBytes + 2) * 8, k), carriers);
      MulMono(1, if frames < 1 then 1 else frames, fftSize + cpSamples);
    }
  }

  // ------------------------------------------------------------ the loops

  /** The eight bits of one byte, written from `at` on. */
  method WriteByteBits(bits: array<bool>, at: nat, value: Octet)
    requires at + 8 <= bits.Length
    modifies bits
    ensures bits[..at] == old(bits[..at]) && bits[at..at + 8] == NatBits(value, 8)
  {
    for i := 0 to 8
      invariant bits[..at] == old(bits[..at]) && bits[at..at + i] == NatBits(value, 8)[..i]
    {
      NatBitsAt(value, 8, i);
      bits[at + i] := Shr(value, 7 - i) % 2 == 1;
    }
  }

  /** encodeLengthPrefixed. */
  method EncodeBits(payload: seq<Octet>) returns (bits: array<bool>)
    ensures fresh(bits) && bits[..] == EncodeLengthPrefixed(payload)
  {
    var prefix := PrefixLengthBytes(payload);
    bits := new bool[|prefix| * 8](_ => false);
    for j := 0 to |prefix|
      invariant bits[..8 * j] == Unpacked(prefix[..j], 8)
    {
      WriteByteBits(bits, 8 * j, prefix[j]);
      ByteWritten(bits[..], prefix, j);
    }
    assert prefix[..|prefix|] == prefix && bits[..8 * |prefix|] == bits[..];
  }

  lemma OneMoreByte(bs: seq<nat>, j: nat)
    requires j < |bs|
    ensures Unpacked(bs[..j + 1], 8) == Unpacked(bs[..j], 8) + NatBits(bs[j], 8)
  {
    assert bs[..j + 1] == bs[..j] + [bs[j]];
    UnpackedAppend(bs[..j], [bs[j]], 8);
    assert [bs[j]][1..] == [] && NatBits(bs[j], 8) + [] == NatBits(bs[j], 8);
  }

  lemma ByteWritten(bits: Bits, bs: seq<nat>, j: nat)
    requires j < |bs| && 8 * j + 8 <= |bits|
    requires bits[..8 * j] == Unpacked(bs[..j], 8) && bits[8 * j..8 * j + 8] == NatBits(bs[j], 8)
    ensures bits[..8 * (j + 1)] == Unpacked(bs[..j + 1], 8)
  {
    OneMoreByte(bs, j);
    assert bits[..8 * (j + 1)] == bits[..8 * j] + bits[8 * j..8 * j + 8];
  }

  /** The next bits, zeros where there are none left. */
  function Group(bits: Bits, from: nat, n: nat): (r: Bits)
    ensures |r| == n && forall i :: 0 <= i < n ==> r[i] == (from + i < |bits| && bits[from + i])
  {
    seq(n, i requires 0 <= i < n => from + i < |bits| && bits[from + i])
  }

  /** The inner loop of mapBitsToSymbols. */
  method ReadSymbol(bits: array<bool>, start: nat, bitsPerSymbol: nat) returns (symbol: nat)
    ensures symbol == BitsNat(Group(bits[..], start, bitsPerSymbol))
  {
    symbol := 0;
    var index := start;
    for i := 0 to bitsPerSymbol
      invariant index == start + i && symbol == BitsNat(Group(bits[..], start, i))
    {
      var bit := if index < bits.Length && bits[index] then 1 else 0;
      assert Group(bits[..], start, i + 1)[..i] == Group(bits[..], start, i);
      symbol := 2 * symbol + bit;
      index := index + 1;
    }
  }

  lemma OneGroupMore(i: nat, k: nat)
    ensures (i + 1) * k == i * k + k
  {
  }

  lemma GroupTail(bits: Bits, k: nat, from: nat)
    requires k <= |bits|
    ensures Group(bits[k..], from, k) == Group(bits, from + k, k)
  {
  }

  lemma FirstGroup(bits: Bits, k: nat)
    requires k > 0 && bits != []
    ensures Packed(bits, k)[0] == BitsNat(Group(bits, 0, k))
  {
    if |bits| <= k {
      assert bits + Zeros(k - |bits|) == Group(bits, 0, k);
    } else {
      assert bits[..k] == Group(bits, 0, k);
    }
  }

  /** Where group i starts, counted group by group. */
  function Start(i: nat, k: nat): nat { if i == 0 then 0 else Start(i - 1, k) + k }

  lemma {:induction false} StartIs(i: nat, k: nat)
    ensures Start(i, k) == i * k
  {
    if i > 0 {
      StartIs(i - 1, k);
      OneGroupMore(i - 1, k);
    }
  }

  lemma {:induction false} PackedAt(bits: Bits, k: nat, i: nat)
    requires k > 0 && i < |Packed(bits, k)|
    ensures Packed(bits, k)[i] == BitsNat(Group(bits, Start(i, k), k))
    decreases i
  {
    if i == 0 {
      FirstGroup(bits, k);
    } else {
      assert k < |bits| && Packed(bits, k)[i] == Packed(bits[k..], k)[i - 1];
      PackedAt(bits[k..], k, i - 1);
      GroupTail(bits, k, Start(i - 1, k));
    }
  }

  lemma LastGroup(n: nat, k: nat, i: nat)
    requires k > 0
    ensures i < CeilDiv(n, k) <==> i * k < n
  {
    var c, r := CeilDiv(n, k), (n + k - 1) % k;
    assert n + k - 1 == c * k + r;
    if i < c { MulMono(i + 1, c, k); } else { MulMono(c, i, k); }
  }

  /** The group that mapBitsToSymbols comes to next. */
  lemma NextGroup(bits: Bits, k: nat, i: nat, index: nat)
    requires k > 0 && index == i * k && index < |bits|
    ensures i < |Packed(bits, k)| && Packed(bits, k)[i] == BitsNat(Group(bits, index, k)) && index + k == (i + 1) * k
  {
    assert i < |Packed(bits, k)| by {
      PackedLength(bits, k);
      LastGroup(|bits|, k, i);
    }
    PackedAt(bits, k, i);
    StartIs(i, k);
    OneGroupMore(i, k);
  }

  lemma AllGroups(bits: Bits, k: nat, i: nat, index: nat)
    requires k > 0 && index == i * k && |bits| <= index
    ensures |Packed(bits, k)| <= i
  {
    PackedLength(bits, k);
    LastGroup(|bits|, k, i);
  }

  /** mapBitsToSymbols. */
  method MapBitsToSymbols(bits: array<bool>, bitsPerSymbol: nat) returns (symbols: array<nat>)
    requires bitsPerSymbol > 0
    ensures fresh(symbols) && symbols[..] == Packed(bits[..], bitsPerSymbol)
  {
    ghost var packed := Packed(bits[..], bitsPerSymbol);
    var count := CeilDiv(bits.Length, bitsPerSymbol);
    assert count == |packed| by { PackedLength(bits[..], bitsPerSymbol); }
    symbols := new nat[count](_ => 0);
    var index, symIdx := 0, 0;
    while index < bits.Length
      invariant index == symIdx * bitsPerSymbol && symIdx <= symbols.Length == |packed|
      invariant forall i :: 0 <= i < symIdx ==> symbols[i] == packed[i]
      decreases bits.Length - index
    {
      NextGroup(bits[..], bitsPerSymbol, symIdx, index);
      symbols[symIdx] := ReadSymbol(bits, index, bitsPerSymbol);
      index, symIdx := index + bitsPerSymbol, symIdx + 1;
    }
    AllGroups(bits[..], bitsPerSymbol, symIdx, index);
    assert symbols[..] == packed;
  }

  /** bitsToUInt16 and, with eight bits, one round of bitsToBytes. */
  method ReadNumber(bits: array<bool>, start: nat, n: nat) returns (value: nat)
    requires start + n <= bits.Length
    ensures value == BitsNat(bits[start..start + n])
  {
    value := 0;
    for i := 0 to n
      invariant value == BitsNat(bits[start..start + i])
    {
      assert bits[start..start + i + 1][..i] == bits[start..start + i];
      value := 2 * value + (if bits[start + i] then 1 else 0);
    }
  }

  lemma {:induction false} BytesLength(bits: Bits)
    requires |bits| % 8 == 0
    ensures |Bytes(bits)| == |bits| / 8
    decreases |bits|
  {
    if bits != [] { BytesLength(bits[8..]); }
  }

  lemma {:induction false} BytesAt(bits: Bits, i: nat)
    requires |bits| % 8 == 0 && i < |Bytes(bits)| && 8 * i + 8 <= |bits|
    ensures Bytes(bits)[i] == BitsNat(bits[8 * i..8 * i + 8])
    decreases |bits|
  {
    if i > 0 {
      BytesAt(bits[8..], i - 1);
      assert bits[8..][8 * (i - 1)..8 * (i - 1) + 8] == bits[8 * i..8 * i + 8];
    }
  }

  lemma SliceAgain(bits: Bits, from: nat, to: nat, i: nat, j: nat)
    requires from <= to <= |bits| && i <= j <= to - from
    ensures bits[from..to][i..j] == bits[from + i..from + j]
  {
    var part := bits[from..to];
    assert forall k :: i <= k < j ==> part[k] == bits[from + k];
    assert part[i..j] == bits[from + i..from + j];
  }

  /** bitsToBytes. */
  method BitsToBytes(bits: array<bool>, startOffset: nat, length: nat) returns (out: array<Octet>)
    requires startOffset + length * 8 <= bits.Length
    ensures fresh(out) && out[..] == Bytes(bits[startOffset..startOffset + length * 8])
  {
    ghost var body := bits[startOffset..startOffset + length * 8];
    BytesLength(body);
    out := new Octet[length](_ => 0);
    for idx := 0 to length
      invariant forall i :: 0 <= i < idx ==> out[i] == Bytes(body)[i]
    {
      BytesAt(body, idx);
      SliceAgain(bits[..], startOffset, startOffset + length * 8, 8 * idx, 8 * idx + 8);
      assert bits[startOffset..startOffset + length * 8] == bits[..][startOffset..startOffset + length * 8];
      out[idx] := ReadNumber(bits, startOffset + idx * 8, 8);
    }
  }

  /** decodeLengthPrefixed: null for too few bits, or fewer than the prefix asks for. */
  method Decode(bits: array<bool>) returns (payload: array?<Octet>)
    ensures payload == null <==> DecodeLengthPrefixed(bits[..]).None?
    ensures payload != null ==> fresh(payload) && Some(payload[..]) == DecodeLengthPrefixed(bits[..])
  {
    if bits.Length < 16 { return null; }
    var length := ReadNumber(bits, 0, 16);
    assert bits[..][..16] == bits[0..16];
    var requiredBits := 16 + length * 8;
    if bits.Length < requiredBits { return null; }
    assert bits[..][16..requiredBits] == bits[16..requiredBits];
    payload := BitsToBytes(bits, 16, length);
  }

  /** Positions in the mask: the carriers past it, and those whose mask bit, highest bit of a byte first, is set. */
  predicate Unnotched(mask: seq<Octet>, i: nat) { i / 8 >= |mask| || Shr(mask[i / 8], 7 - i % 8) % 2 == 1 }

  lemma UnnotchedIff(mask: seq<Octet>, i: nat)
    ensures Unnotched(mask, i) <==> CarrierOn(mask, i)
  {
    if i / 8 < |mask| { NatBitsAt(mask[i / 8], 8, i % 8); }
  }

  /** These are the bins left on, at these positions, in order. */
  ghost predicate LeftOn(bins: seq<nat>, mask: seq<Octet>, n: nat, active: seq<nat>, at: seq<nat>) {
    && |active| == |at| && n <= |bins|
    && (forall j :: 0 <= j < |at| ==> at[j] < n && active[j] == bins[at[j]])
    && (forall i, j :: 0 <= i < j < |at| ==> at[i] < at[j])
    && (forall i: nat :: i in at <==> i < n && Unnotched(mask, i))
  }

  lemma OneMoreOn(bins: seq<nat>, mask: seq<Octet>, n: nat, active: seq<nat>, at: seq<nat>)
    requires LeftOn(bins, mask, n, active, at) && n < |bins|
    ensures if Unnotched(mask, n) then LeftOn(bins, mask, n + 1, active + [bins[n]], at + [n])
            else LeftOn(bins, mask, n + 1, active, at)
  {
    if Unnotched(mask, n) {
      forall i: nat ensures i in at + [n] <==> i < n + 1 && Unnotched(mask, i) {
        assert i in at + [n] <==> i in at || i == n;
      }
    }
  }

  /** The loop that drops notched carriers. */
  method ActiveBins(bins: seq<nat>, mask: seq<Octet>) returns (active: seq<nat>, ghost at: seq<nat>)
    ensures |active| == ActiveCount(mask, |bins|) && LeftOn(bins, mask, |bins|, active, at)
  {
    active, at := [], [];
    for i := 0 to |bins|
      invariant |active| == ActiveCount(mask, i) && LeftOn(bins, mask, i, active, at)
    {
      UnnotchedIff(mask, i);
      OneMoreOn(bins, mask, i, active, at);
      if i / 8 >= |mask| || Shr(mask[i / 8], 7 - i % 8) % 2 == 1 {
        active, at := active + [bins[i]], at + [i];
      }
    }
  }

  /** readBitsMsb: a field of a header, with zeros for the bits past its end. */
  method ReadBitsMsb(bytes: array<Crc.Byte>, startBit: int, bitCount: int) returns (value: nat)
    ensures bytes.Length == 0 || startBit < 0 || bitCount <= 0 ==> value == 0
    ensures bytes.Length > 0 && startBit >= 0 && bitCount > 0 ==>
              value == BitsNat(Group(Crc.MessageBits16(bytes[..]), startBit, bitCount))
  {
    if bytes.Length == 0 || startBit < 0 || bitCount <= 0 { return 0; }
    ghost var all := Crc.MessageBits16(bytes[..]);
    value := 0;
    for bitOffset := 0 to bitCount
      invariant value == BitsNat(Group(all, startBit, bitOffset))
    {
      var bitIndex := startBit + bitOffset;
      if bitIndex / 8 >= bytes.Length {
        ZeroTail(all, startBit, bitOffset, bitCount);
        value := value * Pow2(bitCount - bitOffset);
        return;
      }
      var bit := GetBufferBit(bytes, bitIndex);
      assert Group(all, startBit, bitOffset + 1)[..bitOffset] == Group(all, startBit, bitOffset);
      value := 2 * value + bit;
    }
  }

  lemma {:induction false} ZerosNat(n: nat)
    ensures BitsNat(Zeros(n)) == 0
  {
    if n > 0 {
      ZerosNat(n - 1);
      assert Zeros(n)[..n - 1] == Zeros(n - 1);
    }
  }

  lemma ZeroTail(bits: Bits, from: nat, done: nat, n: nat)
    requires done <= n && from + done >= |bits|
    ensures BitsNat(Group(bits, from, n)) == BitsNat(Group(bits, from, done)) * Pow2(n - done)
  {
    assert Group(bits, from, n) == Group(bits, from, done) + Zeros(n - done);
    BitsNatAppend(Group(bits, from, done), Zeros(n - done));
    ZerosNat(n - done);
  }
}
