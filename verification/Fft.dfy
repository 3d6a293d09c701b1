/** FFT.kt: the in-place radix-2 transform over separate real and imaginary arrays.

    Arithmetic is exact (`real`); the twiddle tables are whatever the caller proves to hold
    powers of a root w with w^(n/2) == -1, as cosTable and sinTable do. */
module Fft {
  import opened Binary
  import opened FourierRing
  import opened BitReversal
  import opened Wrappers

  datatype Complex = Complex(re: real, im: real)

  function CAdd(x: Complex, y: Complex): Complex { Complex(x.re + y.re, x.im + y.im) }
  function CMul(x: Complex, y: Complex): Complex { Complex(x.re * y.re - x.im * y.im, x.re * y.im + x.im * y.re) }
  function CNeg(x: Complex): Complex { Complex(-x.re, -x.im) }

  /** The complex numbers as a ring. */
  function C(): Ring<Complex> {
    Ring(Complex(0.0, 0.0), Complex(1.0, 0.0), (x, y) => CAdd(x, y), (x, y) => CMul(x, y), x => CNeg(x))
  }

  lemma CMulAssoc(x: Complex, y: Complex, z: Complex)
    ensures CMul(CMul(x, y), z) == CMul(x, CMul(y, z))
  {
    assert (x.re * y.re - x.im * y.im) * z.re - (x.re * y.im + x.im * y.re) * z.im
        == x.re * (y.re * z.re - y.im * z.im) - x.im * (y.re * z.im + y.im * z.re);
    assert (x.re * y.re - x.im * y.im) * z.im + (x.re * y.im + x.im * y.re) * z.re
        == x.re * (y.re * z.im + y.im * z.re) + x.im * (y.re * z.re - y.im * z.im);
  }

  lemma CDistrib(x: Complex, y: Complex, z: Complex)
    ensures CMul(x, CAdd(y, z)) == CAdd(CMul(x, y), CMul(x, z))
  {
    assert x.re * (y.re + z.re) == x.re * y.re + x.re * z.re;
    assert x.im * (y.im + z.im) == x.im * y.im + x.im * z.im;
    assert x.re * (y.im + z.im) == x.re * y.im + x.re * z.im;
    assert x.im * (y.re + z.re) == x.im * y.re + x.im * z.re;
  }

  lemma CUnits(x: Complex, y: Complex, z: Complex)
    ensures CAdd(CAdd(x, y), z) == CAdd(x, CAdd(y, z)) && CAdd(x, y) == CAdd(y, x)
    ensures CAdd(x, Complex(0.0, 0.0)) == x && CAdd(x, CNeg(x)) == Complex(0.0, 0.0)
    ensures CMul(x, y) == CMul(y, x) && CMul(x, Complex(1.0, 0.0)) == x
  {
  }

  lemma ComplexIsRing()
    ensures IsRing(C())
  {
    forall x: Complex, y: Complex, z: Complex ensures Laws(C(), x, y, z) {
      CUnits(x, y, z);
      CMulAssoc(x, y, z);
      CDistrib(x, y, z);
    }
  }

  // ------------------------------------------------------------ blocks of a stage

  /** w after d squarings: the root used d stages before the last. */
  function RootAt(w: Complex, d: nat): Complex {
    if d == 0 then w else C().mul(RootAt(w, d - 1), RootAt(w, d - 1))
  }

  lemma {:induction false} RootAtIsPower(w: Complex, d: nat)
    ensures RootAt(w, d) == Pow(C(), w, Pow2(d))
  {
    ComplexIsRing();
    if d == 0 { PowTwo(C(), w); }
    else { RootAtIsPower(w, d - 1); PowSum(C(), w, Pow2(d - 1), Pow2(d - 1)); }
  }

  /** The block of z of size 2^s that starts at `from` holds the butterflies of that block of a. */
  ghost predicate BlockAt(z: seq<Complex>, a: seq<Complex>, w: Complex, s: nat, from: nat) {
    && |z| == |a| && from + Pow2(s) <= |a|
    && z[from..from + Pow2(s)] == Butterflies(C(), w, a[from..from + Pow2(s)], s)
  }

  ghost predicate BlockDone(z: seq<Complex>, a: seq<Complex>, w: Complex, s: nat, b: nat) {
    BlockAt(z, a, w, s, b * Pow2(s))
  }

  lemma BlockBounds(b: nat, c: nat, L: nat)
    requires b < c
    ensures (b + 1) * L <= c * L && (b + 1) * L == b * L + L
  {
    assert c * L == (b + 1) * L + (c - b - 1) * L;
  }

  /** The butterflies of a block are those of its halves, combined. */
  lemma ButterfliesOfHalves(block: seq<Complex>, lo: seq<Complex>, hi: seq<Complex>, w: Complex, s: nat)
    requires |lo| == |hi| == Pow2(s) && block == lo + hi
    ensures Butterflies(C(), w, block, s + 1)
         == Combine(C(), w, Butterflies(C(), C().mul(w, w), lo, s), Butterflies(C(), C().mul(w, w), hi, s))
  {
    assert block[..Pow2(s)] == lo && block[Pow2(s)..] == hi;
  }

  lemma HalvesOf(a: seq<Complex>, i: nat, h: nat)
    requires i + 2 * h <= |a|
    ensures a[i..i + 2 * h] == a[i..i + h] + a[i + h..i + 2 * h]
  {
  }

  /** Combining two finished neighbours finishes the block of twice the size. */
  lemma BlocksCombine(z: seq<Complex>, z': seq<Complex>, a: seq<Complex>, w: Complex, s: nat, i: nat, h: nat)
    requires |z| == |z'| == |a| && h == Pow2(s) && i + 2 * h <= |a|
    requires BlockAt(z, a, C().mul(w, w), s, i) && BlockAt(z, a, C().mul(w, w), s, i + h)
    requires z'[i..i + 2 * h] == Combine(C(), w, z[i..i + h], z[i + h..i + 2 * h])
    ensures BlockAt(z', a, w, s + 1, i)
  {
    HalvesOf(a, i, h);
    ButterfliesOfHalves(a[i..i + 2 * h], a[i..i + h], a[i + h..i + 2 * h], w, s);
  }

  lemma BlockEnds(c: nat, h: nat)
    ensures 2 * c * h == c * (2 * h) && (2 * c + 1) * h == c * (2 * h) + h
    ensures (2 * c + 1 + 1) * h == c * (2 * h) + 2 * h && (c + 1) * (2 * h) == c * (2 * h) + 2 * h
  {
  }

  /** The values of two parallel arrays. */
  ghost function Z(re: array<real>, im: array<real>): (z: seq<Complex>)
    reads re, im
    requires re.Length == im.Length
    ensures |z| == re.Length && forall k :: 0 <= k < |z| ==> z[k] == Complex(re[k], im[k])
  {
    seq(re.Length, k requires 0 <= k < re.Length reads re, im => Complex(re[k], im[k]))
  }

  /** The twiddle factors the butterflies read, by table index. */
  function Twiddles(cos: seq<real>, sin: seq<real>, forward: bool): int -> Complex {
    k => if 0 <= k < |cos| && k < |sin| then Complex(cos[k], if forward then -sin[k] else sin[k]) else Complex(0.0, 0.0)
  }

  /** Value k once j butterflies of the block at i are done; tw gives twiddles by table index. */
  function PassAt(z: seq<Complex>, tw: int -> Complex, i: nat, h: nat, step: nat, j: nat, k: nat): Complex
    requires k < |z| && i + 2 * h <= |z| && j <= h
  {
    if i <= k < i + j then C().add(z[k], C().mul(z[k + h], tw((k - i) * step)))
    else if i + h <= k < i + h + j then Sub(C(), z[k - h], C().mul(z[k], tw((k - i - h) * step)))
    else z[k]
  }

  /** Value n after a butterfly on values k and l whose lower input, turned, is t. */
  function Butterflied(z: seq<Complex>, k: nat, l: nat, t: Complex, n: nat): Complex
    requires k < |z| && n < |z|
  {
    if n == k then C().add(z[k], t) else if n == l then Sub(C(), z[k], t) else z[n]
  }

  lemma AddSub(x: Complex, t: Complex)
    ensures C().add(x, t) == Complex(x.re + t.re, x.im + t.im) && Sub(C(), x, t) == Complex(x.re - t.re, x.im - t.im)
  {
  }

  /** What butterfly number j changes. */
  lemma PassStep(z: seq<Complex>, tw: int -> Complex, i: nat, h: nat, step: nat, j: nat, k: nat)
    requires k < |z| && i + 2 * h <= |z| && j < h
    ensures var t := C().mul(z[i + j + h], tw(j * step));
      PassAt(z, tw, i, h, step, j + 1, k)
      == if k == i + j then C().add(z[i + j], t)
         else if k == i + j + h then Sub(C(), z[i + j], t)
         else PassAt(z, tw, i, h, step, j, k)
  {
  }

  /** A whole block's pass is one Combine, when the tables hold powers of w and r == w^step. */
  lemma PassIsCombine(z: seq<Complex>, z': seq<Complex>, tw: int -> Complex, i: nat, h: nat, step: nat, w: Complex,
                      r: Complex)
    requires i + 2 * h <= |z| == |z'| && r == Pow(C(), w, step)
    requires forall k :: 0 <= k < h ==> tw(k * step) == Pow(C(), w, k * step)
    requires forall k :: 0 <= k < |z| ==> z'[k] == PassAt(z, tw, i, h, step, h, k)
    ensures z'[i..i + 2 * h] == Combine(C(), r, z[i..i + h], z[i + h..i + 2 * h])
  {
    ComplexIsRing();
    var lo, hi := z[i..i + h], z[i + h..i + 2 * h];
    forall k | 0 <= k < 2 * h ensures z'[i..i + 2 * h][k] == Combine(C(), r, lo, hi)[k] {
      var j := if k < h then k else k - h;
      PowPow(C(), w, step, j);
      assert step * j == j * step;
      assert z'[i + k] == PassAt(z, tw, i, h, step, h, i + k);
    }
  }

  class FFT {
    const size: nat
    var log2N: nat
    var bitReversalTable: seq<nat>
    var cosTable: seq<real>
    var sinTable: seq<real>

    ghost predicate Valid()
      reads this
    {
      && (size == Pow2(log2N) || (size == 0 && log2N == 0))
      && |bitReversalTable| == size
      && (forall i :: 0 <= i < size ==> bitReversalTable[i] == Rev(log2N, i))
      && |cosTable| == |sinTable| == size / 2
    }

    /** The tables hold the powers of w, and w makes half a turn in size/2 steps. */
    ghost predicate TablesHold(forward: bool, w: Complex)
      reads this
    {
      && HalfTurn(C(), w, log2N)
      && (forall k :: 0 <= k < size / 2 ==> Twiddles(cosTable, sinTable, forward)(k) == Pow(C(), w, k))
    }

    /** The logarithm loop: None where the source refuses the size. Size 0 passes it. */
    static method Log2(size: nat) returns (r: Option<nat>)
      ensures r.Some? && size > 0 ==> size == Pow2(r.value)
      ensures r.None? ==> forall m: nat :: size != Pow2(m)
      ensures size == 0 ==> r == Some(0)
    {
      var temp, count := size, 0;
      while temp > 1
        invariant size == temp * Pow2(count) && (size > 0 ==> temp >= 1)
        invariant size == 0 ==> count == 0
      {
        if temp % 2 != 0 {
          forall m: nat ensures size != Pow2(m) { NotPower(temp, count, m); }
          return None;
        }
        temp := temp / 2;
        count := count + 1;
      }
      return Some(count);
    }

    constructor (n: nat, cos: seq<real>, sin: seq<real>)
      requires n == 0 || exists m: nat :: n == Pow2(m)
      requires |cos| == |sin| == n / 2
      ensures Valid() && size == n && cosTable == cos && sinTable == sin
    {
      size := n;
      var log := Log2(n);
      var m := log.value;
      log2N := m;
      var table := [];
      for i := 0 to n
        invariant |table| == i && forall k :: 0 <= k < i ==> table[k] == Rev(m, k)
      {
        var rev, temp := 0, i;
        for j := 0 to m
          invariant rev == Rev(j, i) && temp == Shr(i, j)
        {
          ShrStep(i, j);
          rev := 2 * rev + temp % 2;
          temp := temp / 2;
        }
        table := table + [rev];
      }
      bitReversalTable := table;
      cosTable, sinTable := cos, sin;
    }

    /** The bit-reversal sorting loop. */
    method BitReverse(re: array<real>, im: array<real>)
      requires Valid() && size > 0 && re != im && re.Length == im.Length == size
      modifies re, im
      ensures Z(re, im) == BitReversed(old(Z(re, im)), log2N)
    {
      ghost var x := Z(re, im);
      for i := 0 to size
        invariant forall k :: 0 <= k < size ==> Complex(re[k], im[k]) == SortedAt(x, log2N, i, k)
      {
        var j := bitReversalTable[i];
        RevInvolution(log2N, i);
        forall k | 0 <= k < size ensures Rev(log2N, k) < size && Rev(log2N, Rev(log2N, k)) == k {
          RevInvolution(log2N, k);
        }
        if i < j {
          var tempRe := re[i];
          re[i] := re[j];
          re[j] := tempRe;
          var tempIm := im[i];
          im[i] := im[j];
          im[j] := tempIm;
        }
      }
      forall k | 0 <= k < size ensures Z(re, im)[k] == BitReversed(x, log2N)[k] {
        BitReversedAt(x, log2N, k);
      }
    }

    /** One butterfly on values k and l with twiddle factor (wr, wi). */
    static method Butterfly(re: array<real>, im: array<real>, k: nat, l: nat, wr: real, wi: real)
      requires re != im && k < l < re.Length == im.Length
      modifies re, im
      ensures var z := old(Z(re, im));
              forall n :: 0 <= n < re.Length ==>
                Complex(re[n], im[n]) == Butterflied(z, k, l, C().mul(z[l], Complex(wr, wi)), n)
    {
      ghost var z := Z(re, im);
      var tRe := re[l] * wr - im[l] * wi;
      var tIm := re[l] * wi + im[l] * wr;
      ghost var t := Complex(tRe, tIm);
      assert t == C().mul(z[l], Complex(wr, wi));
      WriteButterfly(re, im, k, l, tRe, tIm);
    }

    /** The four writes of a butterfly. */
    static method WriteButterfly(re: array<real>, im: array<real>, k: nat, l: nat, tRe: real, tIm: real)
      requires re != im && k < l < re.Length == im.Length
      modifies re, im
      ensures var z := old(Z(re, im));
              forall n :: 0 <= n < re.Length ==> Complex(re[n], im[n]) == Butterflied(z, k, l, Complex(tRe, tIm), n)
    {
      AddSub(Complex(re[k], im[k]), Complex(tRe, tIm));
      re[l] := re[k] - tRe;
      im[l] := im[k] - tIm;
      re[k] := re[k] + tRe;
      im[k] := im[k] + tIm;
    }

    /** The innermost loop: the butterflies of the block that starts at i. */
    method Block(re: array<real>, im: array<real>, i: nat, halfLen: nat, twiddleStep: nat, forward: bool)
      requires Valid() && re != im && re.Length == im.Length == size
      requires i + 2 * halfLen <= size && halfLen * twiddleStep <= size / 2 && twiddleStep > 0
      modifies re, im
      ensures forall k :: 0 <= k < size ==>
        Z(re, im)[k] == PassAt(old(Z(re, im)), Twiddles(cosTable, sinTable, forward), i, halfLen, twiddleStep,
                               halfLen, k)
    {
      ghost var z := Z(re, im);
      ghost var tw := Twiddles(cosTable, sinTable, forward);
      for j := 0 to halfLen
        invariant forall k :: 0 <= k < size ==> Complex(re[k], im[k]) == PassAt(z, tw, i, halfLen, twiddleStep, j, k)
      {
        var k, l := i + j, i + j + halfLen;
        MulMono(j + 1, halfLen, twiddleStep);
        var twiddleIdx := j * twiddleStep;
        var wr := cosTable[twiddleIdx];
        var wi := if forward then -sinTable[twiddleIdx] else sinTable[twiddleIdx];
        assert Complex(re[k], im[k]) == z[k] && Complex(re[l], im[l]) == z[l] && tw(twiddleIdx) == Complex(wr, wi);
        Butterfly(re, im, k, l, wr, wi);
        forall n | 0 <= n < size ensures Complex(re[n], im[n]) == PassAt(z, tw, i, halfLen, twiddleStep, j + 1, n) {
          PassStep(z, tw, i, halfLen, twiddleStep, j, n);
        }
      }
    }

    /** One block of a stage: the boundary between the two block sizes moves by one. */
    method OneBlock(re: array<real>, im: array<real>, i: nat, halfLen: nat, twiddleStep: nat, forward: bool,
                    ghost w: Complex, ghost s: nat, ghost d: nat, ghost c: nat, ghost a: seq<Complex>, ghost r: Complex)
      requires Valid() && size > 0 && re != im && re.Length == im.Length == size && TablesHold(forward, w)
      requires log2N == s + 1 + d && |a| == size && halfLen == Pow2(s) && twiddleStep == Pow2(d)
      requires i == c * Pow2(s + 1) && i + 2 * halfLen <= size && c < Pow2(d) && halfLen * twiddleStep <= size / 2
      requires r == Pow(C(), w, Pow2(d))
      requires BlocksDone(Z(re, im), a, r, s + 1, 0, c) &&
               BlocksDone(Z(re, im), a, C().mul(r, r), s, 2 * c, 2 * Pow2(d))
      modifies re, im
      ensures BlocksDone(Z(re, im), a, r, s + 1, 0, c + 1)
      ensures BlocksDone(Z(re, im), a, C().mul(r, r), s, 2 * c + 2, 2 * Pow2(d))
    {
      ghost var z := Z(re, im);
      Block(re, im, i, halfLen, twiddleStep, forward);
      BlockAdvances(z, Z(re, im), a, w, r, s, d, c, i, halfLen, Twiddles(cosTable, sinTable, forward), log2N);
    }

    /** One stage: the butterflies of every block of size len. */
    method Stage(re: array<real>, im: array<real>, len: nat, forward: bool, ghost w: Complex, ghost s: nat,
                 ghost a: seq<Complex>)
      requires Valid() && size > 0 && re != im && re.Length == im.Length == size && TablesHold(forward, w)
      requires s < log2N && len == Pow2(s + 1)
      requires StageDone(Z(re, im), a, RootAt(w, log2N - s), s, log2N)
      modifies re, im
      ensures StageDone(Z(re, im), a, RootAt(w, log2N - s - 1), s + 1, log2N)
    {
      var halfLen := len / 2;
      var twiddleStep := size / len;
      ghost var d := log2N - s - 1;
      assert halfLen == Pow2(s) && twiddleStep == Pow2(d) && size == Pow2(d) * len &&
             halfLen * twiddleStep == size / 2 by {
        Pow2Quotient(log2N, s + 1);
      }
      ghost var r, r2 := RootAt(w, d), RootAt(w, d + 1);
      assert r == Pow(C(), w, Pow2(d)) by { RootAtIsPower(w, d); }
      var i := 0;
      ghost var c: nat := 0;
      while i < size
        invariant i == c * len && c <= Pow2(d)
        invariant BlocksDone(Z(re, im), a, r, s + 1, 0, c) && BlocksDone(Z(re, im), a, r2, s, 2 * c, 2 * Pow2(d))
        decreases size - i
      {
        BlockFits(c, Pow2(d), len, i, size);
        OneBlock(re, im, i, halfLen, twiddleStep, forward, w, s, d, c, a, r);
        i, c := i + len, c + 1;
      }
      BlockCount(c, Pow2(d), len);
      assert log2N - (s + 1) == d;
    }

    /** The whole transform: in place, the DFT sum of the input. */
    method Transform(re: array<real>, im: array<real>, forward: bool, ghost w: Complex)
      requires Valid() && re != im && re.Length == im.Length == size && TablesHold(forward, w)
      modifies re, im
      ensures Z(re, im) == Dft(C(), w, old(Z(re, im)))
    {
      if size == 0 { return; }
      ghost var x := Z(re, im);
      BitReverse(re, im);
      ghost var a := Z(re, im);
      var len := 2;
      ghost var s: nat := 0;
      SingletonsDone(a, RootAt(w, log2N), log2N);
      while len <= size
        invariant s <= log2N && len == Pow2(s + 1)
        invariant StageDone(Z(re, im), a, RootAt(w, log2N - s), s, log2N)
        decreases log2N - s
      {
        assert s < log2N;
        Stage(re, im, len, forward, w, s, a);
        len := 2 * len;
        s := s + 1;
      }
      if s < log2N { Pow2Less(s, log2N); }
      LastStage(Z(re, im), a, w, log2N);
      ComplexIsRing();
      TransformIsDft(C(), w, x, log2N);
    }
  }

  /** Every block of size 2^s of the 2^m values is done. */
  ghost predicate StageDone(z: seq<Complex>, a: seq<Complex>, w: Complex, s: nat, m: nat) {
    s <= m && |z| == |a| == Pow2(m) && BlocksDone(z, a, w, s, 0, Pow2(m - s))
  }

  ghost predicate BlocksDone(z: seq<Complex>, a: seq<Complex>, w: Complex, s: nat, from: nat, to: nat) {
    forall b :: from <= b < to ==> BlockDone(z, a, w, s, b)
  }

  lemma SingletonsDone(a: seq<Complex>, w: Complex, m: nat)
    requires |a| == Pow2(m)
    ensures StageDone(a, a, w, 0, m)
  {
  }

  lemma LastStage(z: seq<Complex>, a: seq<Complex>, w: Complex, m: nat)
    requires StageDone(z, a, w, m, m)
    ensures z == Butterflies(C(), w, a, m)
  {
    assert BlockDone(z, a, w, m, 0);
    assert z[0..Pow2(m)] == z && a[0..Pow2(m)] == a;
  }

  lemma Pow2Quotient(m: nat, s: nat)
    requires 1 <= s <= m
    ensures Pow2(m) / Pow2(s) == Pow2(m - s) && Pow2(m) == Pow2(m - s) * Pow2(s)
    ensures Pow2(s) / 2 * Pow2(m - s) == Pow2(m) / 2
  {
    assert Pow2(s) / 2 * Pow2(m - s) == Pow2(m) / 2 by { Pow2Sum(s - 1, m - s); }
    Pow2Sum(m - s, s);
    QuotientExact(Pow2(m - s), Pow2(s));
  }

  lemma QuotientExact(q: nat, d: nat)
    requires d > 0
    ensures (q * d) / d == q
  {
    var k, r := (q * d) / d, (q * d) % d;
    assert q * d == d * k + r;
    assert (q - k) * d == r;
    if q > k { MulMono(1, q - k, d); } else { MulMono(0, k - q, d); }
  }

  lemma BlockFits(c: nat, n: nat, len: nat, i: nat, size: nat)
    requires i == c * len < size == n * len && c <= n
    ensures c < n && i + len == (c + 1) * len <= size
  {
    if c < n { BlockBounds(c, n, len); }
  }

  lemma BlockCount(c: nat, n: nat, len: nat)
    requires c <= n && c * len >= n * len && len > 0
    ensures c == n
  {
    if c < n { BlockBounds(c, n, len); }
  }

  /** A block outside the part that changed is still done. */
  lemma BlockKept(z: seq<Complex>, z': seq<Complex>, a: seq<Complex>, w: Complex, s: nat, from: nat, i: nat, len: nat)
    requires BlockAt(z, a, w, s, from) && |z'| == |z|
    requires from + Pow2(s) <= i || i + len <= from
    requires forall k :: 0 <= k < |z| && (k < i || i + len <= k) ==> z'[k] == z[k]
    ensures BlockAt(z', a, w, s, from)
  {
    SliceKept(z, z', from, from + Pow2(s), i, len);
  }

  lemma SliceKept(z: seq<Complex>, z': seq<Complex>, from: nat, to: nat, i: nat, len: nat)
    requires from <= to <= |z| == |z'| && (to <= i || i + len <= from)
    requires forall k :: 0 <= k < |z| && (k < i || i + len <= k) ==> z'[k] == z[k]
    ensures z'[from..to] == z[from..to]
  {
  }

  /** Blocks below i keep their place in the list of finished ones. */
  lemma EarlierKept(z: seq<Complex>, z': seq<Complex>, a: seq<Complex>, r: Complex, s: nat, c: nat, i: nat, len: nat)
    requires BlocksDone(z, a, r, s, 0, c) && |z'| == |z| && i == c * Pow2(s)
    requires forall k :: 0 <= k < |z| && (k < i || i + len <= k) ==> z'[k] == z[k]
    ensures BlocksDone(z', a, r, s, 0, c)
  {
    forall b | 0 <= b < c ensures BlockDone(z', a, r, s, b) {
      BlockBounds(b, c, Pow2(s));
      assert BlockDone(z, a, r, s, b);
      BlockKept(z, z', a, r, s, b * Pow2(s), i, len);
    }
  }

  lemma LaterKept(z: seq<Complex>, z': seq<Complex>, a: seq<Complex>, r: Complex, s: nat, c: nat, c': nat, to: nat,
                  i: nat, len: nat)
    requires BlocksDone(z, a, r, s, c, to) && c <= c' && |z'| == |z| && i + len == c' * Pow2(s)
    requires forall k :: 0 <= k < |z| && (k < i || i + len <= k) ==> z'[k] == z[k]
    ensures BlocksDone(z', a, r, s, c', to)
  {
    forall b | c' <= b < to ensures BlockDone(z', a, r, s, b) {
      MulMono(c', b, Pow2(s));
      assert BlockDone(z, a, r, s, b);
      BlockKept(z, z', a, r, s, b * Pow2(s), i, len);
    }
  }

  lemma PassFinishes(z: seq<Complex>, z': seq<Complex>, a: seq<Complex>, w: Complex, r: Complex, s: nat, d: nat, i: nat,
                     h: nat, tw: int -> Complex, m: nat)
    requires m == s + 1 + d && |z| == |z'| == |a| && h == Pow2(s) && i + 2 * h <= |a| && r == Pow(C(), w, Pow2(d))
    requires forall k :: 0 <= k < Pow2(m) / 2 ==> tw(k) == Pow(C(), w, k)
    requires forall k :: 0 <= k < |z| ==> z'[k] == PassAt(z, tw, i, h, Pow2(d), h, k)
    requires BlockAt(z, a, C().mul(r, r), s, i) && BlockAt(z, a, C().mul(r, r), s, i + h)
    ensures BlockAt(z', a, r, s + 1, i)
  {
    TwiddlesAtSteps(w, tw, s, d, m);
    PassIsCombine(z, z', tw, i, h, Pow2(d), w, r);
    BlocksCombine(z, z', a, r, s, i, h);
  }

  /** One block pass moves the boundary between the two block sizes by one block. */
  lemma BlockAdvances(z: seq<Complex>, z': seq<Complex>, a: seq<Complex>, w: Complex, r: Complex, s: nat, d: nat,
                      c: nat, i: nat,
                      h: nat, tw: int -> Complex, m: nat)
    requires m == s + 1 + d && |z| == |z'| == |a| == Pow2(m) && h == Pow2(s) && i == c * Pow2(s + 1) && i + 2 * h <= |a|
    requires r == Pow(C(), w, Pow2(d)) && c < Pow2(d)
    requires forall k :: 0 <= k < Pow2(m) / 2 ==> tw(k) == Pow(C(), w, k)
    requires forall k :: 0 <= k < |z| ==> z'[k] == PassAt(z, tw, i, h, Pow2(d), h, k)
    requires BlocksDone(z, a, r, s + 1, 0, c) && BlocksDone(z, a, C().mul(r, r), s, 2 * c, 2 * Pow2(d))
    ensures BlocksDone(z', a, r, s + 1, 0, c + 1) && BlocksDone(z', a, C().mul(r, r), s, 2 * c + 2, 2 * Pow2(d))
  {
    assert BlockAt(z', a, r, s + 1, i) by {
      Neighbours(z, a, C().mul(r, r), s, c, 2 * Pow2(d), i, h);
      PassFinishes(z, z', a, w, r, s, d, i, h, tw, m);
    }
    PassFrame(z, z', tw, i, h, Pow2(d));
    BoundaryMoves(z, z', a, r, s, c, 2 * Pow2(d), i, h);
  }

  lemma PassFrame(z: seq<Complex>, z': seq<Complex>, tw: int -> Complex, i: nat, h: nat, step: nat)
    requires i + 2 * h <= |z| == |z'|
    requires forall k :: 0 <= k < |z| ==> z'[k] == PassAt(z, tw, i, h, step, h, k)
    ensures forall k :: 0 <= k < |z| && (k < i || i + 2 * h <= k) ==> z'[k] == z[k]
  {
  }

  lemma BoundaryMoves(z: seq<Complex>, z': seq<Complex>, a: seq<Complex>, r: Complex, s: nat, c: nat, to: nat, i: nat,
                      h: nat)
    requires |z| == |z'| && h == Pow2(s) && i == c * (2 * h)
    requires forall k :: 0 <= k < |z| && (k < i || i + 2 * h <= k) ==> z'[k] == z[k]
    requires BlocksDone(z, a, r, s + 1, 0, c) && BlocksDone(z, a, C().mul(r, r), s, 2 * c, to)
    requires BlockAt(z', a, r, s + 1, i)
    ensures BlocksDone(z', a, r, s + 1, 0, c + 1) && BlocksDone(z', a, C().mul(r, r), s, 2 * c + 2, to)
  {
    EarlierKept(z, z', a, r, s + 1, c, i, 2 * h);
    assert i + 2 * h == (2 * c + 2) * h by { BlockEnds(c, h); }
    LaterKept(z, z', a, C().mul(r, r), s, 2 * c, 2 * c + 2, to, i, 2 * h);
    assert BlockDone(z', a, r, s + 1, c);
  }

  /** The two blocks that the pass at i combines. */
  lemma Neighbours(z: seq<Complex>, a: seq<Complex>, r: Complex, s: nat, c: nat, to: nat, i: nat, h: nat)
    requires BlocksDone(z, a, r, s, 2 * c, to) && 2 * c + 2 <= to && h == Pow2(s) && i == c * (2 * h)
    ensures BlockAt(z, a, r, s, i) && BlockAt(z, a, r, s, i + h)
  {
    BlockEnds(c, h);
    assert BlockDone(z, a, r, s, 2 * c) && BlockDone(z, a, r, s, 2 * c + 1);
  }

  lemma TwiddlesAtSteps(w: Complex, tw: int -> Complex, s: nat, d: nat, m: nat)
    requires m == s + 1 + d
    requires forall k :: 0 <= k < Pow2(m) / 2 ==> tw(k) == Pow(C(), w, k)
    ensures forall k :: 0 <= k < Pow2(s) ==> tw(k * Pow2(d)) == Pow(C(), w, k * Pow2(d))
  {
    Pow2Sum(s, d);
    forall k | 0 <= k < Pow2(s) ensures tw(k * Pow2(d)) == Pow(C(), w, k * Pow2(d)) {
      BlockBounds(k, Pow2(s), Pow2(d));
    }
  }

  /** Value k after the swap loop has handled the indices below i. */
  function SortedAt(x: seq<Complex>, m: nat, i: nat, k: nat): Complex
    requires |x| == Pow2(m) && k < |x|
  {
    if k < i || Rev(m, k) < i then x[Rev(m, k)] else x[k]
  }

  /** An odd factor above one rules out being a power of two. */
  lemma {:induction false} NotPower(temp: nat, count: nat, m: nat)
    requires temp > 1 && temp % 2 == 1
    ensures temp * Pow2(count) != Pow2(m)
  {
    if count > 0 {
      if m > 0 {
        NotPower(temp, count - 1, m - 1);
        assert temp * Pow2(count) == 2 * (temp * Pow2(count - 1));
      } else {
        assert temp * Pow2(count) >= temp by { MulMono(1, Pow2(count), temp); }
      }
    }
  }
}
