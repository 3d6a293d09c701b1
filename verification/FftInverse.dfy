/** There and back: the forward transform of FFT.kt followed by its inverse one, on the same tables.

    The inverse reads the sine table without the sign, so its root is the conjugate of the forward one; that the
    two are inverse to each other follows from the forward root turning to -1. */
module FftInverse {
  import opened Binary
  import opened FourierRing
  import opened Fft

  // ------------------------------------------------------------ the root and its conjugate

  function Conj(x: Complex): Complex { Complex(x.re, -x.im) }

  function Norm(x: Complex): (r: real)
    ensures r >= 0.0
  {
    x.re * x.re + x.im * x.im
  }

  lemma ConjMul(x: Complex, y: Complex)
    ensures Conj(CMul(x, y)) == CMul(Conj(x), Conj(y)) && CMul(x, Conj(x)) == Complex(Norm(x), 0.0)
  {
  }

  lemma {:induction false} ConjPow(w: Complex, n: nat)
    ensures Pow(C(), Conj(w), n) == Conj(Pow(C(), w, n))
  {
    if n > 0 {
      ConjPow(w, n - 1);
      ConjMul(w, Pow(C(), w, n - 1));
    }
  }

  lemma NormMul(x: Complex, y: Complex)
    ensures Norm(CMul(x, y)) == Norm(x) * Norm(y)
  {
    var a, b, c, d := x.re, x.im, y.re, y.im;
    assert (a * c - b * d) * (a * c - b * d) == a * a * (c * c) - 2.0 * (a * c * (b * d)) + b * b * (d * d);
    assert (a * d + b * c) * (a * d + b * c) == a * a * (d * d) + 2.0 * (a * c * (b * d)) + b * b * (c * c);
    assert (a * a + b * b) * (c * c + d * d) == a * a * (c * c) + a * a * (d * d) + b * b * (c * c) + b * b * (d * d);
  }

  function Power(r: real, n: nat): real { if n == 0 then 1.0 else r * Power(r, n - 1) }

  lemma {:induction false} NormPow(w: Complex, n: nat)
    ensures Norm(Pow(C(), w, n)) == Power(Norm(w), n)
  {
    if n > 0 {
      NormPow(w, n - 1);
      NormMul(w, Pow(C(), w, n - 1));
    }
  }

  lemma Product(a: real, b: real)
    requires a >= 0.0 && b >= 0.0
    ensures a * b >= 0.0
  {
  }

  lemma {:induction false} PowerAbove(r: real, n: nat)
    requires r > 1.0
    ensures Power(r, n) >= 1.0 && (n > 0 ==> Power(r, n) >= r)
  {
    if n > 0 {
      PowerAbove(r, n - 1);
      Product(r, Power(r, n - 1) - 1.0);
      assert r * Power(r, n - 1) == r + r * (Power(r, n - 1) - 1.0);
    }
  }

  lemma {:induction false} PowerBelow(r: real, n: nat)
    requires 0.0 <= r < 1.0
    ensures 0.0 <= Power(r, n) <= 1.0 && (n > 0 ==> Power(r, n) <= r)
  {
    if n > 0 {
      PowerBelow(r, n - 1);
      Product(r, Power(r, n - 1));
      Product(r, 1.0 - Power(r, n - 1));
      assert r * Power(r, n - 1) == r - r * (1.0 - Power(r, n - 1));
    }
  }

  lemma UnitPower(r: real, n: nat)
    requires r >= 0.0 && n > 0 && Power(r, n) == 1.0
    ensures r == 1.0
  {
    if r > 1.0 { PowerAbove(r, n); }
    if r < 1.0 { PowerBelow(r, n); }
  }

  /** A root that turns to -1 lies on the unit circle. */
  lemma RootInverse(w: Complex, m: nat)
    requires m > 0 && HalfTurn(C(), w, m)
    ensures CMul(w, Conj(w)) == Complex(1.0, 0.0)
  {
    assert Power(Norm(w), Pow2(m - 1)) == 1.0 by {
      NormPow(w, Pow2(m - 1));
      assert Pow(C(), w, Pow2(m - 1)) == Complex(-1.0, 0.0);
    }
    UnitPower(Norm(w), Pow2(m - 1));
    ConjMul(w, w);
  }

  lemma ConjHalfTurn(w: Complex, m: nat)
    requires HalfTurn(C(), w, m)
    ensures HalfTurn(C(), Conj(w), m)
  {
    if m > 0 { ConjPow(w, Pow2(m - 1)); }
  }

  // ------------------------------------------------------------ the two transforms

  function Enlarged(n: nat, y: Complex): Complex { Complex(n as real * y.re, n as real * y.im) }

  lemma {:induction false} TimesIs(n: nat, y: Complex)
    ensures Times(C(), n, y) == Enlarged(n, y)
  {
    if n > 0 { TimesIs(n - 1, y); }
  }

  lemma OnePoint(w: Complex, x: seq<Complex>)
    requires |x| == 1
    ensures Dft(C(), w, x) == x
  {
    OnePointSum(w, x);
  }

  lemma OnePointSum(w: Complex, x: seq<Complex>)
    requires |x| == 1
    ensures DftSum(C(), w, x, 0, 1) == x[0]
  {
    assert Pow(C(), w, 0 * 0) == Complex(1.0, 0.0);
    CUnits(x[0], Complex(0.0, 0.0), x[0]);
    assert DftSum(C(), w, x, 0, 0) == Complex(0.0, 0.0);
  }

  lemma Back(w: Complex, v: Complex, x: seq<Complex>, m: nat, k: nat, r: Complex)
    requires |x| == Pow2(m) && k < |x| && HalfTurn(C(), w, m) && C().mul(w, v) == C().one && Times(C(), |x|, x[k]) == r
    ensures Dft(C(), v, Dft(C(), w, x))[k] == r
  {
    ComplexIsRing();
    InverseUndoes(C(), w, v, x, m, k);
  }

  lemma ThereAndBack(w: Complex, x: seq<Complex>, m: nat, k: nat)
    requires |x| == Pow2(m) && k < |x| && HalfTurn(C(), w, m)
    ensures Dft(C(), Conj(w), Dft(C(), w, x))[k] == Enlarged(|x|, x[k])
  {
    if m == 0 {
      OnePoint(w, x);
      OnePoint(Conj(w), x);
    } else {
      RootInverse(w, m);
      TimesIs(|x|, x[k]);
      Back(w, Conj(w), x, m, k, Enlarged(|x|, x[k]));
    }
  }

  /** The tables of a forward transform serve the inverse one. */
  lemma TablesServeBoth(fft: FFT, w: Complex)
    requires fft.TablesHold(true, w)
    ensures fft.TablesHold(false, Conj(w))
  {
    ConjHalfTurn(w, fft.log2N);
    forall k | 0 <= k < fft.size / 2
      ensures Twiddles(fft.cosTable, fft.sinTable, false)(k) == Pow(C(), Conj(w), k)
    {
      ConjPow(w, k);
      assert Twiddles(fft.cosTable, fft.sinTable, true)(k) == Pow(C(), w, k);
    }
  }

  /** transform(re, im, true) and then transform(re, im, false) leave every value multiplied by the size. */
  method RoundTrip(fft: FFT, re: array<real>, im: array<real>, ghost w: Complex)
    requires fft.Valid() && re != im && re.Length == im.Length == fft.size && fft.TablesHold(true, w)
    modifies re, im
    ensures forall k :: 0 <= k < fft.size ==> Z(re, im)[k] == Enlarged(fft.size, old(Z(re, im))[k])
  {
    ghost var x := Z(re, im);
    fft.Transform(re, im, true, w);
    TablesServeBoth(fft, w);
    fft.Transform(re, im, false, Conj(w));
    forall k | 0 <= k < fft.size ensures Z(re, im)[k] == Enlarged(fft.size, x[k]) {
      ThereAndBack(w, x, fft.log2N, k);
    }
  }
}
