/** The algebra behind FFT.kt: a commutative ring, polynomial evaluation, the discrete
    Fourier transform as a sum, and the recursive radix-2 form of it. */
module FourierRing {
  import opened Binary

  /** A ring is a record of its operations, so results hold for every commutative ring. */
  datatype Ring<!T> = Ring(zero: T, one: T, add: (T, T) -> T, mul: (T, T) -> T, neg: T -> T)

  /** The axioms for three elements; proofs instantiate them by naming the elements. */
  ghost predicate Laws<T>(R: Ring<T>, x: T, y: T, z: T) {
    && R.add(R.add(x, y), z) == R.add(x, R.add(y, z))
    && R.add(x, y) == R.add(y, x)
    && R.add(x, R.zero) == x
    && R.add(x, R.neg(x)) == R.zero
    && R.mul(R.mul(x, y), z) == R.mul(x, R.mul(y, z))
    && R.mul(x, y) == R.mul(y, x)
    && R.mul(x, R.one) == x
    && R.mul(x, R.add(y, z)) == R.add(R.mul(x, y), R.mul(x, z))
  }

  ghost predicate IsRing<T(!new)>(R: Ring<T>) {
    forall x: T, y: T, z: T :: Laws(R, x, y, z)
  }

  function Sub<T>(R: Ring<T>, x: T, y: T): T { R.add(x, R.neg(y)) }

  function Pow<T>(R: Ring<T>, w: T, n: nat): T {
    if n == 0 then R.one else R.mul(w, Pow(R, w, n - 1))
  }

  // ------------------------------------------------------------ elementary laws

  lemma AddAssoc<T(!new)>(R: Ring<T>, x: T, y: T, z: T)
    requires IsRing(R)
    ensures R.add(R.add(x, y), z) == R.add(x, R.add(y, z))
  { assert Laws(R, x, y, z); }

  lemma AddComm<T(!new)>(R: Ring<T>, x: T, y: T)
    requires IsRing(R)
    ensures R.add(x, y) == R.add(y, x)
  { assert Laws(R, x, y, x); }

  lemma AddZero<T(!new)>(R: Ring<T>, x: T)
    requires IsRing(R)
    ensures R.add(x, R.zero) == x && R.add(R.zero, x) == x
  { assert Laws(R, x, R.zero, x); }

  lemma AddNeg<T(!new)>(R: Ring<T>, x: T)
    requires IsRing(R)
    ensures R.add(x, R.neg(x)) == R.zero && R.add(R.neg(x), x) == R.zero
  { assert Laws(R, x, R.neg(x), x); }

  lemma MulAssoc<T(!new)>(R: Ring<T>, x: T, y: T, z: T)
    requires IsRing(R)
    ensures R.mul(R.mul(x, y), z) == R.mul(x, R.mul(y, z))
  { assert Laws(R, x, y, z); }

  lemma MulComm<T(!new)>(R: Ring<T>, x: T, y: T)
    requires IsRing(R)
    ensures R.mul(x, y) == R.mul(y, x)
  { assert Laws(R, x, y, x); }

  lemma MulOne<T(!new)>(R: Ring<T>, x: T)
    requires IsRing(R)
    ensures R.mul(x, R.one) == x && R.mul(R.one, x) == x
  { assert Laws(R, x, R.one, x); }

  lemma Distrib<T(!new)>(R: Ring<T>, x: T, y: T, z: T)
    requires IsRing(R)
    ensures R.mul(x, R.add(y, z)) == R.add(R.mul(x, y), R.mul(x, z))
    ensures R.mul(R.add(y, z), x) == R.add(R.mul(y, x), R.mul(z, x))
  { assert Laws(R, x, y, z); assert Laws(R, x, R.add(y, z), x); assert Laws(R, x, z, x); }

  /** Exchange of the two middle terms of a sum of sums. */
  lemma AddSwap<T(!new)>(R: Ring<T>, a: T, b: T, c: T, d: T)
    requires IsRing(R)
    ensures R.add(R.add(a, b), R.add(c, d)) == R.add(R.add(a, c), R.add(b, d))
  {
    AddAssoc(R, a, b, R.add(c, d));
    AddAssoc(R, b, c, d);
    AddComm(R, b, c);
    AddAssoc(R, c, b, d);
    AddAssoc(R, a, c, R.add(b, d));
  }

  lemma MulSwap<T(!new)>(R: Ring<T>, a: T, b: T, c: T)
    requires IsRing(R)
    ensures R.mul(a, R.mul(b, c)) == R.mul(b, R.mul(a, c))
  {
    MulAssoc(R, a, b, c);
    MulComm(R, a, b);
    MulAssoc(R, b, a, c);
  }

  /** Additive inverses are unique. */
  lemma NegUnique<T(!new)>(R: Ring<T>, x: T, y: T)
    requires IsRing(R) && R.add(x, y) == R.zero
    ensures y == R.neg(x)
  {
    AddZero(R, y);
    AddNeg(R, x);
    AddAssoc(R, R.neg(x), x, y);
    AddZero(R, R.neg(x));
  }

  lemma MulZero<T(!new)>(R: Ring<T>, x: T)
    requires IsRing(R)
    ensures R.mul(x, R.zero) == R.zero && R.mul(R.zero, x) == R.zero
  {
    var p := R.mul(x, R.zero);
    AddZero(R, R.zero);
    Distrib(R, x, R.zero, R.zero);
    assert R.add(p, p) == p;
    AddAssoc(R, p, p, R.neg(p));
    AddNeg(R, p);
    AddZero(R, p);
    MulComm(R, x, R.zero);
  }

  lemma NegMul<T(!new)>(R: Ring<T>, x: T, y: T)
    requires IsRing(R)
    ensures R.mul(R.neg(x), y) == R.neg(R.mul(x, y)) && R.mul(y, R.neg(x)) == R.neg(R.mul(y, x))
  {
    AddNeg(R, x);
    Distrib(R, y, x, R.neg(x));
    MulZero(R, y);
    NegUnique(R, R.mul(x, y), R.mul(R.neg(x), y));
    NegUnique(R, R.mul(y, x), R.mul(y, R.neg(x)));
  }

  lemma NegNeg<T(!new)>(R: Ring<T>, x: T)
    requires IsRing(R)
    ensures R.neg(R.neg(x)) == x
  {
    AddNeg(R, x);
    NegUnique(R, R.neg(x), x);
  }

  /** (-z)(-z) == zz. */
  lemma SquareNeg<T(!new)>(R: Ring<T>, z: T)
    requires IsRing(R)
    ensures R.mul(R.neg(z), R.neg(z)) == R.mul(z, z)
  {
    NegMul(R, z, R.neg(z));
    NegMul(R, z, z);
    NegNeg(R, R.mul(z, z));
  }

  lemma {:induction false} PowSum<T(!new)>(R: Ring<T>, w: T, m: nat, n: nat)
    requires IsRing(R)
    ensures Pow(R, w, m + n) == R.mul(Pow(R, w, m), Pow(R, w, n))
  {
    if m == 0 { MulOne(R, Pow(R, w, n)); }
    else { PowSum(R, w, m - 1, n); MulAssoc(R, w, Pow(R, w, m - 1), Pow(R, w, n)); }
  }

  lemma {:induction false} PowPow<T(!new)>(R: Ring<T>, w: T, m: nat, n: nat)
    requires IsRing(R)
    ensures Pow(R, w, m * n) == Pow(R, Pow(R, w, m), n)
  {
    if n == 0 { assert m * n == 0; }
    else { PowPow(R, w, m, n - 1); assert m * n == m + m * (n - 1); PowSum(R, w, m, m * (n - 1)); }
  }

  lemma {:induction false} PowMul<T(!new)>(R: Ring<T>, v: T, w: T, n: nat)
    requires IsRing(R)
    ensures Pow(R, R.mul(v, w), n) == R.mul(Pow(R, v, n), Pow(R, w, n))
  {
    if n == 0 { MulOne(R, R.one); }
    else {
      PowMul(R, v, w, n - 1);
      var a, b := Pow(R, v, n - 1), Pow(R, w, n - 1);
      MulAssoc(R, v, w, R.mul(a, b));
      MulSwap(R, w, a, b);
      MulAssoc(R, v, a, R.mul(w, b));
    }
  }

  // ------------------------------------------------------------ the transform as a sum

  /** The first `n` terms of the DFT sum at frequency `k`: the sum of x[j] * w^(j*k). */
  function DftSum<T>(R: Ring<T>, w: T, x: seq<T>, k: nat, n: nat): T
    requires n <= |x|
  {
    if n == 0 then R.zero else R.add(DftSum(R, w, x, k, n - 1), R.mul(x[n - 1], Pow(R, w, (n - 1) * k)))
  }

  function Dft<T>(R: Ring<T>, w: T, x: seq<T>): (r: seq<T>)
    ensures |r| == |x|
  {
    seq(|x|, k requires 0 <= k < |x| => DftSum(R, w, x, k, |x|))
  }

  /** x as a polynomial in z. */
  function Eval<T>(R: Ring<T>, x: seq<T>, z: T): T {
    if x == [] then R.zero else R.add(x[0], R.mul(z, Eval(R, x[1..], z)))
  }

  lemma {:induction false} EvalAppend<T(!new)>(R: Ring<T>, x: seq<T>, y: seq<T>, z: T)
    requires IsRing(R)
    ensures Eval(R, x + y, z) == R.add(Eval(R, x, z), R.mul(Pow(R, z, |x|), Eval(R, y, z)))
  {
    if x == [] {
      assert x + y == y;
      MulOne(R, Eval(R, y, z));
      AddZero(R, Eval(R, y, z));
    } else {
      assert (x + y)[1..] == x[1..] + y;
      EvalAppend(R, x[1..], y, z);
      var p, q := Eval(R, x[1..], z), R.mul(Pow(R, z, |x| - 1), Eval(R, y, z));
      Distrib(R, z, p, q);
      MulAssoc(R, z, Pow(R, z, |x| - 1), Eval(R, y, z));
      AddAssoc(R, x[0], R.mul(z, p), R.mul(z, q));
    }
  }

  /** The DFT sum at frequency k is the polynomial x at w^k. */
  lemma {:induction false} DftIsEval<T(!new)>(R: Ring<T>, w: T, x: seq<T>, k: nat, n: nat)
    requires IsRing(R) && n <= |x|
    ensures DftSum(R, w, x, k, n) == Eval(R, x[..n], Pow(R, w, k))
  {
    if n > 0 {
      var z := Pow(R, w, k);
      DftIsEval(R, w, x, k, n - 1);
      assert x[..n] == x[..n - 1] + [x[n - 1]];
      EvalAppend(R, x[..n - 1], [x[n - 1]], z);
      PowPow(R, w, k, n - 1);
      assert k * (n - 1) == (n - 1) * k;
      EvalConstant(R, x[n - 1], z);
      MulComm(R, x[n - 1], Pow(R, z, n - 1));
    }
  }

  // ------------------------------------------------------------ even and odd halves

  function Evens<T>(x: seq<T>): (r: seq<T>)
    ensures |r| == (|x| + 1) / 2
    ensures forall i :: 0 <= i < |r| ==> r[i] == x[2 * i]
  {
    seq((|x| + 1) / 2, i requires 0 <= i < (|x| + 1) / 2 => x[2 * i])
  }

  function Odds<T>(x: seq<T>): (r: seq<T>)
    ensures |r| == |x| / 2
    ensures forall i :: 0 <= i < |r| ==> r[i] == x[2 * i + 1]
  {
    seq(|x| / 2, i requires 0 <= i < |x| / 2 => x[2 * i + 1])
  }

  lemma {:induction false} EvalSplit<T(!new)>(R: Ring<T>, x: seq<T>, z: T)
    requires IsRing(R) && |x| % 2 == 0
    ensures Eval(R, x, z) == R.add(Eval(R, Evens(x), R.mul(z, z)), R.mul(z, Eval(R, Odds(x), R.mul(z, z))))
    decreases |x|
  {
    var zz := R.mul(z, z);
    if x == [] {
      MulZero(R, z);
      AddZero(R, R.zero);
    } else {
      var r := x[2..];
      EvalSplit(R, r, z);
      assert Evens(x)[1..] == Evens(r) && Odds(x)[1..] == Odds(r);
      var a, b, E, O := x[0], x[1], Eval(R, Evens(r), zz), Eval(R, Odds(r), zz);
      assert x[1..][1..] == r;
      assert Eval(R, x, z) == R.add(a, R.mul(z, R.add(b, R.mul(z, R.add(E, R.mul(z, O))))));
      SplitStep(R, a, b, E, O, z);
      assert Eval(R, Evens(x), zz) == R.add(a, R.mul(zz, E));
      assert Eval(R, Odds(x), zz) == R.add(b, R.mul(zz, O));
    }
  }

  lemma SplitStep<T(!new)>(R: Ring<T>, a: T, b: T, E: T, O: T, z: T)
    requires IsRing(R)
    ensures R.add(a, R.mul(z, R.add(b, R.mul(z, R.add(E, R.mul(z, O))))))
         == R.add(R.add(a, R.mul(R.mul(z, z), E)), R.mul(z, R.add(b, R.mul(R.mul(z, z), O))))
  {
    var zz := R.mul(z, z);
    var zO := R.mul(z, O);
    Distrib(R, z, E, zO);
    MulAssoc(R, z, z, O);
    assert R.mul(z, R.add(E, zO)) == R.add(R.mul(z, E), R.mul(zz, O));
    var u, v := R.mul(z, E), R.mul(zz, O);
    AddAssoc(R, b, u, v); AddComm(R, b, u); AddAssoc(R, u, b, v);
    assert R.add(b, R.add(u, v)) == R.add(u, R.add(b, v));
    Distrib(R, z, u, R.add(b, v));
    MulAssoc(R, z, z, E);
    AddAssoc(R, a, R.mul(zz, E), R.mul(z, R.add(b, v)));
  }

  // ------------------------------------------------------------ the radix-2 recursion

  /** One butterfly pass: two half-size transforms become one, with twiddles w^j. */
  function Combine<T>(R: Ring<T>, w: T, A: seq<T>, B: seq<T>): (r: seq<T>)
    requires |A| == |B|
    ensures |r| == 2 * |A|
  {
    seq(2 * |A|, k requires 0 <= k < 2 * |A| =>
      if k < |A| then R.add(A[k], R.mul(B[k], Pow(R, w, k)))
      else Sub(R, A[k - |A|], R.mul(B[k - |A|], Pow(R, w, k - |A|))))
  }

  /** What the butterfly stages make of 2^m values already in bit-reversed order. */
  function Butterflies<T>(R: Ring<T>, w: T, z: seq<T>, m: nat): (r: seq<T>)
    requires |z| == Pow2(m)
    ensures |r| == |z|
    decreases m
  {
    if m == 0 then z
    else
      var h := Pow2(m - 1);
      Combine(R, w, Butterflies(R, R.mul(w, w), z[..h], m - 1), Butterflies(R, R.mul(w, w), z[h..], m - 1))
  }

  /** Bit-reversed order: first the even-indexed values, then the odd-indexed ones. */
  function BitReversed<T>(x: seq<T>, m: nat): (r: seq<T>)
    requires |x| == Pow2(m)
    ensures |r| == |x|
    decreases m
  {
    if m == 0 then x else BitReversed(Evens(x), m - 1) + BitReversed(Odds(x), m - 1)
  }

  /** w is a primitive 2^m-th root in the sense the butterflies need: w^(n/2) == -1. */
  predicate HalfTurn<T(==)>(R: Ring<T>, w: T, m: nat) { m > 0 ==> Pow(R, w, Pow2(m - 1)) == R.neg(R.one) }

  lemma HalfTurnSquare<T(!new)>(R: Ring<T>, w: T, m: nat)
    requires IsRing(R) && m > 0 && HalfTurn(R, w, m)
    ensures HalfTurn(R, R.mul(w, w), m - 1)
  {
    if m > 1 {
      PowPow(R, w, 2, Pow2(m - 2));
      PowTwo(R, w);
    }
  }

  lemma PowTwo<T(!new)>(R: Ring<T>, w: T)
    requires IsRing(R)
    ensures Pow(R, w, 1) == w && Pow(R, w, 2) == R.mul(w, w)
  {
    MulOne(R, w);
    assert Pow(R, w, 2) == R.mul(w, Pow(R, w, 1));
  }

  lemma PowSquare<T(!new)>(R: Ring<T>, w: T, k: nat)
    requires IsRing(R)
    ensures Pow(R, R.mul(w, w), k) == R.mul(Pow(R, w, k), Pow(R, w, k))
  {
    PowMul(R, w, w, k);
  }

  /** Half a turn further on, the twiddle changes sign. */
  lemma PowHalf<T(!new)>(R: Ring<T>, w: T, m: nat, k: nat)
    requires IsRing(R) && m > 0 && HalfTurn(R, w, m)
    ensures Pow(R, w, Pow2(m - 1) + k) == R.neg(Pow(R, w, k))
  {
    PowSum(R, w, Pow2(m - 1), k);
    NegMul(R, R.one, Pow(R, w, k));
    MulOne(R, Pow(R, w, k));
  }

  lemma EvalAtNeg<T(!new)>(R: Ring<T>, x: seq<T>, t: T)
    requires IsRing(R) && |x| % 2 == 0
    ensures Eval(R, x, R.neg(t)) == Sub(R, Eval(R, Evens(x), R.mul(t, t)), R.mul(Eval(R, Odds(x), R.mul(t, t)), t))
  {
    EvalSplit(R, x, R.neg(t));
    SquareNeg(R, t);
    NegMul(R, t, Eval(R, Odds(x), R.mul(t, t)));
    MulComm(R, t, Eval(R, Odds(x), R.mul(t, t)));
  }

  lemma LowEvaluates<T(!new)>(R: Ring<T>, w: T, x: seq<T>, a: T, b: T, m: nat, j: nat)
    requires IsRing(R) && m > 0 && |x| == Pow2(m)
    requires a == Eval(R, Evens(x), Pow(R, R.mul(w, w), j)) && b == Eval(R, Odds(x), Pow(R, R.mul(w, w), j))
    ensures R.add(a, R.mul(b, Pow(R, w, j))) == Eval(R, x, Pow(R, w, j))
  {
    PowSquare(R, w, j);
    EvalSplit(R, x, Pow(R, w, j));
    MulComm(R, b, Pow(R, w, j));
  }

  lemma HighEvaluates<T(!new)>(R: Ring<T>, w: T, x: seq<T>, a: T, b: T, m: nat, j: nat)
    requires IsRing(R) && m > 0 && HalfTurn(R, w, m) && |x| == Pow2(m)
    requires a == Eval(R, Evens(x), Pow(R, R.mul(w, w), j)) && b == Eval(R, Odds(x), Pow(R, R.mul(w, w), j))
    ensures Sub(R, a, R.mul(b, Pow(R, w, j))) == Eval(R, x, Pow(R, w, Pow2(m - 1) + j))
  {
    PowSquare(R, w, j);
    PowHalf(R, w, m, j);
    EvalAtNeg(R, x, Pow(R, w, j));
  }

  /** One butterfly turns the values of the halves at w^2j into x's value at w^k, for k = j or j + n/2. */
  lemma CombineEvaluates<T(!new)>(R: Ring<T>, w: T, x: seq<T>, A: seq<T>, B: seq<T>, m: nat, k: nat)
    requires IsRing(R) && m > 0 && HalfTurn(R, w, m) && |x| == Pow2(m) && |A| == |B| == Pow2(m - 1) && k < |x|
    requires var j := if k < |A| then k else k - |A|;
             && A[j] == Eval(R, Evens(x), Pow(R, R.mul(w, w), j))
             && B[j] == Eval(R, Odds(x), Pow(R, R.mul(w, w), j))
    ensures Combine(R, w, A, B)[k] == Eval(R, x, Pow(R, w, k))
  {
    if k < |A| {
      LowEvaluates(R, w, x, A[k], B[k], m, k);
    } else {
      HighEvaluates(R, w, x, A[k - |A|], B[k - |A|], m, k - |A|);
    }
  }

  lemma EvalConstant<T(!new)>(R: Ring<T>, a: T, z: T)
    requires IsRing(R)
    ensures Eval(R, [a], z) == a
  {
    MulZero(R, z);
    AddZero(R, a);
  }

  /** The butterflies on bit-reversed input compute the DFT. */
  lemma {:induction false} ButterfliesAreDft<T(!new)>(R: Ring<T>, w: T, x: seq<T>, m: nat, k: nat)
    requires IsRing(R) && |x| == Pow2(m) && k < |x| && HalfTurn(R, w, m)
    ensures Butterflies(R, w, BitReversed(x, m), m)[k] == Eval(R, x, Pow(R, w, k))
    decreases m, 1
  {
    if m == 0 {
      EvalConstant(R, x[0], Pow(R, w, k));
      assert x == [x[0]];
    } else {
      ButterfliesStep(R, w, x, m, k);
    }
  }

  lemma {:induction false} ButterfliesStep<T(!new)>(R: Ring<T>, w: T, x: seq<T>, m: nat, k: nat)
    requires IsRing(R) && |x| == Pow2(m) && k < |x| && HalfTurn(R, w, m) && m > 0
    ensures Combine(R, w, Butterflies(R, R.mul(w, w), BitReversed(Evens(x), m - 1), m - 1),
                          Butterflies(R, R.mul(w, w), BitReversed(Odds(x), m - 1), m - 1))[k] ==
                            Eval(R, x, Pow(R, w, k))
    decreases m, 0
  {
    var h, w2 := Pow2(m - 1), R.mul(w, w);
    var j := if k < h then k else k - h;
    HalfTurnSquare(R, w, m);
    ButterfliesAreDft(R, w2, Evens(x), m - 1, j);
    ButterfliesAreDft(R, w2, Odds(x), m - 1, j);
    CombineEvaluates(R, w, x, Butterflies(R, w2, BitReversed(Evens(x), m - 1), m - 1),
                     Butterflies(R, w2, BitReversed(Odds(x), m - 1), m - 1), m, k);
  }

  lemma TransformIsDft<T(!new)>(R: Ring<T>, w: T, x: seq<T>, m: nat)
    requires IsRing(R) && |x| == Pow2(m) && HalfTurn(R, w, m)
    ensures Butterflies(R, w, BitReversed(x, m), m) == Dft(R, w, x)
  {
    forall k | 0 <= k < |x| ensures Butterflies(R, w, BitReversed(x, m), m)[k] == Dft(R, w, x)[k] {
      ButterfliesAreDft(R, w, x, m, k);
      DftIsEval(R, w, x, k, |x|);
      assert x[..|x|] == x;
    }
  }

  // ------------------------------------------------------------ the inverse transform

  /** y added to itself n times. */
  function Times<T>(R: Ring<T>, n: nat, y: T): T {
    if n == 0 then R.zero else R.add(Times(R, n - 1, y), y)
  }

  lemma {:induction false} TimesSum<T(!new)>(R: Ring<T>, m: nat, n: nat, y: T)
    requires IsRing(R)
    ensures Times(R, m + n, y) == R.add(Times(R, m, y), Times(R, n, y))
  {
    if n == 0 { AddZero(R, Times(R, m, y)); }
    else { TimesSum(R, m, n - 1, y); AddAssoc(R, Times(R, m, y), Times(R, n - 1, y), y); }
  }

  function Zip<T>(f: (T, T) -> T, x: seq<T>, y: seq<T>): (r: seq<T>)
    requires |x| == |y|
    ensures |r| == |x|
    ensures forall i :: 0 <= i < |x| ==> r[i] == f(x[i], y[i])
  {
    seq(|x|, i requires 0 <= i < |x| => f(x[i], y[i]))
  }

  lemma {:induction false} EvalAdd<T(!new)>(R: Ring<T>, x: seq<T>, y: seq<T>, z: T)
    requires IsRing(R) && |x| == |y|
    ensures Eval(R, Zip(R.add, x, y), z) == R.add(Eval(R, x, z), Eval(R, y, z))
  {
    if x == [] { AddZero(R, R.zero); }
    else {
      EvalAdd(R, x[1..], y[1..], z);
      assert Zip(R.add, x, y)[1..] == Zip(R.add, x[1..], y[1..]);
      Distrib(R, z, Eval(R, x[1..], z), Eval(R, y[1..], z));
      AddSwap(R, x[0], y[0], R.mul(z, Eval(R, x[1..], z)), R.mul(z, Eval(R, y[1..], z)));
    }
  }

  lemma NegAdd<T(!new)>(R: Ring<T>, x: T, y: T)
    requires IsRing(R)
    ensures R.neg(R.add(x, y)) == R.add(R.neg(x), R.neg(y))
  {
    AddSwap(R, x, y, R.neg(x), R.neg(y));
    AddNeg(R, x);
    AddNeg(R, y);
    AddZero(R, R.zero);
    NegUnique(R, R.add(x, y), R.add(R.neg(x), R.neg(y)));
  }

  lemma NegZero<T(!new)>(R: Ring<T>)
    requires IsRing(R)
    ensures R.neg(R.zero) == R.zero
  {
    AddZero(R, R.zero);
    NegUnique(R, R.zero, R.zero);
  }

  function Negated<T>(R: Ring<T>, x: seq<T>): (r: seq<T>)
    ensures |r| == |x| && forall i :: 0 <= i < |x| ==> r[i] == R.neg(x[i])
  {
    seq(|x|, i requires 0 <= i < |x| => R.neg(x[i]))
  }

  lemma {:induction false} EvalNegated<T(!new)>(R: Ring<T>, x: seq<T>, z: T)
    requires IsRing(R)
    ensures Eval(R, Negated(R, x), z) == R.neg(Eval(R, x, z))
  {
    if x == [] { NegZero(R); }
    else {
      EvalNegated(R, x[1..], z);
      assert Negated(R, x)[1..] == Negated(R, x[1..]);
      NegMul(R, Eval(R, x[1..], z), z);
      NegAdd(R, x[0], R.mul(z, Eval(R, x[1..], z)));
    }
  }

  /** The sequence x[j] * c * w^j. */
  function Twisted<T>(R: Ring<T>, w: T, x: seq<T>, c: T): (r: seq<T>)
    ensures |r| == |x| && forall j :: 0 <= j < |x| ==> r[j] == R.mul(R.mul(Pow(R, w, j), c), x[j])
  {
    seq(|x|, j requires 0 <= j < |x| => R.mul(R.mul(Pow(R, w, j), c), x[j]))
  }

  /** Twisting by powers of w moves the evaluation point from z to w*z. */
  lemma {:induction false} EvalTwisted<T(!new)>(R: Ring<T>, w: T, x: seq<T>, c: T, z: T)
    requires IsRing(R)
    ensures Eval(R, Twisted(R, w, x, c), z) == R.mul(c, Eval(R, x, R.mul(w, z)))
    decreases |x|
  {
    if x == [] { MulZero(R, c); }
    else {
      var x' := x[1..];
      EvalTwisted(R, w, x', R.mul(w, c), z);
      forall j | 0 <= j < |x'| ensures Twisted(R, w, x, c)[1..][j] == Twisted(R, w, x', R.mul(w, c))[j] {
        MulSwap(R, Pow(R, w, j), w, c);
        MulAssoc(R, w, Pow(R, w, j), c);
      }
      assert Twisted(R, w, x, c)[1..] == Twisted(R, w, x', R.mul(w, c));
      MulOne(R, c);
      var e := Eval(R, x', R.mul(w, z));
      TwistStep(R, w, c, z, e);
      Distrib(R, c, x[0], R.mul(R.mul(w, z), e));
    }
  }

  lemma TwistStep<T(!new)>(R: Ring<T>, w: T, c: T, z: T, e: T)
    requires IsRing(R)
    ensures R.mul(z, R.mul(R.mul(w, c), e)) == R.mul(c, R.mul(R.mul(w, z), e))
  {
    MulComm(R, w, c);
    MulAssoc(R, c, w, e);
    MulSwap(R, z, c, R.mul(w, e));
    MulAssoc(R, z, w, e);
    MulComm(R, z, w);
  }

  /** If w*v == 1 and w makes half a turn, so does v. */
  lemma HalfTurnInverse<T(!new)>(R: Ring<T>, w: T, v: T, m: nat)
    requires IsRing(R) && R.mul(w, v) == R.one && HalfTurn(R, w, m)
    ensures HalfTurn(R, v, m)
  {
    if m > 0 {
      var h := Pow2(m - 1);
      PowMul(R, w, v, h);
      PowOne(R, h);
      NegMul(R, R.one, Pow(R, v, h));
      MulOne(R, Pow(R, v, h));
      NegNeg(R, Pow(R, v, h));
    }
  }

  lemma {:induction false} PowOne<T(!new)>(R: Ring<T>, n: nat)
    requires IsRing(R)
    ensures Pow(R, R.one, n) == R.one
  {
    if n > 0 { PowOne(R, n - 1); MulOne(R, R.one); }
  }

  lemma {:induction false} PowMinusOne<T(!new)>(R: Ring<T>, k: nat)
    requires IsRing(R)
    ensures Pow(R, R.neg(R.one), k) == if k % 2 == 0 then R.one else R.neg(R.one)
  {
    if k > 0 {
      PowMinusOne(R, k - 1);
      NegMul(R, R.one, Pow(R, R.neg(R.one), k - 1));
      MulOne(R, Pow(R, R.neg(R.one), k - 1));
      NegNeg(R, R.one);
    }
  }

  /** The value of a spectrum at v^k, folded to half its length: the two halves add for even k
      and subtract for odd k. */
  lemma EvalFolded<T(!new)>(R: Ring<T>, v: T, X: seq<T>, m: nat, k: nat)
    requires IsRing(R) && m > 0 && |X| == Pow2(m) && HalfTurn(R, v, m)
    ensures var lo, hi := X[..Pow2(m - 1)], X[Pow2(m - 1)..];
            Eval(R, X, Pow(R, v, k)) == Eval(R, Zip(R.add, lo, if k % 2 == 0 then hi else Negated(R, hi)), Pow(R, v, k))
  {
    var h, z := Pow2(m - 1), Pow(R, v, k);
    var lo, hi := X[..h], X[h..];
    assert X == lo + hi;
    EvalAppend(R, lo, hi, z);
    PowPow(R, v, k, h);
    PowPow(R, v, h, k);
    assert h * k == k * h;
    PowMinusOne(R, k);
    MulOne(R, Eval(R, hi, z));
    NegMul(R, R.one, Eval(R, hi, z));
    EvalNegated(R, hi, z);
    EvalAdd(R, lo, if k % 2 == 0 then hi else Negated(R, hi), z);
  }

  lemma DftLow<T(!new)>(R: Ring<T>, w: T, x: seq<T>, m: nat, j: nat)
    requires IsRing(R) && m > 0 && |x| == Pow2(m) && j < Pow2(m - 1)
    ensures var t := Pow(R, w, j);
            Dft(R, w, x)[j] == R.add(Eval(R, Evens(x), R.mul(t, t)), R.mul(t, Eval(R, Odds(x), R.mul(t, t))))
  {
    DftAt(R, w, x, j);
    EvalSplit(R, x, Pow(R, w, j));
  }

  lemma DftHighAt<T(!new)>(R: Ring<T>, w: T, x: seq<T>, m: nat, j: nat)
    requires IsRing(R) && m > 0 && |x| == Pow2(m) && HalfTurn(R, w, m) && j < Pow2(m - 1)
    ensures Dft(R, w, x)[Pow2(m - 1) + j] == Eval(R, x, R.neg(Pow(R, w, j)))
  {
    DftAt(R, w, x, Pow2(m - 1) + j);
    PowHalf(R, w, m, j);
  }

  lemma DftHigh<T(!new)>(R: Ring<T>, w: T, x: seq<T>, m: nat, j: nat)
    requires IsRing(R) && m > 0 && |x| == Pow2(m) && HalfTurn(R, w, m) && j < Pow2(m - 1)
    ensures var t := Pow(R, w, j);
            Dft(R, w, x)[Pow2(m - 1) + j] ==
              Sub(R, Eval(R, Evens(x), R.mul(t, t)), R.mul(t, Eval(R, Odds(x), R.mul(t, t))))
  {
    var t := Pow(R, w, j);
    DftHighAt(R, w, x, m, j);
    EvalAtNeg(R, x, t);
    MulComm(R, t, Eval(R, Odds(x), R.mul(t, t)));
  }

  lemma DftOfHalf<T(!new)>(R: Ring<T>, w: T, x: seq<T>, j: nat)
    requires IsRing(R) && j < |x|
    ensures Dft(R, R.mul(w, w), x)[j] == Eval(R, x, R.mul(Pow(R, w, j), Pow(R, w, j)))
  {
    DftAt(R, R.mul(w, w), x, j);
    PowSquare(R, w, j);
  }

  /** The spectrum of x in terms of the spectra of its even and odd halves. */
  lemma DftHalves<T(!new)>(R: Ring<T>, w: T, x: seq<T>, m: nat, j: nat)
    requires IsRing(R) && m > 0 && |x| == Pow2(m) && HalfTurn(R, w, m) && j < Pow2(m - 1)
    ensures var e, o := Dft(R, R.mul(w, w), Evens(x))[j], R.mul(Pow(R, w, j), Dft(R, R.mul(w, w), Odds(x))[j]);
            Dft(R, w, x)[j] == R.add(e, o) && Dft(R, w, x)[Pow2(m - 1) + j] == Sub(R, e, o)
  {
    DftLow(R, w, x, m, j);
    DftHigh(R, w, x, m, j);
    DftOfHalf(R, w, Evens(x), j);
    DftOfHalf(R, w, Odds(x), j);
  }

  lemma DftAt<T(!new)>(R: Ring<T>, w: T, x: seq<T>, k: nat)
    requires IsRing(R) && k < |x|
    ensures Dft(R, w, x)[k] == Eval(R, x, Pow(R, w, k))
  {
    DftIsEval(R, w, x, k, |x|);
    assert x[..|x|] == x;
  }

  lemma AddSubSame<T(!new)>(R: Ring<T>, e: T, o: T)
    requires IsRing(R)
    ensures R.add(R.add(e, o), Sub(R, e, o)) == R.add(e, e)
    ensures R.add(R.add(e, o), R.neg(Sub(R, e, o))) == R.add(o, o)
  {
    AddSwap(R, e, o, e, R.neg(o));
    AddNeg(R, o);
    AddZero(R, R.add(e, e));
    NegAdd(R, e, R.neg(o));
    NegNeg(R, o);
    AddSwap(R, e, o, R.neg(e), o);
    AddNeg(R, e);
    AddZero(R, R.add(o, o));
  }

  lemma FoldedAt<T(!new)>(R: Ring<T>, w: T, x: seq<T>, m: nat, j: nat)
    requires IsRing(R) && m > 0 && |x| == Pow2(m) && HalfTurn(R, w, m) && j < Pow2(m - 1)
    ensures var X, h := Dft(R, w, x), Pow2(m - 1);
            var e, o := Dft(R, R.mul(w, w), Evens(x))[j], Twisted(R, w, Dft(R, R.mul(w, w), Odds(x)), R.one)[j];
            R.add(X[j], X[h + j]) == R.add(e, e) && R.add(X[j], R.neg(X[h + j])) == R.add(o, o)
  {
    var e, d := Dft(R, R.mul(w, w), Evens(x))[j], Dft(R, R.mul(w, w), Odds(x))[j];
    DftHalves(R, w, x, m, j);
    MulOne(R, Pow(R, w, j));
    AddSubSame(R, e, R.mul(Pow(R, w, j), d));
  }

  /** Folding the spectrum of x gives twice the even half's spectrum, or twice the odd half's, twisted. */
  lemma FoldedSpectrum<T(!new)>(R: Ring<T>, w: T, x: seq<T>, m: nat)
    requires IsRing(R) && m > 0 && |x| == Pow2(m) && HalfTurn(R, w, m)
    ensures var X, h := Dft(R, w, x), Pow2(m - 1);
            var E, O := Dft(R, R.mul(w, w), Evens(x)), Twisted(R, w, Dft(R, R.mul(w, w), Odds(x)), R.one);
            && Zip(R.add, X[..h], X[h..]) == Zip(R.add, E, E)
            && Zip(R.add, X[..h], Negated(R, X[h..])) == Zip(R.add, O, O)
  {
    var X := Dft(R, w, x);
    var E, O := Dft(R, R.mul(w, w), Evens(x)), Twisted(R, w, Dft(R, R.mul(w, w), Odds(x)), R.one);
    assert |E| == |O| == Pow2(m - 1);
    forall j | 0 <= j < |E|
      ensures R.add(X[j], X[|E| + j]) == R.add(E[j], E[j]) && R.add(X[j], R.neg(X[|E| + j])) == R.add(O[j], O[j])
    {
      FoldedAt(R, w, x, m, j);
    }
  }

  /** The inverse transform (the one with the reciprocal root) of the transform is n times the input. */
  lemma {:induction false} InverseUndoes<T(!new)>(R: Ring<T>, w: T, v: T, x: seq<T>, m: nat, k: nat)
    requires IsRing(R) && |x| == Pow2(m) && k < |x| && HalfTurn(R, w, m) && R.mul(w, v) == R.one
    ensures Dft(R, v, Dft(R, w, x))[k] == Times(R, |x|, x[k])
    decreases m
  {
    var X := Dft(R, w, x);
    DftAt(R, v, X, k);
    if m == 0 {
      DftAt(R, w, x, 0);
      EvalConstant(R, x[0], Pow(R, w, 0));
      assert x == [x[0]] && X == [X[0]];
      EvalConstant(R, X[0], Pow(R, v, k));
      AddZero(R, x[0]);
      assert Times(R, 1, x[0]) == R.add(Times(R, 0, x[0]), x[0]);
    } else {
      InverseStep(R, w, v, x, m, k);
    }
  }

  lemma {:induction false} InverseStep<T(!new)>(R: Ring<T>, w: T, v: T, x: seq<T>, m: nat, k: nat)
    requires IsRing(R) && m > 0 && |x| == Pow2(m) && k < |x| && HalfTurn(R, w, m) && R.mul(w, v) == R.one
    ensures Eval(R, Dft(R, w, x), Pow(R, v, k)) == Times(R, |x|, x[k])
    decreases m, 0
  {
    var w2, v2, q := R.mul(w, w), R.mul(v, v), k / 2;
    var half := if k % 2 == 0 then Evens(x) else Odds(x);
    HalfTurnSquare(R, w, m);
    SquaresInvert(R, w, v);
    InverseUndoes(R, w2, v2, half, m - 1, q);
    var n := |half|;
    assert |x| == n + n && half[q] == x[k];
    var e := Eval(R, Dft(R, w2, half), Pow(R, v2, q));
    assert e == Times(R, n, x[k]) by { DftAt(R, v2, Dft(R, w2, half), q); }
    TimesSum(R, n, n, x[k]);
    assert Times(R, |x|, x[k]) == R.add(e, e);
    SpectrumAtPoint(R, w, v, x, m, k);
  }

  /** The spectrum of x at v^k is twice the spectrum of one half of x at the matching point. */
  lemma SpectrumAtPoint<T(!new)>(R: Ring<T>, w: T, v: T, x: seq<T>, m: nat, k: nat)
    requires IsRing(R) && m > 0 && |x| == Pow2(m) && k < |x| && HalfTurn(R, w, m) && R.mul(w, v) == R.one
    ensures var half := if k % 2 == 0 then Evens(x) else Odds(x);
            var e := Eval(R, Dft(R, R.mul(w, w), half), Pow(R, R.mul(v, v), k / 2));
            Eval(R, Dft(R, w, x), Pow(R, v, k)) == R.add(e, e)
  {
    var z := Pow(R, v, k);
    HalfTurnInverse(R, w, v, m);
    EvalFolded(R, v, Dft(R, w, x), m, k);
    FoldedSpectrum(R, w, x, m);
    InversePoint(R, w, v, k);
    var S := Dft(R, R.mul(w, w), if k % 2 == 0 then Evens(x) else Odds(x));
    if k % 2 == 0 { EvalAdd(R, S, S, z); }
    else {
      var O := Twisted(R, w, S, R.one);
      EvalAdd(R, O, O, z);
      EvalTwisted(R, w, S, R.one, z);
      MulOne(R, Eval(R, S, R.mul(w, z)));
    }
  }

  lemma SquaresInvert<T(!new)>(R: Ring<T>, w: T, v: T)
    requires IsRing(R) && R.mul(w, v) == R.one
    ensures R.mul(R.mul(w, w), R.mul(v, v)) == R.one
  {
    MulAssoc(R, w, w, R.mul(v, v));
    MulAssoc(R, w, v, v);
    MulOne(R, v);
  }

  /** Where the folded spectrum is evaluated: at the matching power of v^2. */
  lemma InversePoint<T(!new)>(R: Ring<T>, w: T, v: T, k: nat)
    requires IsRing(R) && R.mul(w, v) == R.one
    ensures k % 2 == 0 ==> Pow(R, v, k) == Pow(R, R.mul(v, v), k / 2)
    ensures k % 2 == 1 ==> R.mul(w, Pow(R, v, k)) == Pow(R, R.mul(v, v), k / 2)
  {
    PowPow(R, v, 2, k / 2);
    PowTwo(R, v);
    if k % 2 == 1 {
      var p := Pow(R, v, k - 1);
      assert k - 1 == 2 * (k / 2);
      MulAssoc(R, w, v, p);
      MulOne(R, p);
    }
  }
}
