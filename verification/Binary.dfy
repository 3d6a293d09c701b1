/** Powers of two, right shifts and monotone products, shared by the arithmetic modules. */
module Binary {
  function Pow2(m: nat): (r: nat)
    ensures r >= 1
  {
    if m == 0 then 1 else 2 * Pow2(m - 1)
  }

  lemma {:induction false} Pow2Sum(a: nat, b: nat)
    ensures Pow2(a + b) == Pow2(a) * Pow2(b)
  {
    if a > 0 { Pow2Sum(a - 1, b); }
  }

  lemma {:induction false} Pow2Less(a: nat, b: nat)
    requires a < b
    ensures 2 * Pow2(a) <= Pow2(b)
  {
    if a + 1 < b { Pow2Less(a, b - 1); }
  }

  lemma MulMono(a: nat, b: nat, c: nat)
    requires a <= b
    ensures a * c <= b * c
  {
    assert b * c == a * c + (b - a) * c;
  }

  /** i shifted right j times. */
  function Shr(i: nat, j: nat): nat {
    if j == 0 then i else Shr(i / 2, j - 1)
  }

  lemma {:induction false} ShrStep(i: nat, j: nat)
    ensures Shr(i, j + 1) == Shr(i, j) / 2
  {
    if j > 0 { ShrStep(i / 2, j - 1); }
  }

  lemma {:induction false} ShrPlusPower(i: nat, k: nat, j: nat)
    requires j <= k
    ensures Shr(i + Pow2(k), j) == Shr(i, j) + Pow2(k - j)
  {
    if j > 0 {
      assert (i + Pow2(k)) / 2 == i / 2 + Pow2(k - 1);
      ShrPlusPower(i / 2, k - 1, j - 1);
    }
  }

  lemma {:induction false} ShrSmall(i: nat, j: nat)
    requires i < Pow2(j)
    ensures Shr(i, j) == 0
  {
    if j > 0 { ShrSmall(i / 2, j - 1); }
  }
}
