/** The bit-reversal table of FFT.kt: reversing the low m bits of an index. */
module BitReversal {
  import opened Binary
  import opened FourierRing

  /** The reversal of the low m bits of i, built as the table's loop builds it. */
  function Rev(m: nat, i: nat): (r: nat)
    ensures r < Pow2(m)
  {
    if m == 0 then 0 else 2 * Rev(m - 1, i) + Shr(i, m - 1) % 2
  }

  /** The weight of a bit. */
  function Bit(b: nat, weight: nat): nat { if b % 2 == 1 then weight else 0 }

  /** The same value read from the other end. */
  lemma {:induction false} RevLowFirst(m: nat, i: nat)
    ensures Rev(m + 1, i) == Rev(m, i / 2) + Bit(i, Pow2(m))
  {
    if m > 0 { RevLowFirst(m - 1, i); }
  }

  /** The low m bits of i. */
  function Low(m: nat, i: nat): nat {
    if m == 0 then 0 else 2 * Low(m - 1, i / 2) + i % 2
  }

  lemma {:induction false} LowTop(m: nat, i: nat)
    ensures Low(m + 1, i) == Low(m, i) + Bit(Shr(i, m), Pow2(m))
  {
    if m > 0 { LowTop(m - 1, i / 2); }
  }

  lemma {:induction false} LowAll(m: nat, i: nat)
    requires i < Pow2(m)
    ensures Low(m, i) == i
  {
    if m > 0 { LowAll(m - 1, i / 2); }
  }

  /** Reversing twice gives back the low m bits. */
  lemma {:induction false} RevTwice(m: nat, i: nat)
    ensures Rev(m, Rev(m, i)) == Low(m, i)
  {
    if m > 0 {
      RevTwice(m - 1, i);
      RevLowFirst(m - 1, Rev(m, i));
      LowTop(m - 1, i);
    }
  }

  /** The table is an involution on the indices below 2^m. */
  lemma RevInvolution(m: nat, i: nat)
    requires i < Pow2(m)
    ensures Rev(m, i) < Pow2(m) && Rev(m, Rev(m, i)) == i
  {
    RevTwice(m, i);
    LowAll(m, i);
  }

  /** Bits from the k-th up do not matter for m <= k. */
  lemma {:induction false} RevIgnoresHigh(m: nat, i: nat, k: nat)
    requires m <= k
    ensures Rev(m, i + Pow2(k)) == Rev(m, i)
  {
    if m > 0 {
      RevIgnoresHigh(m - 1, i, k);
      ShrPlusPower(i, k, m - 1);
      assert Pow2(k - (m - 1)) == 2 * Pow2(k - m);
    }
  }

  /** The top bit of the index becomes the low bit of its reversal. */
  lemma RevTopBit(m: nat, i: nat)
    requires m > 0 && i < Pow2(m)
    ensures Rev(m, i) == if i < Pow2(m - 1) then 2 * Rev(m - 1, i) else 2 * Rev(m - 1, i - Pow2(m - 1)) + 1
  {
    var h := Pow2(m - 1);
    if i < h {
      ShrSmall(i, m - 1);
    } else {
      RevIgnoresHigh(m - 1, i - h, m - 1);
      ShrPlusPower(i - h, m - 1, m - 1);
      ShrSmall(i - h, m - 1);
    }
  }

  /** Bit-reversed order puts x[Rev(i)] at place i. */
  lemma {:induction false} BitReversedAt<T>(x: seq<T>, m: nat, i: nat)
    requires |x| == Pow2(m) && i < |x|
    ensures BitReversed(x, m)[i] == x[Rev(m, i)]
    decreases m
  {
    if m > 0 {
      var h := Pow2(m - 1);
      RevTopBit(m, i);
      var lo, hi := BitReversed(Evens(x), m - 1), BitReversed(Odds(x), m - 1);
      assert BitReversed(x, m)[i] == if i < h then lo[i] else hi[i - h];
      if i < h { BitReversedAt(Evens(x), m - 1, i); } else { BitReversedAt(Odds(x), m - 1, i - h); }
    }
  }
}
