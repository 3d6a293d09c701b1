/** The shift register behind both checksums of CyrinxTransportSession.kt, as a list of
    bits whose first element is the next one to leave.  Any width, any polynomial. */
module ShiftRegister {
  type Bits = seq<bool>

  function Zeros(n: nat): (r: Bits)
    ensures |r| == n && forall i :: 0 <= i < n ==> !r[i]
  {
    seq(n, _ => false)
  }

  function Xor(a: Bits, b: Bits): (r: Bits)
    requires |a| == |b|
    ensures |r| == |a| && forall i :: 0 <= i < |r| ==> r[i] == (a[i] != b[i])
  {
    seq(|a|, i requires 0 <= i < |a| => a[i] != b[i])
  }

  /** One shift: the leaving bit feeds the polynomial back. */
  function Step(poly: Bits, r: Bits): (s: Bits)
    requires |r| == |poly| > 0
    ensures |s| == |r|
  {
    var shifted := r[1..] + [false];
    if r[0] then Xor(shifted, poly) else shifted
  }

  /** One shift with a message bit added to the leaving bit. */
  function Feed(poly: Bits, r: Bits, bit: bool): (s: Bits)
    requires |r| == |poly| > 0
    ensures |s| == |r|
  {
    Step(poly, r[0 := r[0] != bit])
  }

  function FeedAll(poly: Bits, r: Bits, message: Bits): (s: Bits)
    requires |r| == |poly| > 0
    ensures |s| == |r|
    decreases |message|
  {
    if message == [] then r else FeedAll(poly, Feed(poly, r, message[0]), message[1..])
  }

  function StepMany(poly: Bits, r: Bits, n: nat): (s: Bits)
    requires |r| == |poly| > 0
    ensures |s| == |r|
    decreases n, r
  {
    if n == 0 then r else StepMany(poly, Step(poly, r), n - 1)
  }

  lemma {:induction false} FeedAllSplit(poly: Bits, r: Bits, m: Bits, n: Bits)
    requires |r| == |poly| > 0
    ensures FeedAll(poly, r, m + n) == FeedAll(poly, FeedAll(poly, r, m), n)
    decreases |m|
  {
    if m == [] { assert m + n == n; }
    else {
      assert (m + n)[1..] == m[1..] + n;
      FeedAllSplit(poly, Feed(poly, r, m[0]), m[1..], n);
    }
  }

  // ------------------------------------------------------------ linearity

  lemma FeedLinear(poly: Bits, a: Bits, b: Bits, p: bool, q: bool)
    requires |a| == |b| == |poly| > 0
    ensures Feed(poly, Xor(a, b), p != q) == Xor(Feed(poly, a, p), Feed(poly, b, q))
  {
    assert Xor(a, b)[0 := Xor(a, b)[0] != (p != q)] == Xor(a[0 := a[0] != p], b[0 := b[0] != q]);
  }

  lemma {:induction false} FeedAllLinear(poly: Bits, a: Bits, b: Bits, m: Bits, n: Bits)
    requires |a| == |b| == |poly| > 0 && |m| == |n|
    ensures FeedAll(poly, Xor(a, b), Xor(m, n)) == Xor(FeedAll(poly, a, m), FeedAll(poly, b, n))
    decreases |m|
  {
    if m != [] {
      FeedLinear(poly, a, b, m[0], n[0]);
      FeedAllLinear(poly, Feed(poly, a, m[0]), Feed(poly, b, n[0]), m[1..], n[1..]);
      assert Xor(m, n)[1..] == Xor(m[1..], n[1..]);
    }
  }

  /** Adding a block of bits up front and shifting it out is feeding it bit by bit. */
  lemma {:induction false} StepManyFeeds(poly: Bits, r: Bits, m: Bits)
    requires |r| == |poly| && |m| <= |r| && |r| > 0
    ensures StepMany(poly, Xor(r, m + Zeros(|r| - |m|)), |m|) == FeedAll(poly, r, m)
    decreases |m|
  {
    if m == [] {
      assert Xor(r, m + Zeros(|r|)) == r;
    } else {
      FirstBitOut(poly, r, m);
      StepManyFeeds(poly, Feed(poly, r, m[0]), m[1..]);
    }
  }

  /** Shifting once takes the first of the added bits out as if it had been fed. */
  lemma FirstBitOut(poly: Bits, r: Bits, m: Bits)
    requires |r| == |poly| && 0 < |m| <= |r|
    ensures Step(poly, Xor(r, m + Zeros(|r| - |m|))) == Xor(Feed(poly, r, m[0]), m[1..] + Zeros(|r| - |m| + 1))
  {
    var w := |r|;
    var first, rest := r[0 := r[0] != m[0]], [false] + m[1..] + Zeros(w - |m|);
    assert Xor(r, m + Zeros(w - |m|)) == Xor(first, rest);
    assert Step(poly, rest) == m[1..] + Zeros(w - |m| + 1);
  }

  // ------------------------------------------------------------ invertibility

  /** A register that shifts to zero held only what the last |e| message bits cancel. */
  lemma {:induction false} ClearedOnlyBy(poly: Bits, r: Bits, e: Bits)
    requires |r| == |poly| > 0 && poly[|poly| - 1] && |e| <= |r|
    ensures FeedAll(poly, r, e) == Zeros(|r|) <==> r == e + Zeros(|r| - |e|)
    decreases |e|
  {
    if e != [] {
      var w, s := |r|, Feed(poly, r, e[0]);
      ClearedOnlyBy(poly, s, e[1..]);
      var target := e[1..] + Zeros(w - |e| + 1);
      if s == target {
        assert !s[w - 1];
        assert s == r[1..] + [false];
        assert r == e + Zeros(w - |e|) by {
          assert forall i :: 0 <= i < w - 1 ==> r[i + 1] == s[i];
          assert forall i :: 0 < i < w ==> r[i] == s[i - 1];
        }
      }
      if r == e + Zeros(w - |e|) { assert s == target; }
    }
  }

  /** Shifting without message bits keeps a nonzero register nonzero. */
  lemma {:induction false} SilenceKeepsNonzero(poly: Bits, r: Bits, n: nat)
    requires |r| == |poly| > 0 && poly[|poly| - 1]
    ensures FeedAll(poly, r, Zeros(n)) == Zeros(|r|) <==> r == Zeros(|r|)
    decreases n
  {
    if n > 0 {
      assert Zeros(n)[1..] == Zeros(n - 1);
      var s := Feed(poly, r, false);
      SilenceKeepsNonzero(poly, s, n - 1);
      ClearedOnlyBy(poly, r, [false]);
      assert FeedAll(poly, r, [false]) == s;
      assert [false] + Zeros(|r| - 1) == Zeros(|r|);
    }
  }

  /** A difference that is nonzero somewhere, but only inside `width` consecutive bits, never cancels. */
  lemma BurstNeverCancels(poly: Bits, e: Bits, from: nat, at: nat)
    requires |poly| > 0 && poly[|poly| - 1] && at < |e| && e[at]
    requires forall i :: 0 <= i < |e| && e[i] ==> from <= i < from + |poly|
    ensures FeedAll(poly, Zeros(|poly|), e) != Zeros(|poly|)
  {
    BurstInRange(poly, e, from, if from + |poly| <= |e| then from + |poly| else |e|, at);
  }

  lemma BurstInRange(poly: Bits, e: Bits, from: nat, to: nat, at: nat)
    requires |poly| > 0 && poly[|poly| - 1] && from <= at < to <= |e| && e[at] && to <= from + |poly|
    requires forall i :: 0 <= i < |e| && e[i] ==> from <= i < to
    ensures FeedAll(poly, Zeros(|poly|), e) != Zeros(|poly|)
  {
    var window := e[from..to];
    assert window[at - from] == e[at];
    WindowNeverCancels(poly, window, |e| - to, at - from);
    BurstIsWindow(poly, e, from, to);
  }

  /** Bits before the burst leave a zero register zero. */
  lemma BurstIsWindow(poly: Bits, e: Bits, from: nat, to: nat)
    requires |poly| > 0 && poly[|poly| - 1]
    requires from <= to <= |e| && forall i :: 0 <= i < |e| && e[i] ==> from <= i < to
    ensures FeedAll(poly, Zeros(|poly|), e) == FeedAll(poly, Zeros(|poly|), e[from..to] + Zeros(|e| - to))
  {
    WindowOf(e, from, to);
    SilenceKeepsNonzero(poly, Zeros(|poly|), from);
    FeedAllSplit(poly, Zeros(|poly|), Zeros(from), e[from..to] + Zeros(|e| - to));
  }

  lemma WindowOf(e: Bits, from: nat, to: nat)
    requires from <= to <= |e| && forall i :: 0 <= i < |e| && e[i] ==> from <= i < to
    ensures e == Zeros(from) + (e[from..to] + Zeros(|e| - to))
  {
    var f := Zeros(from) + (e[from..to] + Zeros(|e| - to));
    assert |f| == |e|;
    forall i | 0 <= i < |e| ensures e[i] == f[i] {
      if from <= i < to { assert f[i] == e[from..to][i - from]; }
    }
  }

  lemma WindowNeverCancels(poly: Bits, window: Bits, n: nat, at: nat)
    requires |poly| > 0 && poly[|poly| - 1] && at < |window| <= |poly| && window[at]
    ensures FeedAll(poly, Zeros(|poly|), window + Zeros(n)) != Zeros(|poly|)
  {
    var w := |poly|;
    var r := FeedAll(poly, Zeros(w), window);
    FeedAllSplit(poly, Zeros(w), window, Zeros(n));
    SilenceKeepsNonzero(poly, r, n);
    ClearedOnlyBy(poly, Zeros(w), window);
    assert (window + Zeros(w - |window|))[at] != Zeros(w)[at];
  }

  /** Two messages of one length that differ somewhere, but only inside `width` consecutive
      bits, leave different registers. */
  lemma BurstDetected(poly: Bits, init: Bits, m: Bits, n: Bits, from: nat)
    requires |init| == |poly| > 0 && poly[|poly| - 1] && |m| == |n| && m != n
    requires forall i :: 0 <= i < |m| && m[i] != n[i] ==> from <= i < from + |poly|
    ensures FeedAll(poly, init, m) != FeedAll(poly, init, n)
  {
    var e := Xor(m, n);
    assert Xor(init, init) == Zeros(|poly|);
    FeedAllLinear(poly, init, init, m, n);
    var i :| 0 <= i < |m| && m[i] != n[i];
    var a, b := FeedAll(poly, init, m), FeedAll(poly, init, n);
    assert a == b ==> Xor(a, b) == Zeros(|poly|);
    BurstNeverCancels(poly, e, from, i);
  }
}
