/** applyTextDiff (packages/sync/src/engine.ts): an edit applied to a shared text as one splice. */
module Splice {

  /** The text with `count` characters from `at` replaced by `ins`. */
  function Spliced(prev: string, at: nat, count: nat, ins: string): string
    requires at + count <= |prev|
  {
    prev[..at] + ins + prev[at + count..]
  }

  predicate Replaces(prev: string, at: nat, count: nat, ins: string, next: string) {
    at + count <= |prev| && Spliced(prev, at, count, ins) == next
  }

  predicate SamePrefix(a: string, b: string, n: nat) { n <= |a| && n <= |b| && a[..n] == b[..n] }

  predicate SameSuffix(a: string, b: string, n: nat) { n <= |a| && n <= |b| && a[|a| - n..] == b[|b| - n..] }

  /** Where the two loops stop: the longest common prefix, then the longest common suffix of the rest. */
  predicate Ends(prev: string, next: string, start: nat, tail: nat) {
    && SamePrefix(prev, next, start) && SameSuffix(prev, next, tail) && start + tail <= |prev| && start + tail <= |next|
    && (start < |prev| && start < |next| ==> prev[start] != next[start])
    && (start + tail < |prev| && start + tail < |next| ==> prev[|prev| - tail - 1] != next[|next| - tail - 1])
  }

  /** Among all single contiguous replacements that turn prev into next, the one between these ends deletes the fewest
      characters and inserts the fewest. */
  lemma SpliceIsMinimal(prev: string, next: string, start: nat, tail: nat, at: nat, count: nat, ins: string)
    requires Ends(prev, next, start, tail) && Replaces(prev, at, count, ins, next)
    ensures count >= |prev| - start - tail && |ins| >= |next| - start - tail
  {
    var keptTail := |prev| - at - count;
    assert prev[..at] == next[..at] && prev[at + count..] == next[|next| - keptTail..];
  }

  /** The collaborative text, as far as a local edit sees it. */
  class YText {
    var text: string
    /** The characters deleted and inserted so far. */
    var deleted: nat
    var inserted: nat

    constructor (text: string)
      ensures this.text == text && deleted == 0 && inserted == 0
    {
      this.text, deleted, inserted := text, 0, 0;
    }

    method Delete(at: nat, count: nat)
      requires at + count <= |text|
      modifies this
      ensures text == old(text)[..at] + old(text)[at + count..]
      ensures deleted == old(deleted) + count && inserted == old(inserted)
    {
      text, deleted := text[..at] + text[at + count..], deleted + count;
    }

    method Insert(at: nat, ins: string)
      requires at <= |text|
      modifies this
      ensures text == old(text)[..at] + ins + old(text)[at..]
      ensures inserted == old(inserted) + |ins| && deleted == old(deleted)
    {
      text, inserted := text[..at] + ins + text[at..], inserted + |ins|;
    }
  }

  /** The two scanning loops. */
  method FindEnds(prev: string, next: string) returns (start: nat, endPrev: nat, endNext: nat)
    ensures start <= endPrev <= |prev| && start <= endNext <= |next| && |prev| - endPrev == |next| - endNext
    ensures Ends(prev, next, start, |prev| - endPrev)
  {
    start := 0;
    while start < |prev| && start < |next| && prev[start] == next[start]
      invariant SamePrefix(prev, next, start)
    {
      start := start + 1;
    }
    endPrev, endNext := |prev|, |next|;
    while endPrev > start && endNext > start && prev[endPrev - 1] == next[endNext - 1]
      invariant start <= endPrev <= |prev| && start <= endNext <= |next| && |prev| - endPrev == |next| - endNext
      invariant SameSuffix(prev, next, |prev| - endPrev)
    {
      endPrev, endNext := endPrev - 1, endNext - 1;
    }
  }

  /** applyTextDiff: the text becomes `next`, and no single contiguous replacement doing so deletes or inserts fewer
      characters. */
  method ApplyTextDiff(ytext: YText, next: string)
    modifies ytext
    ensures ytext.text == next
    ensures ytext.deleted >= old(ytext.deleted) && ytext.inserted >= old(ytext.inserted)
    ensures forall at: nat, count: nat, ins :: Replaces(old(ytext.text), at, count, ins, next) ==>
              count >= ytext.deleted - old(ytext.deleted) && |ins| >= ytext.inserted - old(ytext.inserted)
  {
    var prev := ytext.text;
    if prev == next { return; }
    var start, endPrev, endNext := FindEnds(prev, next);
    if endPrev > start { ytext.Delete(start, endPrev - start); }
    assert ytext.text == prev[..start] + prev[endPrev..];
    if endNext > start { ytext.Insert(start, next[start..endNext]); }
    forall at: nat, count: nat, ins | Replaces(prev, at, count, ins, next)
      ensures count >= endPrev - start && |ins| >= endNext - start
    {
      SpliceIsMinimal(prev, next, start, |prev| - endPrev, at, count, ins);
    }
  }
}
