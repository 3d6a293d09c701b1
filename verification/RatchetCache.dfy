/** Which skipped keys the cache of packages/crypto/src/ratchet.ts gives up: always the oldest.

    A key is older than another when its chain is older, or when it comes earlier on the same chain.
    The cache is in that order throughout every run, so dropping from its front drops the oldest. */
module RatchetCache {
  import opened Ratchet
  import opened RatchetKeys
  import opened RatchetRoots
  import opened Wrappers

  predicate Older(a: Bytes, b: Bytes) {
    Origin(a) < Origin(b) || (Origin(a) == Origin(b) && Hops(a) < Hops(b))
  }

  /** A sequence of cached keys, oldest first. */
  predicate OldestFirst(cache: seq<SkippedKey>) {
    forall i, j :: 0 <= i < j < |cache| ==> Older(cache[i].key, cache[j].key)
  }

  /** The cache is in order and the receiving chain has only newer keys to come. */
  predicate InOrder(s: Session) {
    && OldestFirst(s.skipped)
    && (forall e :: e in s.skipped ==> Origin(e.key) < Depth(s.rootKey))
    && (s.recvChain.Some? ==>
          Origin(s.recvChain.value) < Depth(s.rootKey) &&
          forall e :: e in s.skipped ==> Older(e.key, s.recvChain.value))
  }

  /** From `before` to `after`, keys went missing only for lack of room, and those that did are older
      than all that are left. */
  predicate DropsOldest(before: seq<SkippedKey>, after: seq<SkippedKey>) {
    forall e :: e in before && e !in after ==> |after| == 50 && forall f :: f in after ==> Older(e.key, f.key)
  }

  // ------------------------------------------------------------ one walk

  lemma PassedInOrder(chain: Bytes, pub: nat, from: nat, count: nat)
    ensures var walked := Passed(chain, pub, from, count);
            && OldestFirst(walked)
            && forall e :: e in walked ==>
                 Origin(e.key) == Origin(chain) && Hops(chain) <= Hops(e.key) < Hops(chain) + count
  {
    var walked := Passed(chain, pub, from, count);
    forall i | 0 <= i < count
      ensures Origin(walked[i].key) == Origin(chain) && Hops(walked[i].key) == Hops(chain) + i
    {
      ChainPlace(chain, i);
    }
  }

  lemma JoinInOrder(a: seq<SkippedKey>, b: seq<SkippedKey>)
    requires OldestFirst(a) && OldestFirst(b) && forall x, y :: x in a && y in b ==> Older(x.key, y.key)
    ensures OldestFirst(a + b)
  {
    var c := a + b;
    forall i, j | 0 <= i < j < |c| ensures Older(c[i].key, c[j].key) {
      if i < |a| <= j { assert a[i] in a && b[j - |a|] in b; }
    }
  }

  /** Capping an ordered list drops its oldest entries. */
  lemma CapDropsOldest(cache: seq<SkippedKey>)
    requires OldestFirst(cache)
    ensures OldestFirst(Kept(cache)) && DropsOldest(cache, Kept(cache))
    ensures forall e :: e in Kept(cache) ==> e in cache
    ensures |cache| <= 50 ==> Kept(cache) == cache
    ensures |cache| >= 50 ==> |Kept(cache)| == 50
  {
    var kept := Kept(cache);
    var gone := |cache| - |kept|;
    assert forall j :: 0 <= j < |kept| ==> kept[j] == cache[gone + j];
    assert forall j :: gone <= j < |cache| ==> cache[j] == kept[j - gone];
    forall e | e in cache && e !in kept
      ensures |kept| == 50 && forall f :: f in kept ==> Older(e.key, f.key)
    {
      var i :| 0 <= i < |cache| && cache[i] == e;
      assert i < gone;
    }
  }

  lemma DropsTwice(a: seq<SkippedKey>, b: seq<SkippedKey>, c: seq<SkippedKey>)
    requires DropsOldest(a, b) && DropsOldest(b, c) && (|b| == 50 ==> |c| == 50)
    requires forall f :: f in c ==> f in b || forall e :: e in a ==> Older(e.key, f.key)
    ensures DropsOldest(a, c)
  {
  }

  /** One walk: whatever was cached or passed and is not in the cache afterwards was dropped as the oldest. */
  lemma WalkDropsOldest(s: Session, pub: nat, upTo: nat)
    requires InOrder(s)
    ensures var t := SkipForward(s, pub, upTo);
            && InOrder(t) && DropsOldest(s.skipped, t.skipped) && (|s.skipped| == 50 ==> |t.skipped| == 50)
            && forall f :: f in t.skipped ==> f in s.skipped || forall e :: e in s.skipped ==> Older(e.key, f.key)
    ensures s.recvChain.Some? && s.recvNumber < upTo ==>
              var all := s.skipped + Passed(s.recvChain.value, pub, s.recvNumber, upTo - s.recvNumber);
              DropsOldest(all, SkipForward(s, pub, upTo).skipped)
  {
    if s.recvChain.Some? && s.recvNumber < upTo {
      var chain, count := s.recvChain.value, upTo - s.recvNumber;
      var walked := Passed(chain, pub, s.recvNumber, count);
      var all := s.skipped + walked;
      PassedInOrder(chain, pub, s.recvNumber, count);
      JoinInOrder(s.skipped, walked);
      CapDropsOldest(all);
      ChainPlace(chain, count);
      assert forall e :: e in s.skipped ==> e in all;
    }
  }

  // ------------------------------------------------------------ every call

  lemma ReceiveDropsOldest(s: Session, h: Header)
    requires InOrder(s) && s.recvChain.Some?
    ensures var t := Receive(s, h).0;
            && InOrder(t) && DropsOldest(s.skipped, t.skipped) && (|s.skipped| == 50 ==> |t.skipped| == 50)
            && forall f :: f in t.skipped ==> f in s.skipped || forall e :: e in s.skipped ==> Older(e.key, f.key)
  {
    if s.recvNumber <= h.number && !SkipTooFar(s, h.number) {
      WalkDropsOldest(s, h.pub, h.number);
      var walked := SkipForward(s, h.pub, h.number);
      assert Receive(s, h).0.skipped == walked.skipped;
    }
  }

  lemma StepDropsOldest(s: Session, h: Header, newPair: nat)
    requires InOrder(s)
    ensures var t := DhReceive(s, h, newPair);
            && InOrder(t) && DropsOldest(s.skipped, t.skipped) && (|s.skipped| == 50 ==> |t.skipped| == 50)
            && forall f :: f in t.skipped ==> f in s.skipped || forall e :: e in s.skipped ==> Older(e.key, f.key)
  {
    WalkDropsOldest(s, s.theirPub, h.previousLength);
    assert DhReceive(s, h, newPair).skipped == SkipForward(s, s.theirPub, h.previousLength).skipped;
  }

  lemma TakeInOrder(s: Session, i: nat)
    requires InOrder(s) && i < |s.skipped|
    ensures InOrder(s.(skipped := s.skipped[..i] + s.skipped[i + 1..]))
    ensures forall e :: e in s.skipped ==> e in s.skipped[..i] + s.skipped[i + 1..] || e == s.skipped[i]
  {
    var rest := s.skipped[..i] + s.skipped[i + 1..];
    assert forall j :: 0 <= j < |rest| ==> rest[j] == s.skipped[if j < i then j else j + 1];
    forall e | e in s.skipped ensures e in rest || e == s.skipped[i] {
      var j :| 0 <= j < |s.skipped| && s.skipped[j] == e;
      if j != i { assert rest[if j < i then j else j - 1] == e; }
    }
  }

  /** Whatever header comes, a cached key that goes missing without having been yielded was dropped for
      lack of room, and every key that is left is newer. */
  lemma EvictsOldest(s: Session, h: Header, newPair: nat)
    requires InOrder(s)
    ensures var (t, o) := Decrypt(s, h, newPair);
            && InOrder(t)
            && forall e :: e in s.skipped && e !in t.skipped && o != Key(e.key) ==>
                 |t.skipped| == 50 && forall f :: f in t.skipped ==> Older(e.key, f.key)
  {
    var i := CacheIndex(s.skipped, h.pub, h.number);
    if i < |s.skipped| {
      TakeInOrder(s, i);
    } else if !NeedsStep(s, h) {
      ReceiveDropsOldest(s, h);
    } else if !SkipTooFar(s, h.previousLength) {
      var d := DhReceive(s, h, newPair);
      StepDropsOldest(s, h, newPair);
      ReceiveDropsOldest(d, h);
      OlderChains(s, d, Receive(d, h).0);
      DropsTwice(s.skipped, d.skipped, Receive(d, h).0.skipped);
    }
  }

  /** What is newer than all of the cache in between is newer than what that one had already dropped. */
  lemma OlderChains(s: Session, d: Session, t: Session)
    requires DropsOldest(s.skipped, d.skipped)
    requires forall f :: f in t.skipped ==> f in d.skipped || forall e :: e in d.skipped ==> Older(e.key, f.key)
    ensures forall f :: f in t.skipped ==> f in d.skipped || forall e :: e in s.skipped ==> Older(e.key, f.key)
  {
    forall f, e | f in t.skipped && f !in d.skipped && e in s.skipped ensures Older(e.key, f.key) {
      if e !in d.skipped { assert d.skipped[0] in d.skipped; }
    }
  }

  // ------------------------------------------------------------ every run

  lemma {:induction false} RunInOrder(s: Session, calls: seq<Call>)
    requires InOrder(s)
    ensures InOrder(RatchetRoots.After(s, calls))
    decreases |calls|
  {
    if calls != [] {
      if calls[0].Open? { EvictsOldest(s, calls[0].header, calls[0].newPair); }
      RunInOrder(RatchetKeys.Step(s, calls[0]).0, calls[1..]);
    }
  }

  /** In every session, whatever it has sent and been fed: a cached key is lost only when 50 newer ones are kept. */
  lemma OnlyOldestLost(secret: nat, workspace: nat, me: nat, myPair: nat, peer: nat, peerPub: nat,
                       calls: seq<Call>, h: Header, newPair: nat)
    ensures var s := RatchetRoots.After(InitSession(secret, workspace, me, myPair, peer, peerPub), calls);
            var (t, o) := Decrypt(s, h, newPair);
              forall e :: e in s.skipped && e !in t.skipped && o != Key(e.key) ==>
                |t.skipped| == 50 && forall f :: f in t.skipped ==> Older(e.key, f.key)
  {
    var start := InitSession(secret, workspace, me, myPair, peer, peerPub);
    RunInOrder(start, calls);
    EvictsOldest(RatchetRoots.After(start, calls), h, newPair);
  }
}
