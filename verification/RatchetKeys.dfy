/** No message key is used twice.  One session of packages/crypto/src/ratchet.ts, fed any headers
    whatever: forged, repeated, out of order or past the limits.

    A key is placed by the depth of the root its chain came from and by its distance along that chain.
    Roots only get deeper and chains only move on, so a key once used is behind the session for good. */
module RatchetKeys {
  import opened Ratchet
  import opened Wrappers

  // ------------------------------------------------------------ where a key stands

  function Depth(root: Bytes): nat {
    match root
    case DhRoot(_, salt) => 1 + Depth(salt)
    case _ => 0
  }

  /** The depth of the root that a chain, or a key of it, was derived from. */
  function Origin(b: Bytes): nat {
    match b
    case DhChain(_, salt) => Depth(salt)
    case NextChain(chain) => Origin(chain)
    case MessageKey(chain) => Origin(chain)
    case _ => 0
  }

  /** How far along its chain. */
  function Hops(b: Bytes): nat {
    match b
    case NextChain(chain) => 1 + Hops(chain)
    case MessageKey(chain) => Hops(chain)
    case _ => 0
  }

  lemma {:induction false} ChainPlace(chain: Bytes, n: nat)
    ensures Origin(ChainAt(chain, n)) == Origin(chain) && Hops(ChainAt(chain, n)) == Hops(chain) + n
  {
    if n > 0 { ChainPlace(chain, n - 1); }
  }

  /** The chain has yet to reach this key. */
  predicate Ahead(chain: Option<Bytes>, key: Bytes) {
    chain.Some? && Origin(key) == Origin(chain.value) && Hops(chain.value) <= Hops(key)
  }

  // ------------------------------------------------------------ the invariant

  predicate InCache(cache: seq<SkippedKey>, key: Bytes) { exists e :: e in cache && e.key == key }

  predicate Distinct(cache: seq<SkippedKey>) { forall i, j :: 0 <= i < j < |cache| ==> cache[i].key != cache[j].key }

  /** A key that no chain will reach again. */
  predicate Behind(s: Session, key: Bytes) {
    Origin(key) < Depth(s.rootKey) && !Ahead(s.sendChain, key) && !Ahead(s.recvChain, key)
  }

  /** A key that has been used: the session can never produce it again. */
  predicate Used(s: Session, key: Bytes) { Behind(s, key) && !InCache(s.skipped, key) }

  predicate CacheOk(s: Session) {
    && Distinct(s.skipped)
    && forall e :: e in s.skipped ==> Behind(s, e.key) && NotSending(s, e.key)
  }

  predicate NotSending(s: Session, key: Bytes) { s.sendChain.Some? ==> Origin(key) != Origin(s.sendChain.value) }

  predicate SessionOk(s: Session) {
    && (s.sendChain.Some? ==> Origin(s.sendChain.value) < Depth(s.rootKey))
    && (s.recvChain.Some? ==> Origin(s.recvChain.value) < Depth(s.rootKey))
    && (s.sendChain.Some? && s.recvChain.Some? ==> Origin(s.sendChain.value) != Origin(s.recvChain.value))
    && CacheOk(s)
  }

  // ------------------------------------------------------------ one call

  lemma EncryptUses(s: Session, spent: Bytes)
    requires SessionOk(s)
    ensures SessionOk(Encrypt(s).0) && Used(Encrypt(s).0, Encrypt(s).2)
    ensures Used(s, spent) ==> Used(Encrypt(s).0, spent) && Encrypt(s).2 != spent
  {
    var chain := if s.sendChain.Some? then s.sendChain.value else DhChain(Ecdh(s.myPair, s.theirPub), s.rootKey);
    assert Origin(MessageKey(chain)) == Origin(chain) && Hops(MessageKey(chain)) == Hops(chain);
  }

  /** The keys passed on a walk stand one after the other on the chain. */
  lemma PassedPlaces(chain: Bytes, pub: nat, from: nat, count: nat)
    ensures Distinct(Passed(chain, pub, from, count))
    ensures forall e :: e in Passed(chain, pub, from, count) ==>
              Origin(e.key) == Origin(chain) && Hops(chain) <= Hops(e.key) < Hops(chain) + count
  {
    var walked := Passed(chain, pub, from, count);
    forall i | 0 <= i < count
      ensures Origin(walked[i].key) == Origin(chain) && Hops(walked[i].key) == Hops(chain) + i
    {
      ChainPlace(chain, i);
    }
  }

  lemma DistinctAppend(a: seq<SkippedKey>, b: seq<SkippedKey>)
    requires Distinct(a) && Distinct(b) && forall x, y :: x in a && y in b ==> x.key != y.key
    ensures Distinct(a + b)
  {
    var c := a + b;
    forall i, j | 0 <= i < j < |c| ensures c[i].key != c[j].key {
      if i < |a| <= j { assert a[i] in a && b[j - |a|] in b; }
    }
  }

  lemma KeptDistinct(cache: seq<SkippedKey>)
    requires Distinct(cache)
    ensures Distinct(Kept(cache)) && forall e :: e in Kept(cache) ==> e in cache
  {
  }

  /** What walking the receiving chain leaves in the cache. */
  lemma WalkedCache(cache: seq<SkippedKey>, chain: Bytes, pub: nat, from: nat, count: nat)
    requires Distinct(cache) && forall e :: e in cache ==> !Ahead(Some(chain), e.key)
    ensures Distinct(CacheAfter(cache, chain, pub, from, count))
    ensures forall e :: e in CacheAfter(cache, chain, pub, from, count) ==>
              e in cache || (Origin(e.key) == Origin(chain) && Hops(chain) <= Hops(e.key) < Hops(chain) + count)
  {
    PassedPlaces(chain, pub, from, count);
    DistinctAppend(cache, Passed(chain, pub, from, count));
    KeptDistinct(cache + Passed(chain, pub, from, count));
  }

  lemma SkipKeeps(s: Session, pub: nat, upTo: nat, spent: Bytes)
    requires SessionOk(s)
    ensures SessionOk(SkipForward(s, pub, upTo))
    ensures Used(s, spent) ==> Used(SkipForward(s, pub, upTo), spent)
  {
    if s.recvChain.Some? && s.recvNumber < upTo {
      var t, count := SkipForward(s, pub, upTo), upTo - s.recvNumber;
      WalkedCache(s.skipped, s.recvChain.value, pub, s.recvNumber, count);
      ChainPlace(s.recvChain.value, count);
      forall e | e in t.skipped
        ensures Behind(t, e.key) && NotSending(t, e.key)
        ensures e.key == spent ==> InCache(s.skipped, spent) || Ahead(s.recvChain, spent)
      {
        if e !in s.skipped { assert Origin(e.key) == Origin(s.recvChain.value); }
      }
    }
  }

  lemma ReceiveUses(s: Session, h: Header, spent: Bytes)
    requires SessionOk(s) && s.recvChain.Some?
    ensures var (t, o) := Receive(s, h);
            && SessionOk(t) && (Used(s, spent) ==> Used(t, spent) && o != Key(spent))
            && (o.Key? ==> Used(t, o.key))
  {
    if s.recvNumber <= h.number && !SkipTooFar(s, h.number) { SkipKeeps(s, h.pub, h.number, spent); }
  }

  lemma StepKeeps(s: Session, h: Header, newPair: nat, spent: Bytes)
    requires SessionOk(s)
    ensures SessionOk(DhReceive(s, h, newPair)) && (Used(s, spent) ==> Used(DhReceive(s, h, newPair), spent))
  {
    SkipKeeps(s, s.theirPub, h.previousLength, spent);
  }

  lemma TakenDistinct(cache: seq<SkippedKey>, i: nat)
    requires Distinct(cache) && i < |cache|
    ensures var rest := cache[..i] + cache[i + 1..];
            Distinct(rest) && forall e :: e in rest ==> e in cache && e.key != cache[i].key
  {
    var rest := cache[..i] + cache[i + 1..];
    assert forall j :: 0 <= j < |rest| ==> rest[j] == cache[if j < i then j else j + 1];
  }

  lemma TakeUses(s: Session, i: nat, spent: Bytes)
    requires SessionOk(s) && i < |s.skipped|
    ensures var t := s.(skipped := s.skipped[..i] + s.skipped[i + 1..]);
            && SessionOk(t) && (Used(s, spent) ==> Used(t, spent) && s.skipped[i].key != spent) &&
              Used(t, s.skipped[i].key)
  {
    TakenDistinct(s.skipped, i);
    assert s.skipped[i] in s.skipped;
  }

  /** Whatever header comes, a used key stays used and is not yielded, and a yielded key is used from then on. */
  lemma DecryptUses(s: Session, h: Header, newPair: nat, spent: Bytes)
    requires SessionOk(s)
    ensures var (t, o) := Decrypt(s, h, newPair);
            && SessionOk(t) && (Used(s, spent) ==> Used(t, spent) && o != Key(spent))
            && (o.Key? ==> Used(t, o.key))
  {
    var i := CacheIndex(s.skipped, h.pub, h.number);
    if i < |s.skipped| {
      TakeUses(s, i, spent);
    } else if !NeedsStep(s, h) {
      ReceiveUses(s, h, spent);
    } else if !SkipTooFar(s, h.previousLength) {
      StepKeeps(s, h, newPair, spent);
      ReceiveUses(DhReceive(s, h, newPair), h, spent);
    }
  }

  // ------------------------------------------------------------ every run

  datatype Call = Seal | Open(header: Header, newPair: nat)

  /** The session after one call, and the key the call used if it did not throw. */
  function Step(s: Session, call: Call): (Session, Option<Bytes>) {
    match call
    case Seal => (Encrypt(s).0, Some(Encrypt(s).2))
    case Open(h, newPair) =>
      (Decrypt(s, h, newPair).0, if Decrypt(s, h, newPair).1.Key? then Some(Decrypt(s, h, newPair).1.key) else None)
  }

  /** The keys used by a run of calls, in order. */
  function KeysOf(s: Session, calls: seq<Call>): seq<Bytes>
    decreases |calls|
  {
    if calls == [] then []
    else
      var (t, key) := Step(s, calls[0]);
      (if key.Some? then [key.value] else []) + KeysOf(t, calls[1..])
  }

  lemma StepUses(s: Session, call: Call, spent: Bytes)
    requires SessionOk(s)
    ensures var (t, key) := Step(s, call);
            && SessionOk(t) && (Used(s, spent) ==> Used(t, spent) && key != Some(spent))
            && (key.Some? ==> Used(t, key.value))
  {
    match call
    case Seal => EncryptUses(s, spent);
    case Open(h, newPair) => DecryptUses(s, h, newPair, spent);
  }

  lemma {:induction false} UsedStaysOut(s: Session, calls: seq<Call>, spent: Bytes)
    requires SessionOk(s) && Used(s, spent)
    ensures spent !in KeysOf(s, calls)
    decreases |calls|
  {
    if calls != [] {
      StepUses(s, calls[0], spent);
      UsedStaysOut(Step(s, calls[0]).0, calls[1..], spent);
    }
  }

  lemma {:induction false} RunUsesOnce(s: Session, calls: seq<Call>)
    requires SessionOk(s)
    ensures forall i, j :: 0 <= i < j < |KeysOf(s, calls)| ==> KeysOf(s, calls)[i] != KeysOf(s, calls)[j]
    decreases |calls|
  {
    if calls != [] {
      var (t, key) := Step(s, calls[0]);
      var rest := KeysOf(t, calls[1..]);
      StepUses(s, calls[0], s.rootKey);
      RunUsesOnce(t, calls[1..]);
      if key.Some? {
        UsedStaysOut(t, calls[1..], key.value);
        forall j | 0 <= j < |rest| ensures rest[j] != key.value {}
      }
    }
  }

  /** Every session: over any sequence of sends and receipts of any headers, no two calls use the same
      message key, whether to seal or to open. */
  lemma KeysUsedOnce(secret: nat, workspace: nat, me: nat, myPair: nat, peer: nat, peerPub: nat, calls: seq<Call>)
    ensures var keys := KeysOf(InitSession(secret, workspace, me, myPair, peer, peerPub), calls);
            forall i, j :: 0 <= i < j < |keys| ==> keys[i] != keys[j]
  {
    RunUsesOnce(InitSession(secret, workspace, me, myPair, peer, peerPub), calls);
  }
}
