/** The two-party Double Ratchet session of packages/crypto/src/ratchet.ts.

    Key material is symbolic.  A key pair is named by a number, X25519 is the
    unordered pair of two names, and every HKDF or HMAC output is a constructor
    applied to its inputs.  What the session does with keys (which root, which
    chain, which counter, which cache entry) is exactly what the source does. */
module Ratchet {
  import opened Wrappers

  const MAX_SKIPPED_KEYS: nat := 50
  const MAX_SKIP_PER_STEP: nat := 500

  datatype Bytes =
    | PairingSecret(id: nat)
    | Shared(lo: nat, hi: nat)
    | SessionRoot(ikm: Bytes, salt: Bytes, workspace: nat, first: nat, second: nat)
    | DhRoot(ikm: Bytes, salt: Bytes)
    | DhChain(ikm: Bytes, salt: Bytes)
    | MessageKey(chain: Bytes)
    | NextChain(chain: Bytes)

  /** X25519: one's private half with the other's public half. */
  function Ecdh(mine: nat, theirs: nat): Bytes {
    if mine <= theirs then Shared(mine, theirs) else Shared(theirs, mine)
  }

  datatype SkippedKey = SkippedKey(pub: nat, number: nat, key: Bytes)
  datatype Header = Header(pub: nat, number: nat, previousLength: nat)

  /** The value of a session: the fields of the interface RatchetSession. */
  datatype Session = Session(
    rootKey: Bytes,
    myPair: nat,
    theirPub: nat,
    sendChain: Option<Bytes>,
    recvChain: Option<Bytes>,
    sendNumber: nat,
    recvNumber: nat,
    previousLength: nat,
    skipped: seq<SkippedKey>)

  /** What ratchetDecrypt hands back: a key, or one of its RatchetErrors. */
  datatype Outcome = Key(key: Bytes) | TooManySkipped | AlreadyConsumed

  // ---------------------------------------------------------------- specification

  function InitSession(secret: nat, workspace: nat, me: nat, myPair: nat, peer: nat, peerPub: nat): Session {
    Session(SessionRoot(Ecdh(myPair, peerPub), PairingSecret(secret), workspace,
                        if me <= peer then me else peer, if me <= peer then peer else me),
            myPair, peerPub, None, None, 0, 0, 0, [])
  }

  /** The chain key `n` symmetric steps after `chain`. */
  function ChainAt(chain: Bytes, n: nat): Bytes {
    if n == 0 then chain else NextChain(ChainAt(chain, n - 1))
  }

  /** The keys a receiver caches when it walks `count` steps past number `from`. */
  function Passed(chain: Bytes, pub: nat, from: nat, count: nat): seq<SkippedKey> {
    seq(count, i requires 0 <= i => SkippedKey(pub, from + i, MessageKey(ChainAt(chain, i))))
  }

  /** The cache keeps its newest MAX_SKIPPED_KEYS entries. */
  function Kept(cache: seq<SkippedKey>): (r: seq<SkippedKey>)
    ensures |r| <= MAX_SKIPPED_KEYS
  {
    if |cache| > MAX_SKIPPED_KEYS then cache[|cache| - MAX_SKIPPED_KEYS..] else cache
  }

  /** The cache after walking `count` steps. */
  function CacheAfter(cache: seq<SkippedKey>, chain: Bytes, pub: nat, from: nat, count: nat): seq<SkippedKey> {
    if count == 0 then cache else Kept(cache + Passed(chain, pub, from, count))
  }

  predicate Matches(e: SkippedKey, pub: nat, number: nat) { e.pub == pub && e.number == number }

  /** The position of the first cached key for this header, or the cache's length. */
  function CacheIndex(cache: seq<SkippedKey>, pub: nat, number: nat): (i: nat)
    ensures i <= |cache|
    ensures forall j :: 0 <= j < i ==> !Matches(cache[j], pub, number)
    ensures i < |cache| ==> Matches(cache[i], pub, number)
  {
    if cache == [] then 0
    else if Matches(cache[0], pub, number) then 0
    else 1 + CacheIndex(cache[1..], pub, number)
  }

  predicate Cached(s: Session, pub: nat, number: nat) { CacheIndex(s.skipped, pub, number) < |s.skipped| }

  predicate SkipTooFar(s: Session, upTo: nat) { s.recvChain.Some? && upTo - s.recvNumber > MAX_SKIP_PER_STEP }

  /** skipForward when it does not throw. */
  function SkipForward(s: Session, pub: nat, upTo: nat): Session {
    if s.recvChain.None? || upTo <= s.recvNumber then s
    else
      var count := upTo - s.recvNumber;
      s.(skipped := CacheAfter(s.skipped, s.recvChain.value, pub, s.recvNumber, count),
         recvChain := Some(ChainAt(s.recvChain.value, count)),
         recvNumber := upTo)
  }

  function Encrypt(s: Session): (Session, Header, Bytes) {
    var dh := Ecdh(s.myPair, s.theirPub);
    var t := if s.sendChain.Some? then s
             else s.(rootKey := DhRoot(dh, s.rootKey), sendChain := Some(DhChain(dh, s.rootKey)),
                     previousLength := s.sendNumber, sendNumber := 0);
    (t.(sendChain := Some(NextChain(t.sendChain.value)), sendNumber := t.sendNumber + 1),
     Header(t.myPair, t.sendNumber, t.previousLength),
     MessageKey(t.sendChain.value))
  }

  predicate NeedsStep(s: Session, h: Header) { h.pub != s.theirPub || s.recvChain.None? }

  /** The receiving DH step, after the old chain has been drained into the cache. */
  function DhReceive(s: Session, h: Header, newPair: nat): Session {
    var d := SkipForward(s, s.theirPub, h.previousLength);
    var dh := Ecdh(d.myPair, h.pub);
    d.(rootKey := DhRoot(dh, d.rootKey), recvChain := Some(DhChain(dh, d.rootKey)), recvNumber := 0,
       theirPub := h.pub, sendChain := None, myPair := newPair)
  }

  /** Everything after the DH step: reject a consumed number, skip, take one key. */
  function Receive(s: Session, h: Header): (Session, Outcome)
    requires s.recvChain.Some?
  {
    if h.number < s.recvNumber then (s, AlreadyConsumed)
    else if SkipTooFar(s, h.number) then (s, TooManySkipped)
    else
      var t := SkipForward(s, h.pub, h.number);
      (t.(recvChain := Some(NextChain(t.recvChain.value)), recvNumber := h.number + 1),
       Key(MessageKey(t.recvChain.value)))
  }

  /** ratchetDecrypt: the session afterwards (also when it throws) and the outcome. */
  function Decrypt(s: Session, h: Header, newPair: nat): (Session, Outcome) {
    var i := CacheIndex(s.skipped, h.pub, h.number);
    if i < |s.skipped| then (s.(skipped := s.skipped[..i] + s.skipped[i + 1..]), Key(s.skipped[i].key))
    else if !NeedsStep(s, h) then Receive(s, h)
    else if SkipTooFar(s, h.previousLength) then (s, TooManySkipped)
    else Receive(DhReceive(s, h, newPair), h)
  }

  /** Whether this header makes skipForward refuse: the only way a newPair header throws. */
  predicate LimitHit(s: Session, h: Header) {
    && !Cached(s, h.pub, h.number)
    && (if NeedsStep(s, h) then SkipTooFar(s, h.previousLength) || h.number > MAX_SKIP_PER_STEP
        else h.number - s.recvNumber > MAX_SKIP_PER_STEP)
  }

  lemma {:induction false} ChainAtSum(chain: Bytes, m: nat, n: nat)
    ensures ChainAt(ChainAt(chain, m), n) == ChainAt(chain, m + n)
  {
    if n > 0 { ChainAtSum(chain, m, n - 1); }
  }

  // ---------------------------------------------------------------- the mutable session

  /** The object the engine keeps per peer; its functions are the exported ones. */
  class RatchetSession {
    var rootKey: Bytes
    var myPair: nat
    var theirPub: nat
    var sendChain: Option<Bytes>
    var recvChain: Option<Bytes>
    var sendNumber: nat
    var recvNumber: nat
    var previousLength: nat
    var skippedKeys: seq<SkippedKey>

    function State(): Session
      reads this
    {
      Session(rootKey, myPair, theirPub, sendChain, recvChain, sendNumber, recvNumber, previousLength, skippedKeys)
    }

    constructor (secret: nat, workspace: nat, me: nat, pair: nat, peer: nat, peerPub: nat)
      ensures State() == InitSession(secret, workspace, me, pair, peer, peerPub)
    {
      rootKey := SessionRoot(Ecdh(pair, peerPub), PairingSecret(secret), workspace,
                             if me <= peer then me else peer, if me <= peer then peer else me);
      myPair, theirPub := pair, peerPub;
      sendChain, recvChain := None, None;
      sendNumber, recvNumber, previousLength := 0, 0, 0;
      skippedKeys := [];
    }

    method PushSkipped(entry: SkippedKey)
      modifies this`skippedKeys
      ensures skippedKeys == Kept(old(skippedKeys) + [entry])
      ensures if |old(skippedKeys)| < 50 then skippedKeys == old(skippedKeys) + [entry]
              else |skippedKeys| == 50 && skippedKeys <= old(skippedKeys)[|old(skippedKeys)| - 49..] + [entry]
    {
      skippedKeys := skippedKeys + [entry];
      ghost var all := skippedKeys;
      while |skippedKeys| > MAX_SKIPPED_KEYS
        invariant |skippedKeys| <= |all| && skippedKeys == all[|all| - |skippedKeys|..]
        invariant |all| >= MAX_SKIPPED_KEYS ==> |skippedKeys| >= MAX_SKIPPED_KEYS
        invariant |all| <= MAX_SKIPPED_KEYS ==> skippedKeys == all
      {
        skippedKeys := skippedKeys[1..];
      }
    }

    method TakeSkipped(pub: nat, number: nat) returns (found: Option<Bytes>)
      modifies this`skippedKeys
      ensures var i := CacheIndex(old(skippedKeys), pub, number);
              if i == |old(skippedKeys)| then found == None && skippedKeys == old(skippedKeys)
              else found == Some(old(skippedKeys)[i].key) &&
                   skippedKeys == old(skippedKeys)[..i] + old(skippedKeys)[i + 1..]
    {
      var i := CacheIndex(skippedKeys, pub, number);
      if i == |skippedKeys| { return None; }
      found := Some(skippedKeys[i].key);
      skippedKeys := skippedKeys[..i] + skippedKeys[i + 1..];
    }

    /** `ok` is false when the source throws; the session is then unchanged. */
    method SkipForwardTo(pub: nat, upTo: nat) returns (ok: bool)
      modifies this`skippedKeys, this`recvChain, this`recvNumber
      ensures ok <==> old(recvChain).None? || upTo <= old(recvNumber) + 500
      ensures ok == !SkipTooFar(old(State()), upTo)
      ensures State() == if ok then SkipForward(old(State()), pub, upTo) else old(State())
    {
      if recvChain.None? { return true; }
      if upTo <= recvNumber { return true; }
      var count := upTo - recvNumber;
      if count > MAX_SKIP_PER_STEP { return false; }
      ghost var chain, before, from := recvChain.value, skippedKeys, recvNumber;
      for i := 0 to count
        invariant recvChain == Some(ChainAt(chain, i)) && recvNumber == from
        invariant skippedKeys == CacheAfter(before, chain, pub, from, i)
      {
        PassedStep(before, chain, pub, from, i);
        PushSkipped(SkippedKey(pub, recvNumber + i, MessageKey(recvChain.value)));
        recvChain := Some(NextChain(recvChain.value));
      }
      recvNumber := upTo;
      return true;
    }

    method RatchetEncrypt() returns (header: Header, key: Bytes)
      modifies this
      ensures (State(), header, key) == Encrypt(old(State()))
      ensures header.pub == old(myPair) && sendNumber == header.number + 1 && previousLength == header.previousLength
      ensures if old(sendChain).Some?
              then header.number == old(sendNumber) && header.previousLength == old(previousLength)
                   && key == MessageKey(old(sendChain).value) && rootKey == old(rootKey)
              else header.number == 0 && header.previousLength == old(sendNumber)
    {
      if sendChain.None? {
        var dh := Ecdh(myPair, theirPub);
        sendChain := Some(DhChain(dh, rootKey));
        rootKey := DhRoot(dh, rootKey);
        previousLength := sendNumber;
        sendNumber := 0;
      }
      key := MessageKey(sendChain.value);
      header := Header(myPair, sendNumber, previousLength);
      sendChain := Some(NextChain(sendChain.value));
      sendNumber := sendNumber + 1;
    }

    /** The DH step inside ratchetDecrypt; `newPair` names the key pair generateRatchetKeyPair returns.
        `ok` is false when the drain of the old chain throws. */
    method StepReceiving(header: Header, newPair: nat) returns (ok: bool)
      modifies this
      ensures ok == !SkipTooFar(old(State()), header.previousLength)
      ensures State() == if ok then DhReceive(old(State()), header, newPair) else old(State())
    {
      if recvChain.Some? {
        var drained := SkipForwardTo(theirPub, header.previousLength);
        if !drained { return false; }
      }
      var dh := Ecdh(myPair, header.pub);
      recvChain := Some(DhChain(dh, rootKey));
      rootKey := DhRoot(dh, rootKey);
      recvNumber := 0;
      theirPub := header.pub;
      sendChain := None;
      myPair := newPair;
      return true;
    }

    method RatchetDecrypt(header: Header, newPair: nat) returns (outcome: Outcome)
      modifies this
      ensures (State(), outcome) == Decrypt(old(State()), header, newPair)
    {
      var cached := TakeSkipped(header.pub, header.number);
      if cached.Some? { return Key(cached.value); }
      if header.pub != theirPub || recvChain.None? {
        var stepped := StepReceiving(header, newPair);
        if !stepped { return TooManySkipped; }
      }
      if header.number < recvNumber { return AlreadyConsumed; }
      if header.number > recvNumber {
        var skippedOk := SkipForwardTo(header.pub, header.number);
        if !skippedOk { return TooManySkipped; }
      }
      outcome := Key(MessageKey(recvChain.value));
      recvChain := Some(NextChain(recvChain.value));
      recvNumber := header.number + 1;
    }
  }

  /** Pushing one more skipped key onto the capped cache is capping the longer list. */
  lemma PassedStep(cache: seq<SkippedKey>, chain: Bytes, pub: nat, from: nat, i: nat)
    ensures Kept(CacheAfter(cache, chain, pub, from, i) + [SkippedKey(pub, from + i, MessageKey(ChainAt(chain, i)))])
         == CacheAfter(cache, chain, pub, from, i + 1)
  {
    var more := cache + Passed(chain, pub, from, i);
    var e := SkippedKey(pub, from + i, MessageKey(ChainAt(chain, i)));
    assert cache + Passed(chain, pub, from, i + 1) == more + [e];
    KeptTwice(more, e);
    assert i == 0 ==> more == cache;
  }

  lemma KeptTwice(cache: seq<SkippedKey>, e: SkippedKey)
    ensures Kept(Kept(cache) + [e]) == Kept(cache + [e])
  {
    if |cache| > MAX_SKIPPED_KEYS {
      assert (Kept(cache) + [e])[1..] == (cache + [e])[|cache| + 1 - MAX_SKIPPED_KEYS..];
    }
  }
}
