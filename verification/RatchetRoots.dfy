/** What the keys of a session depend on: packages/crypto/src/ratchet.ts.

    Every chain is derived together with a root, and every root from the root before it, so a message
    key belongs to one line of roots down to the first one.  Sessions whose roots part have no key in
    common from there on, whichever headers they are fed: sessions of different pairings from the
    start, and a session and a copy of it once one of them has stepped with another key pair. */
module RatchetRoots {
  import opened Ratchet
  import opened RatchetKeys
  import opened Wrappers

  // ------------------------------------------------------------ where a key comes from

  /** The root derived in the same step as the chain of this key; a root stands for itself. */
  function Line(b: Bytes): Bytes {
    match b
    case DhChain(ikm, salt) => DhRoot(ikm, salt)
    case NextChain(chain) => Line(chain)
    case MessageKey(chain) => Line(chain)
    case _ => b
  }

  /** Whether `root` was derived from `from`, in any number of steps. */
  predicate Derives(from: Bytes, root: Bytes) {
    from == root || (root.DhRoot? && Derives(from, root.salt))
  }

  lemma {:induction false} DerivesTrans(a: Bytes, b: Bytes, c: Bytes)
    requires Derives(a, b) && Derives(b, c)
    ensures Derives(a, c)
  {
    if b != c { DerivesTrans(a, b, c.salt); }
  }

  lemma {:induction false} DerivesDepth(a: Bytes, b: Bytes)
    requires Derives(a, b)
    ensures Depth(a) <= Depth(b) && (Depth(a) == Depth(b) ==> a == b)
  {
    if a != b { DerivesDepth(a, b.salt); }
  }

  /** Two roots on one line: the deeper was derived from the other. */
  lemma {:induction false} OneLine(a: Bytes, b: Bytes, root: Bytes)
    requires Derives(a, root) && Derives(b, root) && Depth(a) <= Depth(b)
    ensures Derives(a, b)
  {
    if b == root {
    } else if a == root {
      DerivesDepth(b, root.salt);
    } else {
      OneLine(a, b, root.salt);
    }
  }

  lemma {:induction false} LineOfChain(chain: Bytes, n: nat)
    ensures Line(ChainAt(chain, n)) == Line(chain)
  {
    if n > 0 { LineOfChain(chain, n - 1); }
  }

  // ------------------------------------------------------------ the invariant

  /** This chain or key was derived on the way to the session's root. */
  predicate OnLine(root: Bytes, b: Bytes) { Derives(Line(b), root) }

  /** Everything the session holds was derived on the way to its root. */
  predicate Rooted(s: Session) {
    && (s.sendChain.Some? ==> OnLine(s.rootKey, s.sendChain.value))
    && (s.recvChain.Some? ==> OnLine(s.rootKey, s.recvChain.value))
    && forall e :: e in s.skipped ==> OnLine(s.rootKey, e.key)
  }

  lemma EncryptRooted(s: Session)
    requires Rooted(s)
    ensures Rooted(Encrypt(s).0) && Derives(s.rootKey, Encrypt(s).0.rootKey)
    ensures OnLine(Encrypt(s).0.rootKey, Encrypt(s).2)
  {
    assert Derives(s.rootKey, s.rootKey);
    assert s.sendChain.None? ==> Line(DhChain(Ecdh(s.myPair, s.theirPub), s.rootKey)) == Encrypt(s).0.rootKey;
  }

  lemma WalkRooted(cache: seq<SkippedKey>, chain: Bytes, pub: nat, from: nat, count: nat, root: Bytes)
    requires OnLine(root, chain) && forall e :: e in cache ==> OnLine(root, e.key)
    ensures forall e :: e in CacheAfter(cache, chain, pub, from, count) ==> OnLine(root, e.key)
  {
    var walked := Passed(chain, pub, from, count);
    forall i | 0 <= i < count ensures OnLine(root, walked[i].key) { LineOfChain(chain, i); }
    KeptWithin(cache + walked);
  }

  lemma KeptWithin(cache: seq<SkippedKey>)
    ensures forall e :: e in Kept(cache) ==> e in cache
  {
  }

  lemma SkipRooted(s: Session, pub: nat, upTo: nat)
    requires Rooted(s)
    ensures Rooted(SkipForward(s, pub, upTo)) && SkipForward(s, pub, upTo).rootKey == s.rootKey
  {
    if s.recvChain.Some? && s.recvNumber < upTo {
      WalkRooted(s.skipped, s.recvChain.value, pub, s.recvNumber, upTo - s.recvNumber, s.rootKey);
      LineOfChain(s.recvChain.value, upTo - s.recvNumber);
    }
  }

  lemma StepRooted(s: Session, h: Header, newPair: nat)
    requires Rooted(s)
    ensures Rooted(DhReceive(s, h, newPair)) && Derives(s.rootKey, DhReceive(s, h, newPair).rootKey)
  {
    SkipRooted(s, s.theirPub, h.previousLength);
    var dh := Ecdh(s.myPair, h.pub);
    assert Derives(s.rootKey, s.rootKey) && Derives(s.rootKey, DhRoot(dh, s.rootKey));
    assert Line(DhChain(dh, s.rootKey)) == DhRoot(dh, s.rootKey);
  }

  lemma ReceiveRooted(s: Session, h: Header)
    requires Rooted(s) && s.recvChain.Some?
    ensures var (t, o) := Receive(s, h);
            Rooted(t) && t.rootKey == s.rootKey && (o.Key? ==> OnLine(s.rootKey, o.key))
  {
    if s.recvNumber <= h.number && !SkipTooFar(s, h.number) { SkipRooted(s, h.pub, h.number); }
  }

  lemma DecryptRooted(s: Session, h: Header, newPair: nat)
    requires Rooted(s)
    ensures var (t, o) := Decrypt(s, h, newPair);
            Rooted(t) && Derives(s.rootKey, t.rootKey) && (o.Key? ==> OnLine(t.rootKey, o.key))
  {
    assert Derives(s.rootKey, s.rootKey);
    var i := CacheIndex(s.skipped, h.pub, h.number);
    if i < |s.skipped| {
      assert s.skipped[i] in s.skipped;
    } else if !NeedsStep(s, h) {
      ReceiveRooted(s, h);
    } else if !SkipTooFar(s, h.previousLength) {
      StepRooted(s, h, newPair);
      ReceiveRooted(DhReceive(s, h, newPair), h);
    }
  }

  // ------------------------------------------------------------ every run

  /** The session after a run of calls. */
  function After(s: Session, calls: seq<Call>): Session
    decreases |calls|
  {
    if calls == [] then s else After(RatchetKeys.Step(s, calls[0]).0, calls[1..])
  }

  lemma CallRooted(s: Session, call: Call)
    requires Rooted(s)
    ensures var (t, key) := RatchetKeys.Step(s, call);
            Rooted(t) && Derives(s.rootKey, t.rootKey) && (key.Some? ==> OnLine(t.rootKey, key.value))
  {
    match call
    case Seal => EncryptRooted(s);
    case Open(h, newPair) => DecryptRooted(s, h, newPair);
  }

  lemma {:induction false} RunRooted(s: Session, calls: seq<Call>)
    requires Rooted(s)
    ensures Rooted(After(s, calls)) && Derives(s.rootKey, After(s, calls).rootKey)
    ensures forall key :: key in KeysOf(s, calls) ==> OnLine(After(s, calls).rootKey, key)
    decreases |calls|
  {
    if calls == [] {
      assert Derives(s.rootKey, s.rootKey);
    } else {
      var (t, key) := RatchetKeys.Step(s, calls[0]);
      CallRooted(s, calls[0]);
      RunRooted(t, calls[1..]);
      DerivesTrans(s.rootKey, t.rootKey, After(s, calls).rootKey);
      if key.Some? { DerivesTrans(Line(key.value), t.rootKey, After(s, calls).rootKey); }
    }
  }

  /** Once the roots of two sessions have parted, whatever the two then do, a key used by both comes
      from before they parted. */
  lemma PartedForGood(s: Session, t: Session, ours: seq<Call>, theirs: seq<Call>, key: Bytes)
    requires Rooted(s) && Rooted(t) && Depth(s.rootKey) == Depth(t.rootKey) && s.rootKey != t.rootKey
    requires key in KeysOf(s, ours) && key in KeysOf(t, theirs)
    ensures Depth(Line(key)) < Depth(s.rootKey)
  {
    RunRooted(s, ours);
    RunRooted(t, theirs);
    if Depth(s.rootKey) <= Depth(Line(key)) {
      OneLine(s.rootKey, Line(key), After(s, ours).rootKey);
      OneLine(t.rootKey, Line(key), After(t, theirs).rootKey);
      OneLine(s.rootKey, t.rootKey, Line(key));
      DerivesDepth(s.rootKey, t.rootKey);
    }
  }

  // ------------------------------------------------------------ what the first root depends on

  /** Two devices, or two key pairs, whichever of the two is named first. */
  predicate SamePair(a: nat, b: nat, c: nat, d: nat) { (a == c && b == d) || (a == d && b == c) }

  /** Two sessions start from one root exactly when pairing secret, workspace, the two devices and the
      two identity key pairs are the same. */
  lemma SameRootIff(secret: nat, workspace: nat, me: nat, myPair: nat, peer: nat, peerPub: nat,
                    secret': nat, workspace': nat, me': nat, myPair': nat, peer': nat, peerPub': nat)
    ensures InitSession(secret, workspace, me, myPair, peer, peerPub).rootKey
            == InitSession(secret', workspace', me', myPair', peer', peerPub').rootKey
            <==> secret == secret' && workspace == workspace'
                 && SamePair(me, peer, me', peer') && SamePair(myPair, peerPub, myPair', peerPub')
  {
    var root := InitSession(secret, workspace, me, myPair, peer, peerPub).rootKey;
    var root' := InitSession(secret', workspace', me', myPair', peer', peerPub').rootKey;
    assert root.SessionRoot? && root'.SessionRoot?;
  }

  /** Sessions of different pairings, of different workspaces, of other devices or with other identity
      keys never use a common key, whatever they send and whatever headers they are fed. */
  lemma PairingsApart(secret: nat, workspace: nat, me: nat, myPair: nat, peer: nat, peerPub: nat,
                      secret': nat, workspace': nat, me': nat, myPair': nat, peer': nat, peerPub': nat,
                      ours: seq<Call>, theirs: seq<Call>)
    requires secret != secret' || workspace != workspace'
             || !SamePair(me, peer, me', peer') || !SamePair(myPair, peerPub, myPair', peerPub')
    ensures var keys := KeysOf(InitSession(secret, workspace, me, myPair, peer, peerPub), ours);
            var keys' := KeysOf(InitSession(secret', workspace', me', myPair', peer', peerPub'), theirs);
              forall key :: key in keys ==> key !in keys'
  {
    var s := InitSession(secret, workspace, me, myPair, peer, peerPub);
    var t := InitSession(secret', workspace', me', myPair', peer', peerPub');
    SameRootIff(secret, workspace, me, myPair, peer, peerPub,
                secret', workspace', me', myPair', peer', peerPub');
    forall key | key in KeysOf(s, ours) && key in KeysOf(t, theirs) ensures false {
      PartedForGood(s, t, ours, theirs, key);
    }
  }

  lemma {:induction false} LastCall(s: Session, calls: seq<Call>, call: Call)
    requires RatchetKeys.Step(After(s, calls), call).1.Some?
    ensures RatchetKeys.Step(After(s, calls), call).1.value in KeysOf(s, calls + [call])
    decreases |calls|
  {
    if calls == [] {
      assert calls + [call] == [call];
      assert KeysOf(RatchetKeys.Step(s, call).0, []) == [];
    } else {
      assert (calls + [call])[1..] == calls[1..] + [call];
      LastCall(RatchetKeys.Step(s, calls[0]).0, calls[1..], call);
    }
  }

  /** A header sealed under one pairing is never opened with its sender's key by a session of another
      secret or another workspace, however far the two have run. */
  lemma OtherPairingNeverOpens(secret: nat, workspace: nat, me: nat, myPair: nat, peer: nat, peerPub: nat,
                               secret': nat, workspace': nat, me': nat, myPair': nat, peer': nat, peerPub': nat,
                               ours: seq<Call>, theirs: seq<Call>, header: Header, newPair: nat)
    requires secret != secret' || workspace != workspace'
    ensures var sender := After(InitSession(secret, workspace, me, myPair, peer, peerPub), ours);
            var other := After(InitSession(secret', workspace', me', myPair', peer', peerPub'), theirs);
              Decrypt(other, header, newPair).1 != Key(Encrypt(sender).2)
  {
    var s := InitSession(secret, workspace, me, myPair, peer, peerPub);
    var t := InitSession(secret', workspace', me', myPair', peer', peerPub');
    LastCall(s, ours, Seal);
    if Decrypt(After(t, theirs), header, newPair).1.Key? { LastCall(t, theirs, Open(header, newPair)); }
    PairingsApart(secret, workspace, me, myPair, peer, peerPub, secret', workspace', me', myPair', peer', peerPub',
                  ours + [Seal], theirs + [Open(header, newPair)]);
  }

  // ------------------------------------------------------------ what a step depends on

  /** The first message after a receipt: two sessions seal it with the same key exactly when their roots
      are the same and they agree from the same two key pairs. */
  lemma SameSealIff(s: Session, t: Session)
    requires s.sendChain.None? && t.sendChain.None?
    ensures Encrypt(s).2 == Encrypt(t).2
            <==> s.rootKey == t.rootKey && SamePair(s.myPair, s.theirPub, t.myPair, t.theirPub)
    ensures Encrypt(s).0.rootKey == Encrypt(t).0.rootKey
            <==> s.rootKey == t.rootKey && SamePair(s.myPair, s.theirPub, t.myPair, t.theirPub)
  {
    assert Encrypt(s).2.chain.DhChain? && Encrypt(t).2.chain.DhChain?;
  }

  /** The same for the step that a header with a new public key causes. */
  lemma SameStepIff(s: Session, h: Header, newPair: nat, t: Session, h': Header, newPair': nat)
    ensures DhReceive(s, h, newPair).rootKey == DhReceive(t, h', newPair').rootKey
            <==> s.rootKey == t.rootKey && SamePair(s.myPair, h.pub, t.myPair, h'.pub)
    ensures DhReceive(s, h, newPair).recvChain == DhReceive(t, h', newPair').recvChain
            <==> s.rootKey == t.rootKey && SamePair(s.myPair, h.pub, t.myPair, h'.pub)
  {
    var r, r' := DhReceive(s, h, newPair).rootKey, DhReceive(t, h', newPair').rootKey;
    assert r.DhRoot? && r'.DhRoot?;
  }

  /** Healing: a session and a copy of it that steps with another key pair use no further key in common
      but those the copy could derive before. */
  lemma CopyIsLeftBehind(s: Session, copy: Session, ours: seq<Call>, theirs: seq<Call>, key: Bytes)
    requires Rooted(s) && Rooted(copy) && s.rootKey == copy.rootKey
    requires s.sendChain.None? && copy.sendChain.None?
    requires !SamePair(s.myPair, s.theirPub, copy.myPair, copy.theirPub)
    requires key in KeysOf(Encrypt(s).0, ours) && key in KeysOf(Encrypt(copy).0, theirs)
    ensures Depth(Line(key)) <= Depth(s.rootKey)
  {
    EncryptRooted(s);
    EncryptRooted(copy);
    SameSealIff(s, copy);
    PartedForGood(Encrypt(s).0, Encrypt(copy).0, ours, theirs, key);
  }
}
