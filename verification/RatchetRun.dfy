/** Runs of two ratchet sessions over a network that loses and reorders headers.

    Party 1 is the one that sends first (either device can take that part: the
    bootstrap is symmetric); party 0 first sends after it has decrypted something.
    `pairs`, `sent` and `pos` are history: they only record what the sessions did. */
module RatchetRun {
  import opened Wrappers
  import opened Ratchet
  import RatchetKeys

  type Party = p: nat | p < 2

  /** A header put on the network, with the key its sender used. `chain` is its place
      in the common sequence of DH steps. */
  datatype Sent = Sent(to: Party, chain: nat, header: Header, key: Bytes)

  /** pairs[t] is the key pair whose owner sends on chain t, sent[t] the number of
      messages sent on chain t, pos[p] the last DH step party p has made. */
  datatype World = World(sess: seq<Session>, log: seq<Sent>, root0: Bytes, pairs: seq<nat>, sent: seq<nat>,
                         pos: seq<nat>)

  datatype Event =
    | Send(p: Party)
    | Deliver(k: nat, newPair: nat)

  function Start(secret: nat, workspace: nat, ids: (nat, nat), identities: (nat, nat)): World
    requires identities.0 != identities.1
  {
    var s0 := InitSession(secret, workspace, ids.0, identities.0, ids.1, identities.1);
    var s1 := InitSession(secret, workspace, ids.1, identities.1, ids.0, identities.0);
    World([s0, s1], [], s0.rootKey, [identities.0, identities.1], [0], [0, 0])
  }

  ghost predicate Shaped(w: World) {
    && |w.sess| == |w.pos| == 2 && |w.sent| >= 1
    && w.pos[0] < |w.sent| && w.pos[1] < |w.sent|
  }

  function AfterSend(w: World, p: Party): World
    requires |w.sess| == |w.pos| == 2
  {
    var (s, h, key) := Encrypt(w.sess[p]);
    var opens := w.sess[p].sendChain.None?;
    var at := if opens then w.pos[p] + 1 else w.pos[p];
    var sent := if opens then w.sent + [0] else w.sent;
    w.(sess := w.sess[p := s], log := w.log + [Sent(1 - p, at, h, key)],
       pos := w.pos[p := at],
       sent := if at < |sent| then sent[at := sent[at] + 1] else sent)
  }

  function Receipt(w: World, e: Sent, newPair: nat): (Session, Outcome)
    requires |w.sess| == 2
  {
    Decrypt(w.sess[e.to], e.header, newPair)
  }

  function AfterDeliver(w: World, e: Sent, newPair: nat): World
    requires |w.sess| == |w.pos| == 2
  {
    var s := Receipt(w, e, newPair).0;
    if s.myPair == w.sess[e.to].myPair then w.(sess := w.sess[e.to := s])
    else w.(sess := w.sess[e.to := s], pairs := w.pairs + [newPair], pos := w.pos[e.to := w.pos[e.to] + 1])
  }

  function After(w: World, ev: Event): World
    requires |w.sess| == |w.pos| == 2
  {
    match ev
    case Send(p) => AfterSend(w, p)
    case Deliver(k, newPair) => if k < |w.log| then AfterDeliver(w, w.log[k], newPair) else w
  }

  function Run(w: World, evs: seq<Event>): (r: World)
    requires |w.sess| == |w.pos| == 2
    ensures |r.sess| == |r.pos| == 2
  {
    if evs == [] then w else After(Run(w, evs[..|evs| - 1]), evs[|evs| - 1])
  }

  // ------------------------------------------------------------ legal runs

  /** The receiver has walked past this message and does not hold its key: the key was
      used already, or the cache evicted it. */
  predicate Spent(w: World, e: Sent)
    requires Shaped(w)
  {
    var s := w.sess[e.to];
    && (e.chain < RecvStep(w.pos, e.to) || (e.chain == RecvStep(w.pos, e.to) && e.header.number < s.recvNumber))
    && !Cached(s, e.header.pub, e.header.number)
  }

  /** Party p sends on the chains of its own parity. */
  predicate Owns(p: Party, t: int) { t % 2 == p }

  /** The last chain party p has stepped its receiving side to (below 1: none). */
  function RecvStep(pos: seq<nat>, p: Party): int
    requires |pos| == 2
  {
    pos[p] as int - (if Owns(p, pos[p]) then 1 else 0)
  }

  /** One initiator; a new key pair is new; a header whose key is spent is not delivered. */
  predicate Legal(w: World, ev: Event)
    requires Shaped(w)
  {
    match ev
    case Send(p) => p == 0 ==> w.pos[0] > 0
    case Deliver(k, newPair) => k < |w.log| && newPair !in w.pairs && !Spent(w, w.log[k])
  }

  ghost predicate LegalRun(w: World, evs: seq<Event>)
    requires |w.sess| == |w.pos| == 2
  {
    evs == [] ||
    var before := evs[..|evs| - 1];
    LegalRun(w, before) && Shaped(Run(w, before)) && Legal(Run(w, before), evs[|evs| - 1])
  }

  // ------------------------------------------------------------ the common sequence of steps

  function Root(root0: Bytes, pairs: seq<nat>, t: nat): Bytes
    requires t < |pairs|
  {
    if t == 0 then root0 else DhRoot(Ecdh(pairs[t], pairs[t - 1]), Root(root0, pairs, t - 1))
  }

  function ChainKey(root0: Bytes, pairs: seq<nat>, t: nat): Bytes
    requires 1 <= t < |pairs|
  {
    DhChain(Ecdh(pairs[t], pairs[t - 1]), Root(root0, pairs, t - 1))
  }

  function MessageAt(root0: Bytes, pairs: seq<nat>, t: nat, n: nat): Bytes
    requires 1 <= t < |pairs|
  {
    MessageKey(ChainAt(ChainKey(root0, pairs, t), n))
  }

  function SentBefore(sent: seq<nat>, t: nat): nat
    requires t < |sent|
  {
    if t >= 2 then sent[t - 2] else 0
  }

  ghost predicate Distinct(pairs: seq<nat>) {
    forall i, j :: 0 <= i < j < |pairs| ==> pairs[i] != pairs[j]
  }

  /** Lockstep: the parties are at the same DH step, or one step apart with the one
      ahead on a chain it sends. */
  ghost predicate Aligned(pos: seq<nat>, sent: seq<nat>, pairs: seq<nat>) {
    && |pos| == 2 && |sent| >= 1 && sent[0] == 0
    && Distinct(pairs)
    && ((pos[0] == pos[1] == |sent| - 1 && |pairs| == |sent| + 1)
        || (exists q: Party :: LeadsBy(pos, q) && pos[q] == |sent| - 1 && |pairs| == |sent|))
    && |pairs| >= 2
  }

  predicate LeadsBy(pos: seq<nat>, q: Party)
    requires |pos| == 2
  {
    pos[q] == pos[1 - q] + 1 && Owns(q, pos[q])
  }

  ghost predicate SenderSide(s: Session, p: Party, at: nat, root0: Bytes, pairs: seq<nat>, sent: seq<nat>)
    requires at < |sent| && at < |pairs| && (Owns(p, at) || at + 1 < |pairs|)
  {
    && s.rootKey == Root(root0, pairs, at)
    && s.myPair == (if Owns(p, at) then pairs[at] else pairs[at + 1])
    && (if Owns(p, at) && at >= 1 then
          && s.sendChain == Some(ChainAt(ChainKey(root0, pairs, at), sent[at]))
          && s.sendNumber == sent[at]
          && s.previousLength == SentBefore(sent, at)
        else
          s.sendChain == None && s.sendNumber == (if at == 0 then 0 else sent[at - 1]))
  }

  /** A cache entry is the sender's true key of a message on a chain already received. */
  predicate TrueKey(e: SkippedKey, t: nat, r: nat, recvNumber: nat, p: Party, root0: Bytes, pairs: seq<nat>,
                    sent: seq<nat>) {
    && 1 <= t <= r && t < |sent| && t < |pairs| && !Owns(p, t)
    && e.pub == pairs[t]
    && e.number < sent[t]
    && (t == r ==> e.number < recvNumber)
    && e.key == MessageAt(root0, pairs, t, e.number)
  }

  /** Every entry a true key, no header twice. */
  ghost predicate EntriesSound(cache: seq<SkippedKey>, r: int, recvNumber: nat, p: Party, root0: Bytes,
                               pairs: seq<nat>, sent: seq<nat>) {
    && (forall i, j :: 0 <= i < j < |cache| ==> !Matches(cache[j], cache[i].pub, cache[i].number))
    && (forall e :: e in cache ==> r >= 1 && exists t: nat :: TrueKey(e, t, r, recvNumber, p, root0, pairs, sent))
  }

  ghost predicate CacheSound(cache: seq<SkippedKey>, r: int, recvNumber: nat, p: Party, root0: Bytes, pairs: seq<nat>,
                             sent: seq<nat>) {
    |cache| <= MAX_SKIPPED_KEYS && EntriesSound(cache, r, recvNumber, p, root0, pairs, sent)
  }

  ghost predicate ReceiverSide(s: Session, p: Party, r: int, root0: Bytes, pairs: seq<nat>, sent: seq<nat>)
    requires |pairs| >= 2 && r < |sent| && r < |pairs|
  {
    && s.theirPub == (if r >= 0 then pairs[r] else pairs[1])
    && (if r >= 1 then s.recvNumber <= sent[r] && s.recvChain == Some(ChainAt(ChainKey(root0, pairs, r), s.recvNumber))
        else s.recvNumber == 0 && s.recvChain == None)
    && CacheSound(s.skipped, r, s.recvNumber, p, root0, pairs, sent)
  }

  ghost predicate PartyInv(w: World, p: Party)
    requires Shaped(w) && Aligned(w.pos, w.sent, w.pairs)
  {
    && SenderSide(w.sess[p], p, w.pos[p], w.root0, w.pairs, w.sent)
    && ReceiverSide(w.sess[p], p, RecvStep(w.pos, p), w.root0, w.pairs, w.sent)
  }

  predicate LogEntry(e: Sent, root0: Bytes, pairs: seq<nat>, sent: seq<nat>, pos: seq<nat>)
    requires |pos| == 2
  {
    && 1 <= e.chain <= pos[1 - e.to] && e.chain < |sent| && e.chain < |pairs|
    && Owns(1 - e.to, e.chain)
    && e.header.pub == pairs[e.chain]
    && e.header.number < sent[e.chain]
    && e.header.previousLength == SentBefore(sent, e.chain)
    && e.key == MessageAt(root0, pairs, e.chain, e.header.number)
  }

  ghost predicate LogSound(log: seq<Sent>, root0: Bytes, pairs: seq<nat>, sent: seq<nat>, pos: seq<nat>)
    requires |pos| == 2
  {
    forall k :: 0 <= k < |log| ==> LogEntry(log[k], root0, pairs, sent, pos)
  }

  ghost predicate LogDistinct(log: seq<Sent>) {
    forall k, l :: 0 <= k < l < |log| && log[k].chain == log[l].chain ==> log[k].header.number != log[l].header.number
  }

  /** Every reachable state: lockstep, both sessions on the common sequence of steps,
      caches sound, and every header on the network carries its true position. */
  ghost predicate Inv(w: World) {
    && Shaped(w)
    && Aligned(w.pos, w.sent, w.pairs)
    && PartyInv(w, 0) && PartyInv(w, 1)
    && LogSound(w.log, w.root0, w.pairs, w.sent, w.pos)
    && LogDistinct(w.log)
  }

  lemma StartInv(secret: nat, workspace: nat, ids: (nat, nat), identities: (nat, nat))
    requires identities.0 != identities.1
    ensures Inv(Start(secret, workspace, ids, identities))
  {
    var w := Start(secret, workspace, ids, identities);
    assert w.sess[1].rootKey == w.root0;
  }

  // ------------------------------------------------------------ history only grows

  /** `b` continues the histories `a`: earlier pairs and the counts of closed chains stay. */
  ghost predicate Extends(a: World, b: World) {
    && a.root0 == b.root0
    && a.pairs <= b.pairs
    && |a.sent| <= |b.sent|
    && (forall t :: 0 <= t < |a.sent| ==> a.sent[t] <= b.sent[t])
  }

  lemma {:induction false} RootExtends(root0: Bytes, a: seq<nat>, b: seq<nat>, t: nat)
    requires a <= b && t < |a|
    ensures Root(root0, a, t) == Root(root0, b, t)
    ensures t >= 1 ==> ChainKey(root0, a, t) == ChainKey(root0, b, t)
  {
    if t > 0 { RootExtends(root0, a, b, t - 1); }
  }

  lemma CacheExtends(cache: seq<SkippedKey>, r: int, n: nat, r': int, n': nat, p: Party, a: World, b: World)
    requires Extends(a, b)
    requires CacheSound(cache, r, n, p, a.root0, a.pairs, a.sent)
    requires r < r' || (r == r' && n <= n')
    ensures CacheSound(cache, r', n', p, b.root0, b.pairs, b.sent)
  {
    forall e | e in cache ensures exists t: nat :: TrueKey(e, t, r', n', p, b.root0, b.pairs, b.sent) {
      var t: nat :| TrueKey(e, t, r, n, p, a.root0, a.pairs, a.sent);
      RootExtends(a.root0, a.pairs, b.pairs, t);
      assert TrueKey(e, t, r', n', p, b.root0, b.pairs, b.sent);
    }
  }

  // ------------------------------------------------------------ sending keeps the invariant

  lemma SenderSideExtends(s: Session, p: Party, at: nat, a: World, b: World)
    requires Extends(a, b)
    requires at < |a.sent| && at < |a.pairs| && (Owns(p, at) || at + 1 < |a.pairs|)
    requires SenderSide(s, p, at, a.root0, a.pairs, a.sent)
    requires forall t :: 0 <= t < |a.sent| && Owns(p, t) ==> b.sent[t] == a.sent[t]
    ensures SenderSide(s, p, at, b.root0, b.pairs, b.sent)
  {
    RootExtends(a.root0, a.pairs, b.pairs, at);
  }

  lemma ReceiverSideExtends(s: Session, p: Party, r: int, a: World, b: World)
    requires Extends(a, b) && |a.pairs| >= 2 && r < |a.sent| && r < |a.pairs|
    requires ReceiverSide(s, p, r, a.root0, a.pairs, a.sent)
    ensures ReceiverSide(s, p, r, b.root0, b.pairs, b.sent)
  {
    if r >= 1 { RootExtends(a.root0, a.pairs, b.pairs, r); }
    CacheExtends(s.skipped, r, s.recvNumber, r, s.recvNumber, p, a, b);
  }

  lemma OtherPartyKept(a: World, b: World, q: Party)
    requires Shaped(a) && Aligned(a.pos, a.sent, a.pairs) && PartyInv(a, q)
    requires Shaped(b) && Aligned(b.pos, b.sent, b.pairs) && Extends(a, b)
    requires b.sess[q] == a.sess[q] && b.pos[q] == a.pos[q]
    requires forall t :: 0 <= t < |a.sent| && Owns(q, t) ==> b.sent[t] == a.sent[t]
    ensures PartyInv(b, q)
  {
    SenderSideExtends(a.sess[q], q, a.pos[q], a, b);
    ReceiverSideExtends(a.sess[q], q, RecvStep(a.pos, q), a, b);
  }

  lemma LogKept(a: World, b: World)
    requires Shaped(a) && LogSound(a.log, a.root0, a.pairs, a.sent, a.pos) && Shaped(b) && Extends(a, b)
    requires forall q: Party :: a.pos[q] <= b.pos[q]
    requires forall t :: 0 <= t < |a.sent| && (t + 2 <= a.pos[0] || t + 2 <= a.pos[1]) ==> b.sent[t] == a.sent[t]
    ensures LogSound(a.log, b.root0, b.pairs, b.sent, b.pos)
  {
    forall k | 0 <= k < |a.log| ensures LogEntry(a.log[k], b.root0, b.pairs, b.sent, b.pos) {
      var e := a.log[k];
      assert LogEntry(e, a.root0, a.pairs, a.sent, a.pos);
      RootExtends(a.root0, a.pairs, b.pairs, e.chain);
    }
  }

  /** Sending on the open chain lengthens it by one. */
  lemma SendContinues(w: World, p: Party)
    requires Inv(w) && w.sess[p].sendChain.Some?
    ensures var b := AfterSend(w, p);
            && Shaped(b) && Aligned(b.pos, b.sent, b.pairs) && Extends(w, b)
            && b.pairs == w.pairs && b.pos == w.pos[p := b.pos[p]] && RecvStep(b.pos, p) == RecvStep(w.pos, p)
            && Owns(p, b.pos[p]) && w.pos[p] <= b.pos[p] && 1 <= b.pos[p]
            && (forall t :: 0 <= t < |w.sent| && t != b.pos[p] ==> b.sent[t] == w.sent[t])
            && SenderSide(b.sess[p], p, b.pos[p], b.root0, b.pairs, b.sent)
  {
    var b := AfterSend(w, p);
    var at := w.pos[p];
    assert PartyInv(w, p);
    assert Owns(p, at) && at >= 1;
    assert b.pos == w.pos && b.sent == w.sent[at := w.sent[at] + 1];
  }

  /** Sending after a receiving step opens the next chain of the common sequence. */
  lemma SendOpens(w: World, p: Party)
    requires Inv(w) && w.sess[p].sendChain.None? && Legal(w, Send(p))
    ensures var b := AfterSend(w, p);
            && Shaped(b) && Aligned(b.pos, b.sent, b.pairs) && Extends(w, b)
            && b.pairs == w.pairs && b.pos == w.pos[p := b.pos[p]] && RecvStep(b.pos, p) == RecvStep(w.pos, p)
            && Owns(p, b.pos[p]) && w.pos[p] <= b.pos[p] && 1 <= b.pos[p]
            && (forall t :: 0 <= t < |w.sent| && t != b.pos[p] ==> b.sent[t] == w.sent[t])
            && SenderSide(b.sess[p], p, b.pos[p], b.root0, b.pairs, b.sent)
  {
    var b := AfterSend(w, p);
    var at := w.pos[p];
    SendOpensAt(w, p);
    assert b.pos == w.pos[p := at + 1] && b.sent == w.sent + [1];
    assert Owns(p, at + 1);
    assert LeadsBy(b.pos, p);
    assert w.pairs[at] == w.sess[p].theirPub;
    assert w.pairs[at + 1] == w.sess[p].myPair;
  }

  lemma SendOpensAt(w: World, p: Party)
    requires Inv(w) && w.sess[p].sendChain.None? && Legal(w, Send(p))
    ensures w.pos[0] == w.pos[1] == |w.sent| - 1 && |w.pairs| == |w.sent| + 1 && !Owns(p, w.pos[p])
    ensures w.pairs[w.pos[p]] == w.sess[p].theirPub
  {
    assert PartyInv(w, p);
  }

  /** What sending does to the history, and to the sender's own side. */
  lemma SendHistory(w: World, p: Party)
    requires Inv(w) && Legal(w, Send(p))
    ensures var b := AfterSend(w, p);
            && Shaped(b) && Aligned(b.pos, b.sent, b.pairs) && Extends(w, b)
            && b.pairs == w.pairs && b.pos == w.pos[p := b.pos[p]] && RecvStep(b.pos, p) == RecvStep(w.pos, p)
            && Owns(p, b.pos[p]) && w.pos[p] <= b.pos[p] && 1 <= b.pos[p]
            && (forall t :: 0 <= t < |w.sent| && t != b.pos[p] ==> b.sent[t] == w.sent[t])
            && SenderSide(b.sess[p], p, b.pos[p], b.root0, b.pairs, b.sent)
  {
    if w.sess[p].sendChain.None? { SendOpens(w, p); } else { SendContinues(w, p); }
  }

  lemma NewEntry(w: World, p: Party)
    requires Inv(w) && Legal(w, Send(p))
    ensures var b := AfterSend(w, p);
            Shaped(b) && |b.log| == |w.log| + 1 && LogEntry(b.log[|w.log|], b.root0, b.pairs, b.sent, b.pos)
    ensures var e := AfterSend(w, p).log[|w.log|];
            e.chain < |w.sent| ==> e.header.number == w.sent[e.chain]
  {
    SendHistory(w, p);
    assert PartyInv(w, p);
  }

  /** A log with one more sound entry, on a position none of the others has. */
  lemma LogGrows(log: seq<Sent>, more: seq<Sent>, root0: Bytes, pairs: seq<nat>, sent: seq<nat>, pos: seq<nat>)
    requires |pos| == 2 && LogSound(log, root0, pairs, sent, pos) && LogDistinct(log)
    requires |more| == |log| + 1 && more[..|log|] == log && LogEntry(more[|log|], root0, pairs, sent, pos)
    requires forall k :: 0 <= k < |log| && log[k].chain == more[|log|].chain ==>
             log[k].header.number != more[|log|].header.number
    ensures LogSound(more, root0, pairs, sent, pos) && LogDistinct(more)
  {
    assert forall k :: 0 <= k < |log| ==> more[k] == log[k];
  }

  lemma EntryIsNew(w: World, p: Party)
    requires Inv(w) && Legal(w, Send(p))
    ensures var e := AfterSend(w, p).log[|w.log|];
            forall k :: 0 <= k < |w.log| && w.log[k].chain == e.chain ==> w.log[k].header.number != e.header.number
  {
    NewEntry(w, p);
    forall k | 0 <= k < |w.log| ensures LogEntry(w.log[k], w.root0, w.pairs, w.sent, w.pos) {}
  }

  lemma SendLog(w: World, p: Party)
    requires Inv(w) && Legal(w, Send(p))
    ensures var b := AfterSend(w, p);
            LogSound(b.log, b.root0, b.pairs, b.sent, b.pos) && LogDistinct(b.log)
  {
    var b := AfterSend(w, p);
    SendHistory(w, p);
    LogKept(w, b);
    NewEntry(w, p);
    EntryIsNew(w, p);
    LogGrows(w.log, b.log, b.root0, b.pairs, b.sent, b.pos);
  }

  lemma SendKeepsInv(w: World, p: Party)
    requires Inv(w) && Legal(w, Send(p))
    ensures Inv(AfterSend(w, p))
  {
    var b := AfterSend(w, p);
    SendHistory(w, p);
    SendLog(w, p);
    OtherPartyKept(w, b, 1 - p);
    assert PartyInv(w, p);
    ReceiverSideExtends(w.sess[p], p, RecvStep(w.pos, p), w, b);
    assert PartyInv(b, p);
  }

  // ------------------------------------------------------------ receiving

  lemma KeptSound(cache: seq<SkippedKey>, r: int, n: nat, p: Party, root0: Bytes, pairs: seq<nat>, sent: seq<nat>)
    requires EntriesSound(cache, r, n, p, root0, pairs, sent)
    ensures CacheSound(Kept(cache), r, n, p, root0, pairs, sent)
  {
    assert forall e :: e in Kept(cache) ==> e in cache;
  }

  lemma WalkedTrue(r: nat, n: nat, count: nat, i: nat, p: Party, w: World)
    requires 1 <= r < |w.pairs| && r < |w.sent| && !Owns(p, r) && n + count <= w.sent[r] && i < count
    ensures var walked := Passed(ChainAt(ChainKey(w.root0, w.pairs, r), n), w.pairs[r], n, count);
            TrueKey(walked[i], r, r, n + count, p, w.root0, w.pairs, w.sent)
  {
    ChainAtSum(ChainKey(w.root0, w.pairs, r), n, i);
  }

  /** A cached entry of the current chain is numbered below what the receiver has reached. */
  lemma CachedBelow(e: SkippedKey, cache: seq<SkippedKey>, r: nat, n: nat, p: Party, w: World)
    requires Distinct(w.pairs) && r < |w.pairs|
    requires EntriesSound(cache, r, n, p, w.root0, w.pairs, w.sent) && e in cache && e.pub == w.pairs[r]
    ensures e.number < n
  {
    var t: nat :| TrueKey(e, t, r, n, p, w.root0, w.pairs, w.sent);
  }

  lemma WalkUnique(cache: seq<SkippedKey>, walked: seq<SkippedKey>, r: nat, n: nat, p: Party, w: World)
    requires Distinct(w.pairs) && r < |w.pairs|
    requires EntriesSound(cache, r, n, p, w.root0, w.pairs, w.sent)
    requires forall i :: 0 <= i < |walked| ==> walked[i].pub == w.pairs[r] && walked[i].number == n + i
    ensures var all := cache + walked; forall i, j :: 0 <= i < j < |all| ==> !Matches(all[j], all[i].pub, all[i].number)
  {
    var all := cache + walked;
    forall i, j | 0 <= i < j < |all| ensures !Matches(all[j], all[i].pub, all[i].number) {
      if i < |cache| <= j && all[j].pub == all[i].pub { CachedBelow(cache[i], cache, r, n, p, w); }
    }
  }

  /** Walking the current chain forward leaves a sound cache. */
  lemma WalkKeepsCache(cache: seq<SkippedKey>, r: nat, n: nat, count: nat, p: Party, w: World)
    requires Distinct(w.pairs) && 1 <= r < |w.pairs| && r < |w.sent| && !Owns(p, r)
    requires CacheSound(cache, r, n, p, w.root0, w.pairs, w.sent) && n + count <= w.sent[r]
    ensures CacheSound(CacheAfter(cache, ChainAt(ChainKey(w.root0, w.pairs, r), n), w.pairs[r], n, count),
                       r, n + count, p, w.root0, w.pairs, w.sent)
  {
    var walked := Passed(ChainAt(ChainKey(w.root0, w.pairs, r), n), w.pairs[r], n, count);
    var m := n + count;
    CacheExtends(cache, r, n, r, m, p, w, w);
    WalkUnique(cache, walked, r, n, p, w);
    forall e | e in cache + walked ensures exists t: nat :: TrueKey(e, t, r, m, p, w.root0, w.pairs, w.sent) {
      if e !in cache {
        var i :| 0 <= i < |walked| && e == walked[i];
        WalkedTrue(r, n, count, i, p, w);
      }
    }
    KeptSound(cache + walked, r, m, p, w.root0, w.pairs, w.sent);
  }

  /** Taking a message of the current chain: the sender's key, or the 500-skip refusal. */
  lemma ReceiveOnChain(s: Session, h: Header, r: nat, p: Party, w: World)
    requires Distinct(w.pairs) && 1 <= r < |w.pairs| && r < |w.sent| && !Owns(p, r)
    requires ReceiverSide(s, p, r, w.root0, w.pairs, w.sent)
    requires h.pub == w.pairs[r] && s.recvNumber <= h.number < w.sent[r]
    ensures var (t, outcome) := Receive(s, h);
            && ReceiverSide(t, p, r, w.root0, w.pairs, w.sent)
            && t == s.(skipped := t.skipped, recvChain := t.recvChain, recvNumber := t.recvNumber)
            && outcome == (if h.number - s.recvNumber > MAX_SKIP_PER_STEP then TooManySkipped
                           else Key(MessageAt(w.root0, w.pairs, r, h.number)))
  {
    if !SkipTooFar(s, h.number) {
      var count := h.number - s.recvNumber;
      WalkKeepsCache(s.skipped, r, s.recvNumber, count, p, w);
      ChainAtSum(ChainKey(w.root0, w.pairs, r), s.recvNumber, count);
      var u := SkipForward(s, h.pub, h.number);
      assert u.recvChain == Some(ChainAt(ChainKey(w.root0, w.pairs, r), h.number));
      CacheExtends(u.skipped, r, h.number, r, h.number + 1, p, w, w);
    }
  }

  lemma KeyFound(s: Session, e: Sent, w: World)
    requires Inv(w) && s == w.sess[e.to] && LogEntry(e, w.root0, w.pairs, w.sent, w.pos)
    requires Cached(s, e.header.pub, e.header.number)
    ensures s.skipped[CacheIndex(s.skipped, e.header.pub, e.header.number)].key == e.key
  {
    var c := s.skipped[CacheIndex(s.skipped, e.header.pub, e.header.number)];
    assert PartyInv(w, e.to);
    assert c in s.skipped;
    var r := RecvStep(w.pos, e.to);
    var t: nat :| TrueKey(c, t, r, s.recvNumber, e.to, w.root0, w.pairs, w.sent);
    assert t == e.chain;
  }

  /** Only the receiver's own side is left to check after a delivery. */
  lemma ReceiverDone(w: World, b: World, p: Party)
    requires Shaped(w) && Aligned(w.pos, w.sent, w.pairs) && PartyInv(w, 1 - p)
    requires LogSound(w.log, w.root0, w.pairs, w.sent, w.pos) && LogDistinct(w.log)
    requires Shaped(b) && Aligned(b.pos, b.sent, b.pairs) && Extends(w, b)
    requires b == w.(sess := w.sess[p := b.sess[p]], pairs := b.pairs, pos := w.pos[p := b.pos[p]]) &&
             w.pos[p] <= b.pos[p]
    requires PartyInv(b, p)
    ensures Inv(b)
  {
    OtherPartyKept(w, b, 1 - p);
    LogKept(w, b);
    assert p == 0 || p == 1;
  }

  /** Replacing the receiver's session by one that only moved its receiving side. */
  lemma ReceivedInPlace(w: World, s: Session, p: Party)
    requires Inv(w)
    requires s == w.sess[p].(skipped := s.skipped, recvChain := s.recvChain, recvNumber := s.recvNumber)
    requires ReceiverSide(s, p, RecvStep(w.pos, p), w.root0, w.pairs, w.sent)
    ensures Inv(w.(sess := w.sess[p := s]))
  {
    var b := w.(sess := w.sess[p := s]);
    assert PartyInv(w, p);
    assert PartyInv(b, p);
    ReceiverDone(w, b, p);
  }

  lemma CacheMinusOne(cache: seq<SkippedKey>, i: nat, r: int, n: nat, p: Party, w: World)
    requires CacheSound(cache, r, n, p, w.root0, w.pairs, w.sent) && i < |cache|
    ensures CacheSound(cache[..i] + cache[i + 1..], r, n, p, w.root0, w.pairs, w.sent)
  {
    var c := cache[..i] + cache[i + 1..];
    forall e | e in c ensures e in cache {}
    assert forall j :: 0 <= j < |c| ==> c[j] == cache[if j < i then j else j + 1];
  }

  lemma DeliverCached(w: World, e: Sent, newPair: nat)
    requires Inv(w) && LogEntry(e, w.root0, w.pairs, w.sent, w.pos)
    requires Cached(w.sess[e.to], e.header.pub, e.header.number)
    ensures Inv(AfterDeliver(w, e, newPair)) && Receipt(w, e, newPair).1 == Key(e.key)
    ensures AfterDeliver(w, e, newPair).pos == w.pos
  {
    var s := w.sess[e.to];
    KeyFound(s, e, w);
    assert PartyInv(w, e.to);
    CacheMinusOne(s.skipped, CacheIndex(s.skipped, e.header.pub, e.header.number), RecvStep(w.pos, e.to),
                  s.recvNumber, e.to, w);
    ReceivedInPlace(w, Receipt(w, e, newPair).0, e.to);
  }

  lemma OnChain(w: World, e: Sent)
    requires Inv(w) && LogEntry(e, w.root0, w.pairs, w.sent, w.pos)
    requires !NeedsStep(w.sess[e.to], e.header)
    ensures RecvStep(w.pos, e.to) == e.chain
  {
    assert PartyInv(w, e.to);
  }

  lemma DeliverOnChain(w: World, e: Sent, newPair: nat)
    requires Inv(w) && LogEntry(e, w.root0, w.pairs, w.sent, w.pos) && !Spent(w, e)
    requires !Cached(w.sess[e.to], e.header.pub, e.header.number) && !NeedsStep(w.sess[e.to], e.header)
    ensures Inv(AfterDeliver(w, e, newPair))
    ensures AfterDeliver(w, e, newPair).pos == w.pos
    ensures Receipt(w, e, newPair).1 == if LimitHit(w.sess[e.to], e.header) then TooManySkipped else Key(e.key)
  {
    OnChain(w, e);
    assert PartyInv(w, e.to);
    ReceiveOnChain(w.sess[e.to], e.header, e.chain, e.to, w);
    ReceivedInPlace(w, Receipt(w, e, newPair).0, e.to);
  }

  /** A header that forces a DH step is the sender's next step, and the receiver is one behind. */
  lemma NextStep(w: World, e: Sent)
    requires Inv(w) && LogEntry(e, w.root0, w.pairs, w.sent, w.pos) && !Spent(w, e)
    requires !Cached(w.sess[e.to], e.header.pub, e.header.number) && NeedsStep(w.sess[e.to], e.header)
    ensures w.pos[1 - e.to] == e.chain == w.pos[e.to] + 1 == |w.sent| - 1 && |w.pairs| == |w.sent|
    ensures Owns(e.to, w.pos[e.to]) && RecvStep(w.pos, e.to) == e.chain - 2
  {
    assert PartyInv(w, e.to);
    assert e.chain > RecvStep(w.pos, e.to);
  }

  /** The history after a receiving DH step. */
  lemma StepHistory(w: World, e: Sent, newPair: nat)
    requires Inv(w) && LogEntry(e, w.root0, w.pairs, w.sent, w.pos) && !Spent(w, e) && newPair !in w.pairs
    requires !Cached(w.sess[e.to], e.header.pub, e.header.number) && NeedsStep(w.sess[e.to], e.header)
    ensures var b := w.(pairs := w.pairs + [newPair], pos := w.pos[e.to := e.chain]);
            && Shaped(b) && Aligned(b.pos, b.sent, b.pairs) && Extends(w, b) && RecvStep(b.pos, e.to) == e.chain
            && e.chain < |b.sent| && e.chain + 1 < |b.pairs| && !Owns(e.to, e.chain)
  {
    NextStep(w, e);
  }

  /** Both ends of the next DH step hold the halves of the same pair of keys. */
  lemma StepHalves(w: World, e: Sent)
    requires Inv(w) && LogEntry(e, w.root0, w.pairs, w.sent, w.pos) && !Spent(w, e)
    requires !Cached(w.sess[e.to], e.header.pub, e.header.number) && NeedsStep(w.sess[e.to], e.header)
    ensures var s, t := w.sess[e.to], e.chain;
            && 1 <= t < |w.pairs| && t < |w.sent| && !Owns(e.to, t)
            && s.myPair == w.pairs[t - 1] && e.header.pub == w.pairs[t] && s.rootKey == Root(w.root0, w.pairs, t - 1)
            && s.sendNumber == w.sent[t - 1]
  {
    NextStep(w, e);
    assert PartyInv(w, e.to);
  }

  /** The receiving DH step lands on the sender's root and chain. */
  lemma StepLands(w: World, e: Sent, newPair: nat)
    requires Inv(w) && LogEntry(e, w.root0, w.pairs, w.sent, w.pos) && !Spent(w, e) && newPair !in w.pairs
    requires !Cached(w.sess[e.to], e.header.pub, e.header.number) && NeedsStep(w.sess[e.to], e.header)
    requires e.chain < |w.sent| && e.chain < |w.pairs| && !Owns(e.to, e.chain)
    ensures var pairs := w.pairs + [newPair];
            var s := DhReceive(w.sess[e.to], e.header, newPair);
            SenderSide(s, e.to, e.chain, w.root0, pairs, w.sent) &&
              ReceiverSide(s, e.to, e.chain, w.root0, pairs, w.sent)
  {
    StepHalves(w, e);
    NextStep(w, e);
    DrainKeepsCache(w, e);
    StepFromHalves(w, w.sess[e.to], e.header, e.chain, e.to, newPair);
  }

  lemma StepFromHalves(w: World, before: Session, h: Header, t: nat, p: Party, newPair: nat)
    requires 1 <= t == |w.pairs| - 1 && t < |w.sent| && !Owns(p, t)
    requires before.myPair == w.pairs[t - 1] && h.pub == w.pairs[t] && before.rootKey == Root(w.root0, w.pairs, t - 1)
    requires before.sendNumber == w.sent[t - 1] && (t == 1 ==> w.sent[0] == 0)
    requires var d := SkipForward(before, before.theirPub, h.previousLength);
             CacheSound(d.skipped, t as int - 2, d.recvNumber, p, w.root0, w.pairs, w.sent)
    ensures var pairs := w.pairs + [newPair];
            var s := DhReceive(before, h, newPair);
            SenderSide(s, p, t, w.root0, pairs, w.sent) && ReceiverSide(s, p, t, w.root0, pairs, w.sent)
  {
    var b := w.(pairs := w.pairs + [newPair]);
    RootExtends(w.root0, w.pairs, b.pairs, t);
    RootExtends(w.root0, w.pairs, b.pairs, t - 1);
    var d := SkipForward(before, before.theirPub, h.previousLength);
    CacheExtends(d.skipped, t as int - 2, d.recvNumber, t, 0, p, w, b);
  }

  lemma DrainKeepsCache(w: World, e: Sent)
    requires Inv(w) && LogEntry(e, w.root0, w.pairs, w.sent, w.pos) && !Spent(w, e)
    requires !Cached(w.sess[e.to], e.header.pub, e.header.number) && NeedsStep(w.sess[e.to], e.header)
    ensures var s := w.sess[e.to];
            var d := SkipForward(s, s.theirPub, e.header.previousLength);
            CacheSound(d.skipped, e.chain - 2, d.recvNumber, e.to, w.root0, w.pairs, w.sent)
  {
    NextStep(w, e);
    var s := w.sess[e.to];
    assert PartyInv(w, e.to);
    if e.chain >= 3 && e.header.previousLength > s.recvNumber {
      DrainWalk(s, e.header.previousLength, e.chain - 2, e.to, w);
    }
  }

  lemma DrainWalk(s: Session, upTo: nat, r: nat, p: Party, w: World)
    requires Distinct(w.pairs) && 1 <= r < |w.pairs| && r < |w.sent| && !Owns(p, r)
    requires ReceiverSide(s, p, r, w.root0, w.pairs, w.sent) && s.recvNumber < upTo <= w.sent[r]
    ensures var d := SkipForward(s, s.theirPub, upTo);
            CacheSound(d.skipped, r, d.recvNumber, p, w.root0, w.pairs, w.sent)
  {
    WalkKeepsCache(s.skipped, r, s.recvNumber, upTo - s.recvNumber, p, w);
  }

  lemma DeliverStepping(w: World, e: Sent, newPair: nat)
    requires Inv(w) && LogEntry(e, w.root0, w.pairs, w.sent, w.pos) && !Spent(w, e) && newPair !in w.pairs
    requires !Cached(w.sess[e.to], e.header.pub, e.header.number) && NeedsStep(w.sess[e.to], e.header)
    requires !SkipTooFar(w.sess[e.to], e.header.previousLength)
    ensures Inv(AfterDeliver(w, e, newPair))
    ensures AfterDeliver(w, e, newPair).pos == w.pos[e.to := e.chain]
    ensures AfterDeliver(w, e, newPair).pairs == w.pairs + [newPair]
    ensures Receipt(w, e, newPair).1 == if LimitHit(w.sess[e.to], e.header) then TooManySkipped else Key(e.key)
  {
    var p, t := e.to, e.chain;
    NextStep(w, e);
    StepHistory(w, e, newPair);
    StepLands(w, e, newPair);
    var b0 := w.(pairs := w.pairs + [newPair], pos := w.pos[p := t]);
    var s := DhReceive(w.sess[p], e.header, newPair);
    ReceiveOnChain(s, e.header, t, p, b0);
    RootExtends(w.root0, w.pairs, b0.pairs, t);
    var b := AfterDeliver(w, e, newPair);
    MyPairIsKnown(w, p);
    assert b == b0.(sess := w.sess[p := Receipt(w, e, newPair).0]);
    assert PartyInv(b, p);
    ReceiverDone(w, b, p);
  }

  lemma MyPairIsKnown(w: World, p: Party)
    requires Inv(w)
    ensures w.sess[p].myPair in w.pairs
  {
    assert PartyInv(w, p);
  }

  /** One delivery of an unspent header: the invariant stays, and the receiver gets exactly
      the sender's key, or refuses to skip more than 500. */
  lemma DeliverKeepsInv(w: World, e: Sent, newPair: nat)
    requires Inv(w) && LogEntry(e, w.root0, w.pairs, w.sent, w.pos) && !Spent(w, e) && newPair !in w.pairs
    ensures Inv(AfterDeliver(w, e, newPair))
    ensures Receipt(w, e, newPair).1 == if LimitHit(w.sess[e.to], e.header) then TooManySkipped else Key(e.key)
  {
    var s := w.sess[e.to];
    if Cached(s, e.header.pub, e.header.number) { DeliverCached(w, e, newPair); }
    else if !NeedsStep(s, e.header) { DeliverOnChain(w, e, newPair); }
    else if !SkipTooFar(s, e.header.previousLength) { DeliverStepping(w, e, newPair); }
    else { assert AfterDeliver(w, e, newPair).sess == w.sess; }
  }

  lemma {:induction false} LegalRunInv(w: World, evs: seq<Event>)
    requires Inv(w) && LegalRun(w, evs)
    ensures Inv(Run(w, evs))
  {
    if evs != [] {
      var before, ev := evs[..|evs| - 1], evs[|evs| - 1];
      LegalRunInv(w, before);
      var v := Run(w, before);
      match ev
      case Send(p) => SendKeepsInv(v, p);
      case Deliver(k, newPair) => DeliverKeepsInv(v, v.log[k], newPair);
    }
  }

  // ------------------------------------------------------------ a spent key is gone

  lemma {:induction false} RootDepth(root0: Bytes, pairs: seq<nat>, t: nat)
    requires t < |pairs|
    ensures RatchetKeys.Depth(Root(root0, pairs, t)) == t + RatchetKeys.Depth(root0)
  {
    if t > 0 { RootDepth(root0, pairs, t - 1); }
  }

  lemma {:induction false} ChainAtInjective(c: Bytes, d: Bytes, n: nat)
    requires ChainAt(c, n) == ChainAt(d, n)
    ensures c == d
  {
    if n > 0 { ChainAtInjective(c, d, n - 1); }
  }

  /** A message key derived after a DH step from a later root is not an earlier chain's key. */
  lemma LaterRootOtherKey(w: World, dh: Bytes, at: nat, chain: nat, n: nat)
    requires 1 <= chain <= at < |w.pairs|
    ensures MessageKey(ChainAt(DhChain(dh, Root(w.root0, w.pairs, at)), n)) != MessageAt(w.root0, w.pairs, chain, n)
  {
    RootDepth(w.root0, w.pairs, at);
    RootDepth(w.root0, w.pairs, chain - 1);
    var c, d := DhChain(dh, Root(w.root0, w.pairs, at)), ChainKey(w.root0, w.pairs, chain);
    if ChainAt(c, n) == ChainAt(d, n) { ChainAtInjective(c, d, n); }
  }

  lemma SpentStep(w: World, e: Sent)
    requires Inv(w) && LogEntry(e, w.root0, w.pairs, w.sent, w.pos) && Spent(w, e)
    ensures NeedsStep(w.sess[e.to], e.header) <==> e.chain < RecvStep(w.pos, e.to)
    ensures w.sess[e.to].rootKey == Root(w.root0, w.pairs, w.pos[e.to])
    ensures 1 <= e.chain <= w.pos[e.to] < |w.pairs|
    ensures e.key == MessageAt(w.root0, w.pairs, e.chain, e.header.number)
  {
    assert PartyInv(w, e.to);
  }

  /** The key a header yields when it is taken as opening a new chain. */
  lemma SteppedKey(s: Session, h: Header, newPair: nat)
    requires !Cached(s, h.pub, h.number) && NeedsStep(s, h)
    requires !SkipTooFar(s, h.previousLength) && h.number <= MAX_SKIP_PER_STEP
    ensures Decrypt(s, h, newPair).1 == Key(MessageKey(ChainAt(DhChain(Ecdh(s.myPair, h.pub), s.rootKey), h.number)))
  {
  }

  /** Delivering a spent header again never yields its key; on the current chain it always throws. */
  lemma SpentNeverOpens(w: World, e: Sent, newPair: nat)
    requires Inv(w) && LogEntry(e, w.root0, w.pairs, w.sent, w.pos) && Spent(w, e)
    ensures Receipt(w, e, newPair).1 != Key(e.key)
    ensures e.chain == RecvStep(w.pos, e.to) ==> Receipt(w, e, newPair).1 == AlreadyConsumed
  {
    var p, s, h := e.to, w.sess[e.to], e.header;
    SpentStep(w, e);
    if NeedsStep(s, h) && !SkipTooFar(s, h.previousLength) && h.number <= MAX_SKIP_PER_STEP {
      LaterRootOtherKey(w, Ecdh(s.myPair, h.pub), w.pos[p], e.chain, h.number);
      SteppedKey(s, h, newPair);
    }
  }

  // ------------------------------------------------------------ main results

  /** Ratchet agreement.  After any legal run, delivering any header on the network gives
      exactly the key its sender used if and only if that key is unspent and skipForward's
      limit is not hit; an unspent header that misses its key threw on that limit. */
  lemma Agreement(secret: nat, workspace: nat, ids: (nat, nat), identities: (nat, nat), evs: seq<Event>, k: nat,
                  newPair: nat)
    requires identities.0 != identities.1
    requires LegalRun(Start(secret, workspace, ids, identities), evs)
    requires var w := Run(Start(secret, workspace, ids, identities), evs); k < |w.log| && newPair !in w.pairs
    ensures var w := Run(Start(secret, workspace, ids, identities), evs);
            var e := w.log[k];
            && Inv(w)
            && (Receipt(w, e, newPair).1 == Key(e.key) <==> !Spent(w, e) && !LimitHit(w.sess[e.to], e.header))
            && (!Spent(w, e) && LimitHit(w.sess[e.to], e.header) ==> Receipt(w, e, newPair).1 == TooManySkipped)
  {
    StartInv(secret, workspace, ids, identities);
    LegalRunInv(Start(secret, workspace, ids, identities), evs);
    var w := Run(Start(secret, workspace, ids, identities), evs);
    var e := w.log[k];
    assert LogEntry(e, w.root0, w.pairs, w.sent, w.pos);
    if Spent(w, e) { SpentNeverOpens(w, e, newPair); } else { DeliverKeepsInv(w, e, newPair); }
  }

  // ------------------------------------------------------------ at-most-once delivery without eviction

  function Delivered(evs: seq<Event>): set<nat> {
    set i | 0 <= i < |evs| && evs[i].Deliver? :: evs[i].k
  }

  function Positive(n: int): nat { if n > 0 then n else 0 }

  /** How many keys decrypting this header pushes on the cache. */
  function Pushes(s: Session, h: Header): nat {
    if Cached(s, h.pub, h.number) then 0
    else if !NeedsStep(s, h) then (if SkipTooFar(s, h.number) then 0 else Positive(h.number - s.recvNumber))
    else if SkipTooFar(s, h.previousLength) then 0
    else (if s.recvChain.Some? then Positive(h.previousLength - s.recvNumber) else 0)
         + (if h.number > MAX_SKIP_PER_STEP then 0 else h.number)
  }

  predicate Overflows(s: Session, h: Header) { |s.skipped| + Pushes(s, h) > MAX_SKIPPED_KEYS }

  /** What the network has to respect: one initiator, fresh key pairs, no header twice, and
      never more skipped keys outstanding than the cache holds. */
  predicate Careful(w: World, ev: Event, delivered: set<nat>)
    requires Shaped(w)
  {
    match ev
    case Send(p) => p == 0 ==> w.pos[0] > 0
    case Deliver(k, newPair) => k < |w.log| && newPair !in w.pairs && k !in delivered &&
                                !Overflows(w.sess[w.log[k].to], w.log[k].header)
  }

  ghost predicate CarefulRun(w: World, evs: seq<Event>)
    requires |w.sess| == |w.pos| == 2
  {
    evs == [] ||
    var before := evs[..|evs| - 1];
    CarefulRun(w, before) && Shaped(Run(w, before)) && Careful(Run(w, before), evs[|evs| - 1], Delivered(before))
  }

  lemma CachedIff(s: Session, pub: nat, number: nat)
    ensures Cached(s, pub, number) <==> exists e :: e in s.skipped && Matches(e, pub, number)
  {
    var i := CacheIndex(s.skipped, pub, number);
    if i < |s.skipped| { assert s.skipped[i] in s.skipped; }
  }

  /** Without overflow, skipping keeps every cached key and caches every number it walks past. */
  lemma SkipRemembers(s: Session, chainPub: nat, upTo: nat, pub: nat, number: nat)
    requires |s.skipped| + Positive(upTo - s.recvNumber) <= MAX_SKIPPED_KEYS && s.recvChain.Some?
    requires Cached(s, pub, number) || (pub == chainPub && s.recvNumber <= number < upTo)
    ensures Cached(SkipForward(s, chainPub, upTo), pub, number)
  {
    CachedIff(s, pub, number);
    var t := SkipForward(s, chainPub, upTo);
    if upTo > s.recvNumber {
      var walked := Passed(s.recvChain.value, chainPub, s.recvNumber, upTo - s.recvNumber);
      assert t.skipped == s.skipped + walked;
      if Cached(s, pub, number) {
        var e :| e in s.skipped && Matches(e, pub, number);
        assert e in t.skipped;
      } else {
        assert walked[number - s.recvNumber] in t.skipped;
        assert Matches(walked[number - s.recvNumber], pub, number);
      }
    }
    CachedIff(t, pub, number);
  }

  lemma ReceiveRemembers(s: Session, h: Header, pub: nat, number: nat)
    requires s.recvChain.Some? && s.recvNumber <= h.number
    requires SkipTooFar(s, h.number) || |s.skipped| + Positive(h.number - s.recvNumber) <= MAX_SKIPPED_KEYS
    ensures Cached(s, pub, number) ==> Cached(Receive(s, h).0, pub, number)
    ensures pub == h.pub && s.recvNumber <= number < Receive(s, h).0.recvNumber && number != h.number
            ==> Cached(Receive(s, h).0, pub, number)
  {
    if !SkipTooFar(s, h.number) {
      if Cached(s, pub, number) || (pub == h.pub && s.recvNumber <= number < h.number) {
        SkipRemembers(s, h.pub, h.number, pub, number);
      }
    }
  }

  lemma TakeRemembers(s: Session, h: Header, newPair: nat, pub: nat, number: nat)
    requires Cached(s, h.pub, h.number) && Cached(s, pub, number) && (pub != h.pub || number != h.number)
    ensures Cached(Decrypt(s, h, newPair).0, pub, number)
  {
    var i, j := CacheIndex(s.skipped, h.pub, h.number), CacheIndex(s.skipped, pub, number);
    var t := Decrypt(s, h, newPair).0;
    assert s.skipped[j] == t.skipped[if j < i then j else j - 1];
    CachedIff(t, pub, number);
  }

  /** Two messages to one party at different positions have different headers. */
  lemma HeadersDiffer(w: World, e: Sent, f: Sent)
    requires Inv(w) && LogEntry(e, w.root0, w.pairs, w.sent, w.pos) && LogEntry(f, w.root0, w.pairs, w.sent, w.pos)
    ensures e.chain == f.chain <==> e.header.pub == f.header.pub
  {
  }

  lemma UnspentAfterTake(w: World, e: Sent, f: Sent, newPair: nat)
    requires Shaped(w) && Cached(w.sess[e.to], e.header.pub, e.header.number) && e.to == f.to && !Spent(w, f)
    requires e.header.pub != f.header.pub || e.header.number != f.header.number
    ensures Shaped(AfterDeliver(w, e, newPair)) && !Spent(AfterDeliver(w, e, newPair), f)
  {
    var s, g := w.sess[e.to], f.header;
    if Cached(s, g.pub, g.number) { TakeRemembers(s, e.header, newPair, g.pub, g.number); }
  }

  lemma UnspentAfterChain(w: World, e: Sent, f: Sent, newPair: nat)
    requires Shaped(w) && e.to == f.to && !Spent(w, f)
    requires !Cached(w.sess[e.to], e.header.pub, e.header.number) && !NeedsStep(w.sess[e.to], e.header)
    requires e.chain == RecvStep(w.pos, e.to) && w.sess[e.to].recvNumber <= e.header.number
    requires !Overflows(w.sess[e.to], e.header)
    requires e.header.pub == f.header.pub <==> e.chain == f.chain
    requires e.header.pub != f.header.pub || e.header.number != f.header.number
    ensures Shaped(AfterDeliver(w, e, newPair)) && !Spent(AfterDeliver(w, e, newPair), f)
  {
    ReceiveRemembers(w.sess[e.to], e.header, f.header.pub, f.header.number);
  }

  /** Delivering e without overflow leaves every other unspent header unspent. */
  lemma UnspentStays(w: World, e: Sent, f: Sent, newPair: nat)
    requires Inv(w) && LogEntry(e, w.root0, w.pairs, w.sent, w.pos) && LogEntry(f, w.root0, w.pairs, w.sent, w.pos)
    requires !Spent(w, e) && !Spent(w, f) && newPair !in w.pairs && !Overflows(w.sess[e.to], e.header)
    requires e.to == f.to && (e.chain != f.chain || e.header.number != f.header.number)
    ensures Shaped(AfterDeliver(w, e, newPair)) && !Spent(AfterDeliver(w, e, newPair), f)
  {
    var s, h := w.sess[e.to], e.header;
    HeadersDiffer(w, e, f);
    if Cached(s, h.pub, h.number) {
      UnspentAfterTake(w, e, f, newPair);
    } else if !NeedsStep(s, h) {
      OnChain(w, e);
      UnspentAfterChain(w, e, f, newPair);
    } else if !SkipTooFar(s, h.previousLength) {
      NextStep(w, e);
      StepPositions(w, e, f);
      MyPairIsKnown(w, e.to);
      UnspentAfterStep(w, e, f, newPair);
    }
  }

  /** Where f can be when e opens the next chain: on it, in the cache, or in the part of the
      old chain that draining walks over. */
  predicate Placed(s: Session, e: Sent, f: Sent) {
    && f.chain <= e.chain
    && (f.chain == e.chain ==> f.header.pub == e.header.pub && f.header.number != e.header.number)
    && (Cached(s, f.header.pub, f.header.number) ==> s.recvChain.Some?)
    && (f.chain < e.chain && !Cached(s, f.header.pub, f.header.number) ==>
          s.recvChain.Some? && f.header.pub == s.theirPub && s.recvNumber <= f.header.number < e.header.previousLength)
  }

  lemma UnspentAfterStep(w: World, e: Sent, f: Sent, newPair: nat)
    requires Shaped(w) && e.to == f.to && Placed(w.sess[e.to], e, f)
    requires !Cached(w.sess[e.to], e.header.pub, e.header.number) && NeedsStep(w.sess[e.to], e.header)
    requires !SkipTooFar(w.sess[e.to], e.header.previousLength) && !Overflows(w.sess[e.to], e.header)
    requires w.sess[e.to].myPair != newPair && Owns(e.to, w.pos[e.to]) && e.chain == w.pos[e.to] + 1 < |w.sent|
    ensures Shaped(AfterDeliver(w, e, newPair)) && !Spent(AfterDeliver(w, e, newPair), f)
  {
    var s, h, g := w.sess[e.to], e.header, f.header;
    var d := DhReceive(s, h, newPair);
    if Cached(s, g.pub, g.number) || f.chain < e.chain {
      SkipRemembers(s, s.theirPub, h.previousLength, g.pub, g.number);
      assert Cached(d, g.pub, g.number);
    }
    SkipGrows(s, s.theirPub, h.previousLength);
    ReceiveRemembers(d, h, g.pub, g.number);
    assert RecvStep(AfterDeliver(w, e, newPair).pos, e.to) == e.chain;
  }

  lemma SkipGrows(s: Session, pub: nat, upTo: nat)
    ensures |SkipForward(s, pub, upTo).skipped| <= |s.skipped| +
            (if s.recvChain.Some? then Positive(upTo - s.recvNumber) else 0)
  {
  }

  /** What a party knows of the chain it is receiving on. */
  lemma ReceivingChain(w: World, p: Party)
    requires Inv(w)
    ensures var s, r := w.sess[p], RecvStep(w.pos, p);
            && r < |w.pairs| && (s.recvChain.Some? <==> r >= 1) && (r >= 1 ==> s.theirPub == w.pairs[r])
            && (s.skipped != [] ==> r >= 1)
  {
    assert PartyInv(w, p);
    if w.sess[p].skipped != [] { assert w.sess[p].skipped[0] in w.sess[p].skipped; }
  }

  lemma StepPositions(w: World, e: Sent, f: Sent)
    requires Inv(w) && LogEntry(e, w.root0, w.pairs, w.sent, w.pos) && LogEntry(f, w.root0, w.pairs, w.sent, w.pos)
    requires !Spent(w, e) && !Spent(w, f) && e.to == f.to && (e.chain != f.chain || e.header.number != f.header.number)
    requires !Cached(w.sess[e.to], e.header.pub, e.header.number) && NeedsStep(w.sess[e.to], e.header)
    ensures Placed(w.sess[e.to], e, f)
  {
    NextStep(w, e);
    ReceivingChain(w, e.to);
  }

  ghost predicate NoneLost(w: World, delivered: set<nat>) {
    && Shaped(w)
    && (forall k :: k in delivered ==> k < |w.log|)
    && (forall k :: 0 <= k < |w.log| && k !in delivered ==> !Spent(w, w.log[k]))
  }

  /** A message just sent is not spent: its receiver has not walked that far. */
  lemma NewMessageUnspent(w: World, p: Party)
    requires Inv(w) && Legal(w, Send(p))
    ensures var b := AfterSend(w, p);
            Shaped(b) && |b.log| == |w.log| + 1 && !Spent(b, b.log[|w.log|])
  {
    SendHistory(w, p);
    var b := AfterSend(w, p);
    var r := RecvStep(w.pos, 1 - p);
    assert RecvStep(b.pos, 1 - p) == r;
    ReceiverBehind(w, 1 - p);
    AtLead(w, p);
  }

  lemma ReceiverBehind(w: World, p: Party)
    requires Inv(w)
    ensures var r := RecvStep(w.pos, p);
            r < |w.sent| && (r >= 1 ==> w.sess[p].recvNumber <= w.sent[r]) && r <= w.pos[p]
  {
    assert PartyInv(w, p);
  }

  /** The number of a message just sent. */
  lemma SentNumber(w: World, p: Party)
    requires Inv(w) && Legal(w, Send(p))
    ensures var b := AfterSend(w, p);
            && |b.log| == |w.log| + 1 && b.pos[p] < |b.sent| && b.log[|w.log|].chain == b.pos[p]
            && b.log[|w.log|].header.number == b.sent[b.pos[p]] - 1
            && (b.pos[p] < |w.sent| ==> b.log[|w.log|].header.number == w.sent[b.pos[p]])
  {
    assert SenderSide(w.sess[p], p, w.pos[p], w.root0, w.pairs, w.sent) by { assert PartyInv(w, p); }
  }

  /** The chain a party sends on is never behind what its peer has stepped to. */
  lemma AtLead(w: World, p: Party)
    requires Inv(w) && Legal(w, Send(p))
    ensures var b := AfterSend(w, p);
            && b.log[|w.log|].chain == b.pos[p] && b.log[|w.log|].header.number == b.sent[b.pos[p]] - 1
            && RecvStep(w.pos, 1 - p) <= b.pos[p]
            && (b.pos[p] < |w.sent| ==> b.log[|w.log|].header.number == w.sent[b.pos[p]])
  {
    SentNumber(w, p);
    SendHistory(w, p);
  }

  lemma SendLosesNothing(w: World, p: Party, delivered: set<nat>)
    requires Inv(w) && NoneLost(w, delivered) && Legal(w, Send(p))
    ensures NoneLost(AfterSend(w, p), delivered)
  {
    NewMessageUnspent(w, p);
    SendHistory(w, p);
    var b := AfterSend(w, p);
    forall k | 0 <= k < |b.log| && k !in delivered ensures !Spent(b, b.log[k]) {
      if k < |w.log| { SendKeepsUnspent(w, p, w.log[k]); }
    }
  }

  lemma SendKeepsUnspent(w: World, p: Party, f: Sent)
    requires Inv(w) && Legal(w, Send(p)) && !Spent(w, f)
    ensures Shaped(AfterSend(w, p)) && !Spent(AfterSend(w, p), f)
  {
    SendHistory(w, p);
  }

  lemma DeliverLosesNothing(w: World, k: nat, newPair: nat, delivered: set<nat>)
    requires Inv(w) && NoneLost(w, delivered) && Careful(w, Deliver(k, newPair), delivered)
    ensures NoneLost(AfterDeliver(w, w.log[k], newPair), delivered + {k})
  {
    var e := w.log[k];
    var b := AfterDeliver(w, e, newPair);
    DeliverKeepsInv(w, e, newPair);
    forall l | 0 <= l < |w.log| && l !in delivered + {k} ensures !Spent(b, b.log[l]) {
      LogPair(w, k, l);
      if w.log[l].to == e.to {
        UnspentStays(w, e, w.log[l], newPair);
      } else {
        UnspentElsewhere(w, e, w.log[l], newPair);
      }
    }
  }

  lemma LogPair(w: World, k: nat, l: nat)
    requires Inv(w) && k < |w.log| && l < |w.log| && k != l
    ensures LogEntry(w.log[k], w.root0, w.pairs, w.sent, w.pos) && LogEntry(w.log[l], w.root0, w.pairs, w.sent, w.pos)
    ensures w.log[k].chain != w.log[l].chain || w.log[k].header.number != w.log[l].header.number
  {
  }

  lemma UnspentElsewhere(w: World, e: Sent, f: Sent, newPair: nat)
    requires Shaped(w) && Shaped(AfterDeliver(w, e, newPair)) && f.to != e.to && !Spent(w, f)
    ensures !Spent(AfterDeliver(w, e, newPair), f)
  {
  }

  ghost predicate SoFar(w: World, evs: seq<Event>)
    requires |w.sess| == |w.pos| == 2
  {
    LegalRun(w, evs) && Inv(Run(w, evs)) && NoneLost(Run(w, evs), Delivered(evs))
  }

  lemma {:induction false} CarefulRunIsLegal(w: World, evs: seq<Event>)
    requires Inv(w) && w.log == [] && CarefulRun(w, evs)
    ensures SoFar(w, evs)
  {
    if evs != [] {
      CarefulRunIsLegal(w, evs[..|evs| - 1]);
      CarefulRunStep(w, evs[..|evs| - 1], evs[|evs| - 1]);
      assert evs[..|evs| - 1] + [evs[|evs| - 1]] == evs;
    }
  }

  lemma CarefulRunStep(w: World, before: seq<Event>, ev: Event)
    requires |w.sess| == |w.pos| == 2 && SoFar(w, before) && CarefulRun(w, before + [ev])
    ensures SoFar(w, before + [ev])
  {
    assert (before + [ev])[..|before|] == before;
    CarefulStep(Run(w, before), ev, Delivered(before));
    DeliveredStep(before, ev);
  }

  lemma DeliveredStep(before: seq<Event>, ev: Event)
    ensures Delivered(before + [ev]) == Delivered(before) + (if ev.Deliver? then {ev.k} else {})
  {
    var evs := before + [ev];
    assert evs[|before|] == ev && forall i :: 0 <= i < |before| ==> evs[i] == before[i];
  }

  lemma CarefulStep(v: World, ev: Event, delivered: set<nat>)
    requires Inv(v) && NoneLost(v, delivered) && Careful(v, ev, delivered)
    ensures Legal(v, ev) && Inv(After(v, ev)) &&
            NoneLost(After(v, ev), delivered + (if ev.Deliver? then {ev.k} else {}))
  {
    match ev
    case Send(p) =>
      SendKeepsInv(v, p);
      SendLosesNothing(v, p, delivered);
      assert delivered + {} == delivered;
    case Deliver(k, newPair) =>
      LogIsSound(v, k);
      DeliverKeepsInv(v, v.log[k], newPair);
      DeliverLosesNothing(v, k, newPair, delivered);
  }

  lemma LogIsSound(w: World, k: nat)
    requires Inv(w) && k < |w.log|
    ensures LogEntry(w.log[k], w.root0, w.pairs, w.sent, w.pos)
  {
  }

  /** Over every single-initiator run that delivers no header twice and never overflows the
      cache, every header still undelivered opens with its sender's key unless it would make
      the receiver skip more than 500. */
  lemma AtMostOnceAgreement(secret: nat, workspace: nat, ids: (nat, nat), identities: (nat, nat), evs: seq<Event>,
                            k: nat, newPair: nat)
    requires identities.0 != identities.1
    requires CarefulRun(Start(secret, workspace, ids, identities), evs)
    requires var w := Run(Start(secret, workspace, ids, identities), evs);
             k < |w.log| && newPair !in w.pairs && k !in Delivered(evs)
    ensures var w := Run(Start(secret, workspace, ids, identities), evs);
            var e := w.log[k];
            Receipt(w, e, newPair).1 == if LimitHit(w.sess[e.to], e.header) then TooManySkipped else Key(e.key)
  {
    var w0 := Start(secret, workspace, ids, identities);
    StartInv(secret, workspace, ids, identities);
    CarefulRunIsLegal(w0, evs);
    Agreement(secret, workspace, ids, identities, evs, k, newPair);
  }

  // ------------------------------------------------------------ both sides sending first

  function EncryptTimes(s: Session, n: nat): Session {
    if n == 0 then s else Encrypt(EncryptTimes(s, n - 1)).0
  }

  lemma {:induction false} EncryptTimesState(s: Session, n: nat)
    requires s.sendChain == None && s.sendNumber == 0
    ensures var dh := Ecdh(s.myPair, s.theirPub);
            EncryptTimes(s, n) == if n == 0 then s
              else s.(rootKey := DhRoot(dh, s.rootKey), sendChain := Some(ChainAt(DhChain(dh, s.rootKey), n)),
                      sendNumber := n, previousLength := 0)
  {
    if n > 0 { EncryptTimesState(s, n - 1); }
  }

  /** The bootstrap is meant to let either side send first.  If both do, the keys part: the
      peer's n-th first-chain header opens exactly when this side has sent nothing itself. */
  lemma BothSendFirst(secret: nat, workspace: nat, ids: (nat, nat), identities: (nat, nat), mine: nat, n: nat,
                      newPair: nat)
    requires n <= MAX_SKIP_PER_STEP
    ensures var me := InitSession(secret, workspace, ids.0, identities.0, ids.1, identities.1);
            var peer := InitSession(secret, workspace, ids.1, identities.1, ids.0, identities.0);
            var (_, h, key) := Encrypt(EncryptTimes(peer, n));
            Decrypt(EncryptTimes(me, mine), h, newPair).1 == Key(key) <==> mine == 0
  {
    var me := InitSession(secret, workspace, ids.0, identities.0, ids.1, identities.1);
    var peer := InitSession(secret, workspace, ids.1, identities.1, ids.0, identities.0);
    EncryptTimesState(me, mine);
    EncryptTimesState(peer, n);
    var dh := Ecdh(identities.0, identities.1);
    var (_, h, key) := Encrypt(EncryptTimes(peer, n));
    assert key == MessageKey(ChainAt(DhChain(dh, me.rootKey), n));
    var s := EncryptTimes(me, mine);
    assert Decrypt(s, h, newPair).1 == Key(MessageKey(ChainAt(DhChain(dh, s.rootKey), n)));
    if ChainAt(DhChain(dh, s.rootKey), n) == ChainAt(DhChain(dh, me.rootKey), n) {
      ChainAtInjective(DhChain(dh, s.rootKey), DhChain(dh, me.rootKey), n);
    }
  }
}
