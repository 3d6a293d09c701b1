/** The encrypted relay and its store-and-forward queues (apps/server/src/relay.ts). */
module Relay {
  import opened Wrappers

  const MAX_QUEUE_PER_DEVICE: nat := 1000

  type SocketId = nat
  type DeviceId = nat
  type WorkspaceId = nat

  datatype Envelope = Envelope(sender: DeviceId, to: DeviceId, workspace: WorkspaceId, expiresAt: Option<nat>,
                               body: nat)
  datatype Peer = Peer(device: DeviceId, workspace: WorkspaceId)

  /** One recipient's history: what was routed to it, what its sockets were handed and which they
      were, and what was lost to a full queue, to expiry, and to a forced disconnect. */
  datatype Book = Book(routed: seq<Envelope>, sent: seq<Envelope>, via: seq<SocketId>,
                       dropped: seq<Envelope>, expired: seq<Envelope>, purged: seq<Envelope>)

  /** `known` are the sockets ever accepted, `open` those in state OPEN; `proved` and `books` are history. */
  datatype State = State(connections: map<DeviceId, SocketId>, queues: map<DeviceId, seq<Envelope>>,
                         known: set<SocketId>, open: set<SocketId>, peers: map<SocketId, Peer>,
                         proved: set<(SocketId, DeviceId)>, books: map<DeviceId, Book>)

  function Queue(r: State, d: DeviceId): seq<Envelope> { if d in r.queues then r.queues[d] else [] }

  function BookOf(r: State, d: DeviceId): Book { if d in r.books then r.books[d] else Book([], [], [], [], [], []) }

  predicate Online(r: State, d: DeviceId) { d in r.connections && r.connections[d] in r.open }

  // ------------------------------------------------------------ the handlers, as functions on the state

  function RouteOrQueue(r: State, e: Envelope): State {
    var d, book := e.to, BookOf(r, e.to);
    if Online(r, d) then
      r.(books := r.books[d := book.(routed := book.routed + [e], sent := book.sent + [e],
                                     via := book.via + [r.connections[d]])])
    else if |Queue(r, d)| < MAX_QUEUE_PER_DEVICE then
      r.(queues := r.queues[d := Queue(r, d) + [e]], books := r.books[d := book.(routed := book.routed + [e])])
    else
      r.(queues := r.queues[d := Queue(r, d)],
         books := r.books[d := book.(routed := book.routed + [e], dropped := book.dropped + [e])])
  }

  predicate Stale(e: Envelope, now: nat) { e.expiresAt.Some? && now > e.expiresAt.value }

  /** The first n queued envelopes that are still good; the clock is read once for each. */
  function Good(queue: seq<Envelope>, clock: nat -> nat, n: nat): seq<Envelope>
    requires n <= |queue|
  {
    if n == 0 then []
    else Good(queue, clock, n - 1) + (if Stale(queue[n - 1], clock(n - 1)) then [] else [queue[n - 1]])
  }

  function Bad(queue: seq<Envelope>, clock: nat -> nat, n: nat): seq<Envelope>
    requires n <= |queue|
  {
    if n == 0 then [] else Bad(queue, clock, n - 1) + (if Stale(queue[n - 1], clock(n - 1)) then [queue[n - 1]] else [])
  }

  function Repeat(s: SocketId, n: nat): (r: seq<SocketId>)
    ensures |r| == n && forall i :: 0 <= i < n ==> r[i] == s
  {
    seq(n, i => s)
  }

  /** A successful auth message: register the socket, then drain the queue to it. */
  function Authenticated(r: State, s: SocketId, p: Peer, clock: nat -> nat): State {
    var d, queue, book := p.device, Queue(r, p.device), BookOf(r, p.device);
    var good := Good(queue, clock, |queue|);
    r.(connections := r.connections[d := s], peers := r.peers[s := p], proved := r.proved + {(s, d)},
       queues := r.queues - {d},
       books := r.books[d := book.(sent := book.sent + good, via := book.via + Repeat(s, |good|),
                                   expired := book.expired + Bad(queue, clock, |queue|))])
  }

  /** An "envelope" message must name its socket's device and workspace, a "forward" only the workspace. */
  predicate MaySubmit(r: State, s: SocketId, e: Envelope, forwarded: bool) {
    s in r.peers && e.workspace == r.peers[s].workspace && (forwarded || e.sender == r.peers[s].device)
  }

  /** The close event: the entry goes only when it is still this socket's. */
  function Closed(r: State, s: SocketId): State {
    if s in r.peers && r.peers[s].device in r.connections && r.connections[r.peers[s].device] == s
    then r.(connections := r.connections - {r.peers[s].device}, open := r.open - {s})
    else r.(open := r.open - {s})
  }

  function Disconnected(r: State, d: DeviceId): State {
    var book := BookOf(r, d);
    var q := r.(queues := r.queues - {d}, books := r.books[d := book.(purged := book.purged + Queue(r, d))]);
    if d in r.connections then q.(connections := q.connections - {d}, open := q.open - {r.connections[d]}) else q
  }

  datatype Event =
    | Connect(s: SocketId)
    | Auth(s: SocketId, p: Peer, accepted: bool, clock: nat -> nat)
    | Submit(s: SocketId, e: Envelope, forwarded: bool)
    | Closing(s: SocketId)
    | Close(s: SocketId)
    | Disconnect(d: DeviceId)

  /** A socket is accepted once.  Its messages may still be under way after it has closed, since
      checking a signature is asynchronous. */
  predicate Enabled(r: State, ev: Event) {
    match ev
    case Connect(s) => s !in r.known
    case Auth(s, _, _, _) => s in r.known
    case Submit(s, _, _) => s in r.known
    case _ => true
  }

  function After(r: State, ev: Event): State {
    match ev
    case Connect(s) => r.(known := r.known + {s}, open := r.open + {s})
    case Auth(s, p, accepted, clock) => if accepted then Authenticated(r, s, p, clock) else r
    case Submit(s, e, forwarded) => if MaySubmit(r, s, e, forwarded) then RouteOrQueue(r, e) else r
    case Closing(s) => r.(open := r.open - {s})
    case Close(s) => Closed(r, s)
    case Disconnect(d) => Disconnected(r, d)
  }

  predicate Legal(r: State, evs: seq<Event>)
    decreases |evs|
  {
    evs == [] || (Enabled(r, evs[0]) && Legal(After(r, evs[0]), evs[1..]))
  }

  function RunFrom(r: State, evs: seq<Event>): State
    decreases |evs|
  {
    if evs == [] then r else RunFrom(After(r, evs[0]), evs[1..])
  }

  function Boot(): State { State(map[], map[], {}, {}, map[], {}, map[]) }

  // ------------------------------------------------------------ subsequences

  /** a is b with some elements left out: their order is kept. */
  predicate Subsequence<T(==)>(a: seq<T>, b: seq<T>)
    decreases |b|
  {
    if a == [] then true
    else if b == [] then false
    else if a[|a| - 1] == b[|b| - 1] && Subsequence(a[..|a| - 1], b[..|b| - 1]) then true
    else Subsequence(a, b[..|b| - 1])
  }

  /** Leaving out more keeps a subsequence a subsequence. */
  lemma {:induction false} Transitive<T>(a: seq<T>, b: seq<T>, c: seq<T>)
    requires Subsequence(a, b) && Subsequence(b, c)
    ensures Subsequence(a, c)
    decreases |b| + |c|
  {
    if a != [] {
      var c' := c[..|c| - 1];
      assert c == c' + [c[|c| - 1]];
      if b[|b| - 1] == c[|c| - 1] && Subsequence(b[..|b| - 1], c') {
        var b' := b[..|b| - 1];
        if a[|a| - 1] == b[|b| - 1] && Subsequence(a[..|a| - 1], b') {
          Transitive(a[..|a| - 1], b', c');
          assert a == a[..|a| - 1] + [a[|a| - 1]];
        } else {
          Transitive(a, b', c');
        }
      } else {
        Transitive(a, b, c');
      }
    }
  }

  lemma {:induction false} Prefix<T>(a: seq<T>, b: seq<T>)
    ensures Subsequence(a, a + b)
    decreases |b|
  {
    if b == [] {
      Reflexive(a);
      NothingAdded(a);
    } else {
      Prefix(a, b[..|b| - 1]);
      TakeMore(a, b, |b| - 1);
      assert b[..|b|] == b;
    }
  }

  lemma {:induction false} Reflexive<T>(a: seq<T>)
    ensures Subsequence(a, a)
  {
    if a != [] { Reflexive(a[..|a| - 1]); }
  }

  lemma ExtendRight<T>(s: seq<T>, a: seq<T>, b: seq<T>, x: T)
    requires Subsequence(s + a, b)
    ensures Subsequence(s + (a + [x]), b + [x])
  {
    assert s + (a + [x]) == s + a + [x];
  }

  lemma NothingAdded<T>(a: seq<T>)
    ensures a + [] == a && [] + a == a
  {
  }

  lemma TakeMore<T>(s: seq<T>, queue: seq<T>, n: nat)
    requires n < |queue|
    ensures queue[..n + 1] == queue[..n] + [queue[n]] && s + queue[..n + 1] == s + queue[..n] + [queue[n]]
  {
  }

  /** What is good of a queue keeps its order. */
  lemma {:induction false} GoodInOrder(sent: seq<Envelope>, queue: seq<Envelope>, clock: nat -> nat, n: nat)
    requires n <= |queue|
    ensures Subsequence(sent + Good(queue, clock, n), sent + queue[..n])
  {
    if n == 0 {
      Reflexive(sent);
      NothingAdded(sent);
      assert queue[..0] == [] && Good(queue, clock, 0) == [];
    } else {
      GoodInOrder(sent, queue, clock, n - 1);
      TakeMore(sent, queue, n - 1);
      var good := Good(queue, clock, n - 1);
      if Stale(queue[n - 1], clock(n - 1)) {
        assert Good(queue, clock, n) == good;
      } else {
        ExtendRight(sent, good, sent + queue[..n - 1], queue[n - 1]);
      }
    }
  }

  lemma MultisetSnoc(a: seq<Envelope>, x: Envelope)
    ensures multiset(a + [x]) == multiset(a) + multiset{x}
  {
  }

  /** The good and the stale are all of it. */
  lemma {:induction false} GoodAndBad(queue: seq<Envelope>, clock: nat -> nat, n: nat)
    requires n <= |queue|
    ensures multiset(queue[..n]) == multiset(Good(queue, clock, n)) + multiset(Bad(queue, clock, n))
  {
    if n == 0 {
      assert queue[..0] == [];
    } else {
      GoodAndBad(queue, clock, n - 1);
      TakeMore([], queue, n - 1);
      MultisetSnoc(queue[..n - 1], queue[n - 1]);
    }
  }

  // ------------------------------------------------------------ the invariant

  predicate InOrder(b: Book, queue: seq<Envelope>) { Subsequence(b.sent + queue, b.routed) }

  predicate Balanced(b: Book, queue: seq<Envelope>) {
    multiset(b.routed) == multiset(b.sent) + multiset(queue) + multiset(b.dropped) + multiset(b.expired) +
      multiset(b.purged)
  }

  predicate ToOwner(proved: set<(SocketId, DeviceId)>, d: DeviceId, b: Book) {
    |b.via| == |b.sent| && forall i :: 0 <= i < |b.via| ==> (b.via[i], d) in proved
  }

  predicate Addressed(d: DeviceId, b: Book) { forall e :: e in b.routed ==> e.to == d }

  ghost predicate BookOk(proved: set<(SocketId, DeviceId)>, d: DeviceId, b: Book, queue: seq<Envelope>) {
    InOrder(b, queue) && Balanced(b, queue) && ToOwner(proved, d, b) && Addressed(d, b)
  }

  ghost predicate DeviceInv(r: State, d: DeviceId) {
    && BookOk(r.proved, d, BookOf(r, d), Queue(r, d))
    && |Queue(r, d)| <= MAX_QUEUE_PER_DEVICE
    && (Online(r, d) ==> Queue(r, d) == [])
  }

  ghost predicate Connected(r: State) {
    r.open <= r.known && forall d :: d in r.connections ==>
      r.connections[d] in r.known && (r.connections[d], d) in r.proved
  }

  ghost predicate Inv(r: State) { Connected(r) && forall d :: DeviceInv(r, d) }

  // ------------------------------------------------------------ how a book is kept

  function SendBook(b: Book, e: Envelope, s: SocketId): Book {
    b.(routed := b.routed + [e], sent := b.sent + [e], via := b.via + [s])
  }

  lemma SendKeepsBook(proved: set<(SocketId, DeviceId)>, d: DeviceId, b: Book, e: Envelope, s: SocketId)
    requires BookOk(proved, d, b, []) && e.to == d && (s, d) in proved
    ensures BookOk(proved, d, SendBook(b, e, s), [])
  {
    var b' := SendBook(b, e, s);
    assert InOrder(b', []) by {
      NothingAdded(b.sent);
      NothingAdded(b'.sent);
    }
    assert Balanced(b', []) by {
      MultisetSnoc(b.sent, e);
      MultisetSnoc(b.routed, e);
    }
  }

  lemma QueueKeepsBook(proved: set<(SocketId, DeviceId)>, d: DeviceId, b: Book, queue: seq<Envelope>, e: Envelope)
    requires BookOk(proved, d, b, queue) && e.to == d
    ensures BookOk(proved, d, b.(routed := b.routed + [e]), queue + [e])
  {
    var b' := b.(routed := b.routed + [e]);
    assert InOrder(b', queue + [e]) by { ExtendRight(b.sent, queue, b.routed, e); }
    assert Balanced(b', queue + [e]) by {
      MultisetSnoc(queue, e);
      MultisetSnoc(b.routed, e);
    }
  }

  lemma DropKeepsBook(proved: set<(SocketId, DeviceId)>, d: DeviceId, b: Book, queue: seq<Envelope>, e: Envelope)
    requires BookOk(proved, d, b, queue) && e.to == d
    ensures BookOk(proved, d, b.(routed := b.routed + [e], dropped := b.dropped + [e]), queue)
  {
    var b' := b.(routed := b.routed + [e], dropped := b.dropped + [e]);
    assert InOrder(b', queue);
    assert Balanced(b', queue) by {
      MultisetSnoc(b.dropped, e);
      MultisetSnoc(b.routed, e);
    }
  }

  function DrainBook(b: Book, queue: seq<Envelope>, s: SocketId, clock: nat -> nat): Book {
    var good := Good(queue, clock, |queue|);
    b.(sent := b.sent + good, via := b.via + Repeat(s, |good|), expired := b.expired + Bad(queue, clock, |queue|))
  }

  lemma DrainKeepsBook(proved: set<(SocketId, DeviceId)>, d: DeviceId, b: Book, queue: seq<Envelope>, s: SocketId,
                       clock: nat -> nat)
    requires BookOk(proved, d, b, queue)
    ensures BookOk(proved + {(s, d)}, d, DrainBook(b, queue, s, clock), [])
  {
    var b' := DrainBook(b, queue, s, clock);
    assert queue[..|queue|] == queue;
    assert InOrder(b', []) by {
      GoodInOrder(b.sent, queue, clock, |queue|);
      Transitive(b'.sent, b.sent + queue, b.routed);
      assert b'.sent + [] == b'.sent;
    }
    assert Balanced(b', []) by { GoodAndBad(queue, clock, |queue|); }
  }

  lemma PurgeKeepsBook(proved: set<(SocketId, DeviceId)>, d: DeviceId, b: Book, queue: seq<Envelope>)
    requires BookOk(proved, d, b, queue)
    ensures BookOk(proved, d, b.(purged := b.purged + queue), [])
  {
    Prefix(b.sent, queue);
    Transitive(b.sent, b.sent + queue, b.routed);
    assert b.sent + [] == b.sent;
  }

  // ------------------------------------------------------------ every handler keeps the invariant

  /** Nothing about d has changed for the worse. */
  lemma Untouched(r: State, r': State, d: DeviceId)
    requires DeviceInv(r, d) && BookOf(r', d) == BookOf(r, d) && Queue(r', d) == Queue(r, d)
    requires r.proved <= r'.proved && (Online(r', d) ==> Online(r, d))
    ensures DeviceInv(r', d)
  {
  }

  lemma RouteKeepsInv(r: State, e: Envelope, d: DeviceId)
    requires Connected(r) && DeviceInv(r, d)
    ensures DeviceInv(RouteOrQueue(r, e), d)
  {
    if d != e.to { Untouched(r, RouteOrQueue(r, e), d); } else { RoutedKeepsInv(r, e); }
  }

  /** The addressee's book and queue after an envelope is routed. */
  lemma RoutedIs(r: State, e: Envelope)
    ensures var d, r' := e.to, RouteOrQueue(r, e); var b, queue := BookOf(r, d), Queue(r, d);
            && (Online(r', d) <==> Online(r, d)) && r'.proved == r.proved
            && (Online(r, d) ==> BookOf(r', d) == SendBook(b, e, r.connections[d]) && Queue(r', d) == queue)
            && (!Online(r, d) && |queue| < MAX_QUEUE_PER_DEVICE ==>
                  BookOf(r', d) == b.(routed := b.routed + [e]) && Queue(r', d) == queue + [e])
            && (!Online(r, d) && |queue| >= MAX_QUEUE_PER_DEVICE ==>
                  BookOf(r', d) == b.(routed := b.routed + [e], dropped := b.dropped + [e]) && Queue(r', d) == queue)
  {
  }

  lemma RoutedKeepsInv(r: State, e: Envelope)
    requires Connected(r) && DeviceInv(r, e.to)
    ensures DeviceInv(RouteOrQueue(r, e), e.to)
  {
    var d, b, queue := e.to, BookOf(r, e.to), Queue(r, e.to);
    RoutedIs(r, e);
    if Online(r, d) {
      SendKeepsBook(r.proved, d, b, e, r.connections[d]);
    } else if |queue| < MAX_QUEUE_PER_DEVICE {
      QueueKeepsBook(r.proved, d, b, queue, e);
    } else {
      DropKeepsBook(r.proved, d, b, queue, e);
    }
  }

  lemma AuthKeepsInv(r: State, s: SocketId, p: Peer, clock: nat -> nat, d: DeviceId)
    requires DeviceInv(r, d)
    ensures DeviceInv(Authenticated(r, s, p, clock), d)
  {
    if d == p.device { DrainKeepsBook(r.proved, d, BookOf(r, d), Queue(r, d), s, clock); }
    else { Untouched(r, Authenticated(r, s, p, clock), d); }
  }

  lemma DisconnectKeepsInv(r: State, c: DeviceId, d: DeviceId)
    requires DeviceInv(r, d)
    ensures DeviceInv(Disconnected(r, c), d)
  {
    if d == c { PurgeKeepsBook(r.proved, d, BookOf(r, d), Queue(r, d)); } else { Untouched(r, Disconnected(r, c), d); }
  }

  lemma StepKeepsDevice(r: State, ev: Event, d: DeviceId)
    requires Connected(r) && DeviceInv(r, d) && Enabled(r, ev)
    ensures DeviceInv(After(r, ev), d)
  {
    match ev
    case Connect(s) => Untouched(r, After(r, ev), d);
    case Auth(s, p, accepted, clock) => if accepted { AuthKeepsInv(r, s, p, clock, d); }
    case Submit(s, e, forwarded) => if MaySubmit(r, s, e, forwarded) { RouteKeepsInv(r, e, d); }
    case Closing(s) => Untouched(r, After(r, ev), d);
    case Close(s) => Untouched(r, After(r, ev), d);
    case Disconnect(c) => DisconnectKeepsInv(r, c, d);
  }

  lemma StepKeepsConnected(r: State, ev: Event)
    requires Connected(r) && Enabled(r, ev)
    ensures Connected(After(r, ev))
  {
  }

  lemma StepKeepsInv(r: State, ev: Event)
    requires Inv(r) && Enabled(r, ev)
    ensures Inv(After(r, ev))
  {
    StepKeepsConnected(r, ev);
    forall d ensures DeviceInv(After(r, ev), d) { StepKeepsDevice(r, ev, d); }
  }

  lemma {:induction false} RunKeepsInv(r: State, evs: seq<Event>)
    requires Inv(r) && Legal(r, evs)
    ensures Inv(RunFrom(r, evs))
    decreases |evs|
  {
    if evs != [] {
      StepKeepsInv(r, evs[0]);
      RunKeepsInv(After(r, evs[0]), evs[1..]);
    }
  }

  lemma BootInv()
    ensures Inv(Boot())
  {
    forall d ensures DeviceInv(Boot(), d) { assert BookOf(Boot(), d).sent + Queue(Boot(), d) == []; }
  }

  /** In every run and for every device: what its sockets were handed, followed by what waits in its
      queue, is an in-order subsequence of what was routed to it; every envelope routed to it is handed
      over, waiting, dropped at a full queue, expired or purged, exactly once; the queue never exceeds
      1000, and is empty while the device is online; and each envelope went to a socket that had proved
      itself to be its recipient. */
  lemma RelayKeepsBooks(evs: seq<Event>, d: DeviceId)
    requires Legal(Boot(), evs)
    ensures var r := RunFrom(Boot(), evs); var b, queue := BookOf(r, d), Queue(r, d);
            && Subsequence(b.sent + queue, b.routed)
            && multiset(b.routed) == multiset(b.sent) + multiset(queue) + multiset(b.dropped) + multiset(b.expired) +
              multiset(b.purged)
            && |queue| <= MAX_QUEUE_PER_DEVICE
            && (Online(r, d) ==> queue == [])
            && |b.via| == |b.sent|
            && forall i :: 0 <= i < |b.sent| ==> (b.via[i], b.sent[i].to) in r.proved && b.sent[i].to == d
  {
    BootInv();
    RunKeepsInv(Boot(), evs);
    var r := RunFrom(Boot(), evs);
    assert DeviceInv(r, d);
    var b := BookOf(r, d);
    forall i | 0 <= i < |b.sent| ensures b.sent[i].to == d {
      assert b.sent[i] in multiset(b.sent);
      assert b.sent[i] in multiset(b.routed);
    }
  }

  /** Nothing in this step closes socket s, disconnects d, or authenticates another socket as d. */
  predicate LeavesAlone(r: State, ev: Event, s: SocketId, d: DeviceId) {
    match ev
    case Auth(_, p, accepted, _) => accepted ==> p.device != d
    case Closing(t) => t != s
    case Close(t) => t != s
    case Disconnect(c) => c != d && (c in r.connections ==> r.connections[c] != s)
    case _ => true
  }

  predicate AllLeaveAlone(r: State, evs: seq<Event>, s: SocketId, d: DeviceId)
    decreases |evs|
  {
    evs == [] || (LeavesAlone(r, evs[0], s, d) && AllLeaveAlone(After(r, evs[0]), evs[1..], s, d))
  }

  /** What this event gets accepted for d. */
  function SubmittedNow(r: State, ev: Event, d: DeviceId): seq<Envelope> {
    if ev.Submit? && MaySubmit(r, ev.s, ev.e, ev.forwarded) && ev.e.to == d then [ev.e] else []
  }

  function SubmittedTo(r: State, evs: seq<Event>, d: DeviceId): seq<Envelope>
    decreases |evs|
  {
    if evs == [] then [] else SubmittedNow(r, evs[0], d) + SubmittedTo(After(r, evs[0]), evs[1..], d)
  }

  lemma Associative<T>(a: seq<T>, b: seq<T>, c: seq<T>)
    ensures a + b + c == a + (b + c)
  {
  }

  lemma StaysOnlineStep(r: State, ev: Event, s: SocketId, d: DeviceId)
    requires Online(r, d) && r.connections[d] == s && Enabled(r, ev) && LeavesAlone(r, ev, s, d)
    ensures Online(After(r, ev), d) && After(r, ev).connections[d] == s
    ensures BookOf(After(r, ev), d).sent == BookOf(r, d).sent + SubmittedNow(r, ev, d)
  {
  }

  /** While socket s of an online device is left alone, the device stays online by s whatever other sockets,
      its own stale ones included, do or close; and each envelope for it goes straight to it, in order. */
  lemma {:induction false} StaysOnline(r: State, evs: seq<Event>, s: SocketId, d: DeviceId)
    requires Online(r, d) && r.connections[d] == s && Legal(r, evs) && AllLeaveAlone(r, evs, s, d)
    ensures Online(RunFrom(r, evs), d) && RunFrom(r, evs).connections[d] == s
    ensures BookOf(RunFrom(r, evs), d).sent == BookOf(r, d).sent + SubmittedTo(r, evs, d)
    decreases |evs|
  {
    if evs == [] {
      NothingAdded(BookOf(r, d).sent);
    } else {
      var r1, now, later := After(r, evs[0]), SubmittedNow(r, evs[0], d), SubmittedTo(After(r, evs[0]), evs[1..], d);
      StaysOnlineStep(r, evs[0], s, d);
      StaysOnline(r1, evs[1..], s, d);
      Associative(BookOf(r, d).sent, now, later);
    }
  }

  /** The positions in the queue of what is handed over. */
  function GoodAt(queue: seq<Envelope>, clock: nat -> nat, n: nat): seq<nat>
    requires n <= |queue|
  {
    if n == 0 then []
    else GoodAt(queue, clock, n - 1) + (if Stale(queue[n - 1], clock(n - 1)) then [] else [n - 1])
  }

  /** Queued in this order, at these positions. */
  predicate Picks(good: seq<Envelope>, queue: seq<Envelope>, at: seq<nat>) {
    && |good| == |at|
    && (forall j :: 0 <= j < |at| ==> at[j] < |queue| && good[j] == queue[at[j]])
    && (forall i, j :: 0 <= i < j < |at| ==> at[i] < at[j])
  }

  lemma PickOne(good: seq<Envelope>, queue: seq<Envelope>, at: seq<nat>, n: nat)
    requires Picks(good, queue, at) && n < |queue| && forall j :: 0 <= j < |at| ==> at[j] < n
    ensures Picks(good + [queue[n]], queue, at + [n])
    ensures forall j :: 0 <= j < |at + [n]| ==> (at + [n])[j] < n + 1
  {
  }

  lemma {:induction false} GoodPicks(queue: seq<Envelope>, clock: nat -> nat, n: nat)
    requires n <= |queue|
    ensures var at := GoodAt(queue, clock, n);
            Picks(Good(queue, clock, n), queue, at) && forall j :: 0 <= j < |at| ==> at[j] < n
  {
    if n > 0 {
      var good, at := Good(queue, clock, n - 1), GoodAt(queue, clock, n - 1);
      GoodPicks(queue, clock, n - 1);
      if Stale(queue[n - 1], clock(n - 1)) {
        assert Good(queue, clock, n) == good && GoodAt(queue, clock, n) == at;
      } else {
        assert Good(queue, clock, n) == good + [queue[n - 1]] && GoodAt(queue, clock, n) == at + [n - 1];
        PickOne(good, queue, at, n - 1);
      }
    }
  }

  lemma {:induction false} PickedIff(queue: seq<Envelope>, clock: nat -> nat, n: nat, i: nat)
    requires n <= |queue|
    ensures i in GoodAt(queue, clock, n) <==> i < n && !Stale(queue[i], clock(i))
  {
    if n > 0 { PickedIff(queue, clock, n - 1, i); }
  }

  /** These envelopes, at these positions of the queue: those without expiry and those whose expiry the clock reading
      for them had not passed, each once and in order; so all of a queue in which nothing has an expiry. */
  ghost predicate HandsOver(queue: seq<Envelope>, clock: nat -> nat, good: seq<Envelope>, at: seq<nat>) {
    && Picks(good, queue, at)
    && (forall i :: 0 <= i < |queue| ==>
        (i in at <==> queue[i].expiresAt.None? || clock(i) <= queue[i].expiresAt.value))
    && ((forall e :: e in queue ==> e.expiresAt.None?) ==> good == queue)
  }

  lemma {:induction false} NothingStale(queue: seq<Envelope>, clock: nat -> nat, n: nat)
    requires n <= |queue| && forall i :: 0 <= i < n ==> !Stale(queue[i], clock(i))
    ensures Good(queue, clock, n) == queue[..n]
  {
    if n > 0 { NothingStale(queue, clock, n - 1); }
  }

  lemma {:induction false} BadExpired(queue: seq<Envelope>, clock: nat -> nat, n: nat, x: Envelope) returns (i: nat)
    requires n <= |queue| && x in Bad(queue, clock, n)
    ensures i < n && queue[i] == x && x.expiresAt.Some? && x.expiresAt.value < clock(i)
  {
    if x in Bad(queue, clock, n - 1) { i := BadExpired(queue, clock, n - 1, x); } else { i := n - 1; }
  }

  lemma HandedOverIff(queue: seq<Envelope>, clock: nat -> nat) returns (at: seq<nat>)
    ensures HandsOver(queue, clock, Good(queue, clock, |queue|), at)
  {
    at := GoodAt(queue, clock, |queue|);
    GoodPicks(queue, clock, |queue|);
    forall i | 0 <= i < |queue|
      ensures i in at <==> queue[i].expiresAt.None? || clock(i) <= queue[i].expiresAt.value
    {
      PickedIff(queue, clock, |queue|, i);
    }
    if forall e :: e in queue ==> e.expiresAt.None? { AllHandedOver(queue, clock); }
  }

  lemma AllHandedOver(queue: seq<Envelope>, clock: nat -> nat)
    requires forall e :: e in queue ==> e.expiresAt.None?
    ensures Good(queue, clock, |queue|) == queue
  {
    NothingStale(queue, clock, |queue|);
    assert queue[..|queue|] == queue;
  }

  /** A device that authenticates on an open socket is online with an empty queue, and exactly the
      backlog that had not expired was handed to that socket, in order. */
  lemma AuthDrainsBacklog(r: State, s: SocketId, p: Peer, clock: nat -> nat) returns (good: seq<Envelope>, at: seq<nat>)
    requires s in r.open
    ensures var r' := After(r, Auth(s, p, true, clock)); var queue := Queue(r, p.device);
            && Online(r', p.device) && r'.connections[p.device] == s && Queue(r', p.device) == []
            && BookOf(r', p.device).sent == BookOf(r, p.device).sent + good && HandsOver(queue, clock, good, at)
  {
    good := Good(Queue(r, p.device), clock, |Queue(r, p.device)|);
    at := HandedOverIff(Queue(r, p.device), clock);
  }

  /** What an authentication does to its device when its socket may have closed while the signature was checked: the
      backlog is taken off the queue and handed to that socket either way, and the device is online afterwards,
      whatever it was before, if and only if that socket is still open. */
  lemma LateAuthIff(r: State, s: SocketId, p: Peer, clock: nat -> nat) returns (good: seq<Envelope>, at: seq<nat>)
    requires s in r.known
    ensures var r' := After(r, Auth(s, p, true, clock)); var d := p.device; var b, b' := BookOf(r, d), BookOf(r', d);
            && (Online(r', d) <==> s in r.open)
            && Queue(r', d) == [] && b'.sent == b.sent + good && b'.via == b.via + Repeat(s, |good|)
            && HandsOver(Queue(r, d), clock, good, at)
  {
    good := Good(Queue(r, p.device), clock, |Queue(r, p.device)|);
    at := HandedOverIff(Queue(r, p.device), clock);
  }

  /** No connection of d is open, nor can it become so. */
  predicate Cut(r: State, d: DeviceId) {
    d in r.connections ==> r.connections[d] in r.known && r.connections[d] !in r.open
  }

  predicate AuthOf(ev: Event, d: DeviceId) { ev.Auth? && ev.accepted && ev.p.device == d }

  predicate NoAuthOf(evs: seq<Event>, d: DeviceId) {
    forall i :: 0 <= i < |evs| ==> !AuthOf(evs[i], d)
  }

  lemma CutStays(r: State, ev: Event, d: DeviceId)
    requires Cut(r, d) && Enabled(r, ev) && !AuthOf(ev, d)
    ensures Cut(After(r, ev), d) && BookOf(After(r, ev), d).sent == BookOf(r, d).sent
  {
  }

  /** So after an authentication that came too late, nothing reaches the device, not even one that was online on another
      socket just before and still has it open, until it authenticates again. */
  lemma {:induction false} LateAuthCutsOff(r: State, evs: seq<Event>, d: DeviceId)
    requires Cut(r, d) && Legal(r, evs) && NoAuthOf(evs, d)
    ensures !Online(RunFrom(r, evs), d) && BookOf(RunFrom(r, evs), d).sent == BookOf(r, d).sent
    decreases |evs|
  {
    if evs != [] {
      CutStays(r, evs[0], d);
      LateAuthCutsOff(After(r, evs[0]), evs[1..], d);
    }
  }

  lemma FirstEvent(r: State, ev: Event, evs: seq<Event>)
    ensures Legal(r, [ev] + evs) <==> Enabled(r, ev) && Legal(After(r, ev), evs)
    ensures RunFrom(r, [ev] + evs) == RunFrom(After(r, ev), evs)
  {
    assert ([ev] + evs)[1..] == evs;
  }

  /** A run in which a device with an open, authenticated socket is cut off by an earlier socket's late
      authentication. */
  lemma LateAuthDisplaces(p: Peer, clock: nat -> nat) returns (evs: seq<Event>, late: Event)
    ensures Legal(Boot(), evs) && Enabled(RunFrom(Boot(), evs), late)
    ensures Online(RunFrom(Boot(), evs), p.device) && !Online(After(RunFrom(Boot(), evs), late), p.device)
    ensures Cut(After(RunFrom(Boot(), evs), late), p.device)
  {
    var r1 := After(Boot(), Connect(0));
    var r2 := After(r1, Close(0));
    var r3 := After(r2, Connect(1));
    var r4 := After(r3, Auth(1, p, true, clock));
    late := Auth(0, p, true, clock);
    FirstEvent(r3, Auth(1, p, true, clock), []);
    FirstEvent(r2, Connect(1), [Auth(1, p, true, clock)]);
    FirstEvent(r1, Close(0), [Connect(1)] + [Auth(1, p, true, clock)]);
    evs := [Connect(0)] + ([Close(0)] + ([Connect(1)] + [Auth(1, p, true, clock)]));
    assert [Auth(1, p, true, clock)] + [] == [Auth(1, p, true, clock)];
    FirstEvent(Boot(), Connect(0), [Close(0)] + ([Connect(1)] + [Auth(1, p, true, clock)]));
  }

  // ------------------------------------------------------------ where envelopes come from, and why they expire

  lemma {:induction false} RunSnoc(r: State, evs: seq<Event>, n: nat)
    requires n < |evs|
    ensures RunFrom(r, evs[..n + 1]) == After(RunFrom(r, evs[..n]), evs[n])
    decreases n
  {
    if n == 0 {
      assert evs[..1][1..] == [] && evs[..0] == [];
    } else {
      RunSnoc(After(r, evs[0]), evs[1..], n - 1);
      assert evs[..n + 1][1..] == evs[1..][..n] && evs[..n][1..] == evs[1..][..n - 1];
    }
  }

  /** Event j is the latest before n by which socket s authenticated, and it did so as this device. */
  predicate LastAuth(evs: seq<Event>, n: nat, j: nat, s: SocketId, p: Peer) {
    && j < n <= |evs| && evs[j].Auth? && evs[j].accepted && evs[j].s == s && evs[j].p == p
    && forall k :: j < k < n && evs[k].Auth? && evs[k].accepted ==> evs[k].s != s
  }

  /** Who a socket is taken to be comes from its latest accepted authentication. */
  lemma {:induction false} PeerProved(evs: seq<Event>, n: nat, s: SocketId) returns (j: nat)
    requires n <= |evs|
    ensures var peers := RunFrom(Boot(), evs[..n]).peers;
            if s in peers then LastAuth(evs, n, j, s, peers[s])
            else forall k :: 0 <= k < n && evs[k].Auth? && evs[k].accepted ==> evs[k].s != s
  {
    if n == 0 {
      j := 0;
    } else {
      j := PeerProved(evs, n - 1, s);
      RunSnoc(Boot(), evs, n - 1);
      PeersAfter(RunFrom(Boot(), evs[..n - 1]), evs[n - 1]);
      if evs[n - 1].Auth? && evs[n - 1].accepted && evs[n - 1].s == s { j := n - 1; }
    }
  }

  lemma PeersAfter(r: State, ev: Event)
    ensures After(r, ev).peers == if ev.Auth? && ev.accepted then r.peers[ev.s := ev.p] else r.peers
  {
  }

  /** What has been routed to d is what was let in for d. */
  lemma RoutedStep(r: State, ev: Event, d: DeviceId)
    ensures BookOf(After(r, ev), d).routed == BookOf(r, d).routed + SubmittedNow(r, ev, d)
  {
  }

  /** Every envelope routed, in any run: it was submitted by a socket whose latest authentication before that was in the
      envelope's workspace and, unless it came as a forward, as the envelope's sender. */
  lemma {:induction false} RoutedFrom(evs: seq<Event>, n: nat, d: DeviceId, i: nat) returns (j: nat, k: nat)
    requires n <= |evs| && i < |BookOf(RunFrom(Boot(), evs[..n]), d).routed|
    ensures j < k < n && evs[k].Submit? && evs[k].e == BookOf(RunFrom(Boot(), evs[..n]), d).routed[i]
    ensures evs[j].Auth? && LastAuth(evs, k, j, evs[k].s, evs[j].p) && evs[j].p.workspace == evs[k].e.workspace
    ensures evs[k].forwarded || evs[j].p.device == evs[k].e.sender
    decreases n
  {
    if n > 0 {
      var r := RunFrom(Boot(), evs[..n - 1]);
      RunSnoc(Boot(), evs, n - 1);
      RoutedStep(r, evs[n - 1], d);
      if i < |BookOf(r, d).routed| {
        j, k := RoutedFrom(evs, n - 1, d, i);
      } else {
        k := n - 1;
        j := PeerProved(evs, n - 1, evs[k].s);
      }
    }
  }

  /** And a submission is let in exactly then. */
  lemma LetInIff(evs: seq<Event>, k: nat)
    requires k < |evs| && evs[k].Submit?
    ensures SubmittedNow(RunFrom(Boot(), evs[..k]), evs[k], evs[k].e.to) == [evs[k].e]
            <==> exists j, p :: LastAuth(evs, k, j, evs[k].s, p) && p.workspace == evs[k].e.workspace
                                && (evs[k].forwarded || p.device == evs[k].e.sender)
  {
    var j := PeerProved(evs, k, evs[k].s);
    var peers := RunFrom(Boot(), evs[..k]).peers;
    forall j', p' | LastAuth(evs, k, j', evs[k].s, p') ensures evs[k].s in peers && p' == peers[evs[k].s] {
      if evs[k].s in peers { assert j == j'; }
    }
  }

  lemma ExpiredStep(r: State, ev: Event, d: DeviceId)
    ensures BookOf(After(r, ev), d).expired == BookOf(r, d).expired +
              if AuthOf(ev, d) then Bad(Queue(r, d), ev.clock, |Queue(r, d)|) else []
  {
  }

  /** Every envelope counted as expired, in any run, carried an expiry, and the clock read for it while its recipient
      authenticated was past that. */
  lemma {:induction false} ExpiredHadPassed(evs: seq<Event>, n: nat, d: DeviceId, x: Envelope) returns (k: nat, i: nat)
    requires n <= |evs| && x in BookOf(RunFrom(Boot(), evs[..n]), d).expired
    ensures k < n && evs[k].Auth? && evs[k].accepted && evs[k].p.device == d
    ensures x.expiresAt.Some? && x.expiresAt.value < evs[k].clock(i)
    decreases n
  {
    if n > 0 {
      var r := RunFrom(Boot(), evs[..n - 1]);
      RunSnoc(Boot(), evs, n - 1);
      ExpiredStep(r, evs[n - 1], d);
      if x in BookOf(r, d).expired {
        k, i := ExpiredHadPassed(evs, n - 1, d, x);
      } else {
        k := n - 1;
        i := BadExpired(Queue(r, d), evs[k].clock, |Queue(r, d)|, x);
      }
    }
  }

  // ------------------------------------------------------------ the server

  class RelayServer {
    var connections: map<DeviceId, SocketId>
    var queues: map<DeviceId, seq<Envelope>>
    /** Sockets in state OPEN, and what each authenticated as. */
    var open: set<SocketId>
    var peers: map<SocketId, Peer>
    /** Every envelope handed to a socket, in order. */
    var handed: seq<(SocketId, Envelope)>
    ghost var known: set<SocketId>
    ghost var proved: set<(SocketId, DeviceId)>
    ghost var books: map<DeviceId, Book>

    ghost function Now(): State
      reads this
    {
      State(connections, queues, known, open, peers, proved, books)
    }

    constructor ()
      ensures Now() == Boot() && handed == []
    {
      connections, queues, open, peers, handed := map[], map[], {}, map[], [];
      known, proved, books := {}, {}, map[];
    }

    method OnConnection(s: SocketId)
      modifies this`open, this`known
      ensures Now() == After(old(Now()), Connect(s))
    {
      open, known := open + {s}, known + {s};
    }

    method IsOnline(d: DeviceId) returns (online: bool)
      ensures online <==> d in connections && connections[d] in open
    {
      online := d in connections && connections[d] in open;
    }

    /** sendTo, with an envelope. */
    method SendTo(s: SocketId, e: Envelope)
      modifies this`handed
      ensures handed == old(handed) + [(s, e)]
    {
      handed := handed + [(s, e)];
    }

    /** routeOrQueue. */
    method Route(e: Envelope)
      modifies this
      ensures Now() == RouteOrQueue(old(Now()), e)
      ensures open == old(open) && peers == old(peers) && connections == old(connections)
      ensures if e.to in old(connections) && old(connections)[e.to] in old(open)
              then handed == old(handed) + [(old(connections)[e.to], e)] && queues == old(queues)
              else
                var queue := if e.to in old(queues) then old(queues)[e.to] else [];
                handed == old(handed) && queues == old(queues)[e.to := if |queue| < 1000 then queue + [e] else queue]
    {
      ghost var r := Now();
      var d := e.to;
      var online := IsOnline(d);
      if online {
        SendTo(connections[d], e);
        books := books[d := SendBook(BookOf(r, d), e, connections[d])];
      } else {
        var queue := if d in queues then queues[d] else [];
        ghost var book := BookOf(r, d);
        books := books[d := book.(routed := book.routed + [e],
                                  dropped := if |queue| < MAX_QUEUE_PER_DEVICE
                                             then book.dropped else book.dropped + [e])];
        if |queue| < MAX_QUEUE_PER_DEVICE { queue := queue + [e]; }
        queues := queues[d := queue];
      }
    }

    /** The "envelope" and "forward" messages. */
    method OnSubmit(s: SocketId, e: Envelope, forwarded: bool) returns (accepted: bool)
      modifies this
      ensures accepted <==> s in old(peers) && e.workspace == old(peers)[s].workspace
                            && (forwarded || e.sender == old(peers)[s].device)
      ensures Now() == After(old(Now()), Submit(s, e, forwarded))
      ensures !accepted ==> Now() == old(Now()) && handed == old(handed)
      ensures accepted && e.to in old(connections) && old(connections)[e.to] in old(open) ==>
                handed == old(handed) + [(old(connections)[e.to], e)] && queues == old(queues)
      ensures accepted && (e.to !in old(connections) || old(connections)[e.to] !in old(open)) ==>
                var queue := if e.to in old(queues) then old(queues)[e.to] else [];
                handed == old(handed) && queues == old(queues)[e.to := if |queue| < 1000 then queue + [e] else queue]
    {
      if s !in peers { return false; }
      if !forwarded && e.sender != peers[s].device { return false; }
      if e.workspace != peers[s].workspace { return false; }
      Route(e);
      return true;
    }

    /** The "auth" message, once its signature has been checked. */
    method OnAuth(s: SocketId, p: Peer, clock: nat -> nat) returns (ghost good: seq<Envelope>, ghost at: seq<nat>)
      modifies this
      ensures Now() == After(old(Now()), Auth(s, p, true, clock))
      ensures connections == old(connections)[p.device := s] && peers == old(peers)[s := p]
      ensures queues == old(queues) - {p.device} && open == old(open)
      ensures handed == old(handed) + Handed(s, good)
      ensures var queue := if p.device in old(queues) then old(queues)[p.device] else [];
              HandsOver(queue, clock, good, at)
    {
      ghost var r := Now();
      peers := peers[s := p];
      connections := connections[p.device := s];
      proved := proved + {(s, p.device)};
      var queued := if p.device in queues then queues[p.device] else [];
      queues := queues - {p.device};
      books := books[p.device := DrainBook(BookOf(r, p.device), queued, s, clock)];
      Drain(s, queued, clock);
      good := Good(queued, clock, |queued|);
      at := HandedOverIff(queued, clock);
    }

    method Drain(s: SocketId, queued: seq<Envelope>, clock: nat -> nat)
      modifies this`handed
      ensures handed == old(handed) + Handed(s, Good(queued, clock, |queued|))
    {
      for i := 0 to |queued|
        invariant handed == old(handed) + Handed(s, Good(queued, clock, i))
      {
        GoodStep(s, queued, clock, i);
        if queued[i].expiresAt.Some? && clock(i) > queued[i].expiresAt.value { continue; }
        Associative(old(handed), Handed(s, Good(queued, clock, i)), [(s, queued[i])]);
        SendTo(s, queued[i]);
      }
    }

    method OnClosing(s: SocketId)
      modifies this`open
      ensures Now() == After(old(Now()), Closing(s))
    {
      open := open - {s};
    }

    /** The close event. */
    method OnClose(s: SocketId)
      modifies this`open, this`connections
      ensures Now() == After(old(Now()), Close(s))
      ensures open == old(open) - {s}
      ensures forall d :: d in connections <==>
                (d in old(connections) && !(old(connections)[d] == s && s in peers && peers[s].device == d))
      ensures forall d :: d in connections ==> connections[d] == old(connections)[d]
    {
      open := open - {s};
      if s in peers {
        var d := peers[s].device;
        if d in connections && connections[d] == s { connections := connections - {d}; }
      }
    }

    method DisconnectDevice(d: DeviceId)
      modifies this
      ensures Now() == After(old(Now()), Disconnect(d))
      ensures queues == old(queues) - {d} && connections == old(connections) - {d} && peers == old(peers)
      ensures open == if d in old(connections) then old(open) - {old(connections)[d]} else old(open)
    {
      ghost var r := Now();
      books := books[d := BookOf(r, d).(purged := BookOf(r, d).purged + Queue(r, d))];
      queues := queues - {d};
      if d in connections {
        var s := connections[d];
        connections := connections - {d};
        open := open - {s};
      }
    }
  }

  lemma GoodStep(s: SocketId, queue: seq<Envelope>, clock: nat -> nat, i: nat)
    requires i < |queue|
    ensures Handed(s, Good(queue, clock, i + 1)) ==
              if Stale(queue[i], clock(i)) then Handed(s, Good(queue, clock, i))
              else Handed(s, Good(queue, clock, i)) + [(s, queue[i])]
  {
    var good := Good(queue, clock, i);
    assert Good(queue, clock, i + 1) == if Stale(queue[i], clock(i)) then good else good + [queue[i]];
  }

  function Handed(s: SocketId, es: seq<Envelope>): (r: seq<(SocketId, Envelope)>)
    ensures |r| == |es| && forall i :: 0 <= i < |r| ==> r[i] == (s, es[i])
  {
    seq(|es|, i requires 0 <= i < |es| => (s, es[i]))
  }
}
