/** What carrying is for (packages/sync/src/engine.ts): a message for a device that is out of reach gets there
    through a third one, which only stores sealed bytes and forwards them. */
module MeshCarry {
  import opened Mesh
  import opened Ratchet
  import opened Wrappers

  // ------------------------------------------------------------ handing a bundle to a carrier

  /** Device a can offer this row of its outbox to device c. */
  predicate CanHandOver(w: World, a: DeviceId, c: DeviceId, k: MsgId) {
    && a in w.devs && c in w.devs && a != c && k in w.devs[a].outbox
    && w.devs[a].offering == {} && w.devs[a].recording.None?
    && var b := w.devs[a].outbox[k];
       b.bundleId == k && b.hopLimit > 0 && c != b.destination && c !in b.offeredTo && w.now < b.expiresAt
  }

  /** The message of that offer, under the id n. */
  function OfferMessage(w: World, a: DeviceId, c: DeviceId, k: MsgId, n: MsgId): Wire
    requires CanHandOver(w, a, c, k)
  {
    var env := SealedEnvelope(w.devs[a].config, w.devs[a].sessions, a, n, c, w.now,
                              [Carry(CarryOf(w.devs[a].outbox[k]))]);
    Wire(env, env)
  }

  /** The offer goes out. */
  lemma OfferOut(w: World, a: DeviceId, c: DeviceId, k: MsgId, n: MsgId) returns (evs: seq<Event>, v: World)
    requires CanHandOver(w, a, c, k) && n !in w.sealed
    ensures Reached(w, evs, v) && OfferMessage(w, a, c, k, n) in v.net && v.devs.Keys == w.devs.Keys
    ensures v.applied == w.applied && v.now == w.now && forall e :: e in w.devs && e != a ==> v.devs[e] == w.devs[e]
    ensures v.devs[a].outbox == w.devs[a].outbox && v.devs[a].recording == Some(Offered(w.devs[a].outbox[k], c))
  {
    var b, wire := w.devs[a].outbox[k], OfferMessage(w, a, c, k, n);
    var begun := After(w, At(a, OfferBegin));
    OneStep(w, At(a, OfferBegin));
    v := After(begun, At(a, Offer(b, c, wire.env, true)));
    evs := [At(a, OfferBegin)] + [At(a, Offer(b, c, wire.env, true))];
    Snoc(w, [At(a, OfferBegin)], begun, At(a, Offer(b, c, wire.env, true)));
  }

  /** And is recorded. */
  lemma OfferSent(w: World, a: DeviceId, c: DeviceId, k: MsgId, n: MsgId) returns (evs: seq<Event>, v: World)
    requires CanHandOver(w, a, c, k) && n !in w.sealed
    ensures Reached(w, evs, v) && OfferMessage(w, a, c, k, n) in v.net && v.devs.Keys == w.devs.Keys
    ensures v.applied == w.applied && v.now == w.now && forall e :: e in w.devs && e != a ==> v.devs[e] == w.devs[e]
    ensures var b := w.devs[a].outbox[k];
            v.devs[a].outbox == w.devs[a].outbox[k := b.(hopLimit := b.hopLimit - 1, offeredTo := b.offeredTo + [c])]
  {
    var past, u := OfferOut(w, a, c, k, n);
    v := After(u, At(a, OfferRecord));
    evs := past + [At(a, OfferRecord)];
    Snoc(w, past, u, At(a, OfferRecord));
  }

  /** A delivery that the device accepts. */
  lemma Delivered(w: World, d: DeviceId, wire: Wire, newPair: nat) returns (v: World)
    requires d in w.devs && wire in w.net && Accepts(w.devs[d], d, wire, newPair)
    ensures Reached(w, [At(d, Deliver(wire, newPair))], v) && v.devs.Keys == w.devs.Keys
    ensures v.applied == w.applied + [Applied(d, wire.env)] && v.now == w.now
    ensures forall e :: e in w.devs && e != d ==> v.devs[e] == w.devs[e]
    ensures v.devs[d].carried == AppliedOps(w.devs[d].carried, d, wire.env.ops, w.now)
  {
    OneStep(w, At(d, Deliver(wire, newPair)));
    v := After(w, At(d, Deliver(wire, newPair)));
  }

  /** The carrier takes it: it now holds the bundle, with one hop less and nobody recorded. */
  lemma HandedOver(w: World, a: DeviceId, c: DeviceId, k: MsgId, n: MsgId, newPair: nat)
    returns (evs: seq<Event>, v: World)
    requires CanHandOver(w, a, c, k) && n !in w.sealed && k !in w.devs[c].carried
    requires Accepts(w.devs[c], c, OfferMessage(w, a, c, k, n), newPair)
    ensures Reached(w, evs, v) && v.devs.Keys == w.devs.Keys && v.now == w.now
    ensures v.applied == w.applied + [Applied(c, OfferMessage(w, a, c, k, n).env)]
    ensures forall e :: e in w.devs && e != a && e != c ==> v.devs[e] == w.devs[e]
    ensures var b := w.devs[a].outbox[k];
            && v.devs[a].outbox == w.devs[a].outbox[k := b.(hopLimit := b.hopLimit - 1, offeredTo := b.offeredTo + [c])]
            && k in v.devs[c].carried && v.devs[c].carried[k] == b.(hopLimit := b.hopLimit - 1, offeredTo := [])
  {
    var wire := OfferMessage(w, a, c, k, n);
    var past, u := OfferSent(w, a, c, k, n);
    v := Delivered(u, c, wire, newPair);
    evs := past + [At(c, Deliver(wire, newPair))];
    RunAppend(w, past, [At(c, Deliver(wire, newPair))]);
    CarriedIff(w.devs[c].carried, c, wire.env.ops, w.now, k);
    assert wire.env.ops[0] == Carry(CarryOf(w.devs[a].outbox[k]));
  }

  // ------------------------------------------------------------ forwarding it

  /** The carrier's pass sends the row once and deletes it. */
  lemma Forwarded(w: World, c: DeviceId, k: MsgId) returns (evs: seq<Event>, v: World)
    requires c in w.devs && k in w.devs[c].carried && w.devs[c].carried[k].bundleId == k
    requires w.now <= w.devs[c].carried[k].expiresAt
    ensures Reached(w, evs, v) && w.devs[c].carried[k].payload in v.net && v.devs.Keys == w.devs.Keys
    ensures v.applied == w.applied && v.now == w.now && forall e :: e in w.devs && e != c ==> v.devs[e] == w.devs[e]
    ensures k !in v.devs[c].carried
    ensures k !in v.devs[c].forwarding.sent && v.devs[c].forwarding.begun == w.devs[c].forwarding.begun
  {
    var b := w.devs[c].carried[k];
    var begun := After(w, At(c, Begin(Carried)));
    OneStep(w, At(c, Begin(Carried)));
    assert k in begun.devs[c].carried && begun.devs[c].carried[k] == b;
    var read := After(begun, At(c, Read(Carried)));
    Snoc(w, [At(c, Begin(Carried))], begun, At(c, Read(Carried)));
    assert b in begun.devs[c].carried.Values && b in read.devs[c].forwarding.holding;
    var past := [At(c, Begin(Carried))] + [At(c, Read(Carried))];
    evs, v := SentAndDeleted(w, past, read, c, b);
  }

  lemma SentAndDeleted(w: World, past: seq<Event>, u: World, c: DeviceId, b: Bundle)
    returns (evs: seq<Event>, v: World)
    requires Reached(w, past, u) && c in u.devs && b in u.devs[c].forwarding.holding
    ensures Reached(w, evs, v) && b.payload in v.net && v.devs.Keys == u.devs.Keys
    ensures v.applied == u.applied && v.now == u.now && forall e :: e in u.devs && e != c ==> v.devs[e] == u.devs[e]
    ensures b.bundleId !in v.devs[c].carried && b.bundleId !in v.devs[c].forwarding.sent
    ensures v.devs[c].forwarding.begun == u.devs[c].forwarding.begun
  {
    var sent := After(u, At(c, Send(Carried, b)));
    Snoc(w, past, u, At(c, Send(Carried, b)));
    v := After(sent, At(c, Delete(Carried, b.bundleId)));
    evs := past + [At(c, Send(Carried, b))] + [At(c, Delete(Carried, b.bundleId))];
    Snoc(w, past + [At(c, Send(Carried, b))], sent, At(c, Delete(Carried, b.bundleId)));
  }

  /** The destination takes what the carrier forwards: whatever the state, if its session yields the key. */
  lemma ForwardedAndApplied(w: World, c: DeviceId, k: MsgId, d: DeviceId, newPair: nat)
    returns (evs: seq<Event>, v: World)
    requires c in w.devs && d in w.devs && c != d && k in w.devs[c].carried && w.devs[c].carried[k].bundleId == k
    requires w.now <= w.devs[c].carried[k].expiresAt
    requires Accepts(w.devs[d], d, w.devs[c].carried[k].payload, newPair)
    ensures Reached(w, evs, v) && v.devs.Keys == w.devs.Keys && k !in v.devs[c].carried
    ensures v.applied == w.applied + [Applied(d, w.devs[c].carried[k].payload.env)]
    ensures forall e :: e in w.devs && e != c && e != d ==> v.devs[e] == w.devs[e]
  {
    var wire := w.devs[c].carried[k].payload;
    var past, u := Forwarded(w, c, k);
    v := Delivered(u, d, wire, newPair);
    evs := past + [At(d, Deliver(wire, newPair))];
    RunAppend(w, past, [At(d, Deliver(wire, newPair))]);
  }

  // ------------------------------------------------------------ all the way

  /** From any state: a row that device a can hand to c, whose session with a is in step, reaches its destination
      any time before it expires, if the destination's session is in step.  Device c ends up holding nothing. */
  lemma CarriedAcross(w: World, a: DeviceId, c: DeviceId, d: DeviceId, k: MsgId, n: MsgId, wait: nat,
                      pairOfC: nat, pairOfD: nat)
    returns (evs: seq<Event>, v: World)
    requires CanHandOver(w, a, c, k) && n !in w.sealed && k !in w.devs[c].carried
    requires d in w.devs && d != a && d != c && w.devs[a].outbox[k].destination == d
    requires w.now + wait <= w.devs[a].outbox[k].expiresAt
    requires Accepts(w.devs[c], c, OfferMessage(w, a, c, k, n), pairOfC)
    requires Accepts(w.devs[d], d, w.devs[a].outbox[k].payload, pairOfD)
    ensures Reached(w, evs, v) && v.devs.Keys == w.devs.Keys && k !in v.devs[c].carried
    ensures v.applied == w.applied + [Applied(c, OfferMessage(w, a, c, k, n).env)]
                         + [Applied(d, w.devs[a].outbox[k].payload.env)]
  {
    var past, u := HandedOver(w, a, c, k, n, pairOfC);
    var later := After(u, Tick(wait));
    Snoc(w, past, u, Tick(wait));
    var rest;
    rest, v := ForwardedAndApplied(later, c, k, d, pairOfD);
    evs := past + [Tick(wait)] + rest;
    RunAppend(w, past + [Tick(wait)], rest);
  }

  /** Three devices of one pairing, of which a has not yet exchanged anything with the other two. */
  predicate Unacquainted(w: World, a: DeviceId, c: DeviceId, d: DeviceId) {
    && a in w.devs && c in w.devs && d in w.devs && a != c && a != d && c != d
    && w.devs[a].config == w.devs[c].config == w.devs[d].config
    && c !in w.devs[a].sessions && d !in w.devs[a].sessions && a !in w.devs[c].sessions && a !in w.devs[d].sessions
  }

  /** Device a seals a message for d, which it cannot reach, and queues it. */
  lemma Queued(w: World, a: DeviceId, c: DeviceId, d: DeviceId, m: MsgId, ops: seq<Op>, hopLimit: nat)
    returns (env: Envelope, v: World)
    requires Unacquainted(w, a, c, d) && m !in w.sealed && forall op :: op in ops ==> op.Other?
    ensures env.id == m && env.ops == ops
    ensures env == SealedEnvelope(w.devs[a].config, w.devs[a].sessions, a, m, d, w.now, ops)
    ensures Reached(w, [At(a, Seal(env, hopLimit, false))], v) && v.sealed == w.sealed[m := env]
    ensures v.devs == w.devs[a := SentFrom(w.devs[a], a, env, hopLimit, false)]
    ensures v.applied == w.applied && v.now == w.now
  {
    env := SealedEnvelope(w.devs[a].config, w.devs[a].sessions, a, m, d, w.now, ops);
    OneStep(w, At(a, Seal(env, hopLimit, false)));
    v := After(w, At(a, Seal(env, hopLimit, false)));
  }

  /** The first message between two devices of one pairing is accepted. */
  lemma FirstAccepted(dev: Device, d: DeviceId, config: Config, sessions: map<DeviceId, Session>, a: DeviceId,
                      id: MsgId, now: nat, ops: seq<Op>, newPair: nat)
    requires dev.config == config && a !in dev.sessions && d !in sessions && id !in dev.seen
    ensures var env := SealedEnvelope(config, sessions, a, id, d, now, ops);
            Accepts(dev, d, Wire(env, env), newPair)
  {
    FirstOpens(config, a, d, newPair);
  }

  /** No table knows an id that was never sealed. */
  lemma FreshEverywhere(w: World, d: DeviceId, m: MsgId)
    requires Inv(w) && d in w.devs && m !in w.sealed
    ensures m !in w.devs[d].carried && m !in w.devs[d].seen
  {
    assert TablesOk(w.sealed, w.devs[d]) && SeenOk(w.sealed, w.devs[d].seen, w.now);
    assert RowsOk(w.sealed, w.devs[d].carried);
  }

  /** Store, carry, forward: in every reachable state, a message that a seals for a device it cannot reach can be
      handed to a third device and is applied at its destination, as it was sealed and exactly once, whenever
      within seven days the third device gets there. */
  lemma CarriedToDestination(start: World, past: seq<Event>, a: DeviceId, c: DeviceId, d: DeviceId, m: MsgId, n: MsgId,
                             ops: seq<Op>, hopLimit: nat, wait: nat, pairOfC: nat, pairOfD: nat)
    returns (env: Envelope, evs: seq<Event>, v: World)
    requires Initial(start) && Legal(start, past) && Unacquainted(RunFrom(start, past), a, c, d)
    requires RunFrom(start, past).devs[a].offering == {} && RunFrom(start, past).devs[a].recording.None?
    requires m !in RunFrom(start, past).sealed && n !in RunFrom(start, past).sealed && m != n
    requires hopLimit > 0 && wait <= 604_800_000 && forall op :: op in ops ==> op.Other?
    ensures env.id == m && env.to == d && env.ops == ops && evs != [] && evs[0] == At(a, Seal(env, hopLimit, false))
    ensures Reached(RunFrom(start, past), evs, v) && c in v.devs && m !in v.devs[c].carried
    ensures Applied(d, env) in v.applied && Copies(v.applied, d, m) == 1
  {
    var w := RunFrom(start, past);
    RunKeepsInv(start, past);
    FreshEverywhere(w, c, m);
    FreshEverywhere(w, c, n);
    FreshEverywhere(w, d, m);
    var queued;
    env, queued := Queued(w, a, c, d, m, ops, hopLimit);
    FirstAccepted(w.devs[d], d, w.devs[a].config, w.devs[a].sessions, a, m, w.now, ops, pairOfD);
    FirstAccepted(w.devs[c], c, w.devs[a].config, queued.devs[a].sessions, a, n, w.now,
                  [Carry(CarryOf(queued.devs[a].outbox[m]))], pairOfC);
    var rest;
    rest, v := CarriedAcross(queued, a, c, d, m, n, wait, pairOfC, pairOfD);
    evs := [At(a, Seal(env, hopLimit, false))] + rest;
    RunAppend(w, [At(a, Seal(env, hopLimit, false))], rest);
    OnceInAll(start, past, evs, v, d, env);
  }

  lemma OnceInAll(start: World, past: seq<Event>, evs: seq<Event>, v: World, d: DeviceId, env: Envelope)
    requires Initial(start) && Legal(start, past) && Reached(RunFrom(start, past), evs, v) &&
             Applied(d, env) in v.applied
    ensures Copies(v.applied, d, env.id) == 1
  {
    RunAppend(start, past, evs);
    AppliedAtMostOnce(start, past + evs, d, env.id);
    AppliedCounts(v.applied, d, env);
  }

  lemma {:induction false} AppliedCounts(applied: seq<Applied>, d: DeviceId, env: Envelope)
    requires Applied(d, env) in applied
    ensures Copies(applied, d, env.id) > 0
  {
    var last := |applied| - 1;
    if applied[last] != Applied(d, env) { AppliedCounts(applied[..last], d, env); }
  }
}
