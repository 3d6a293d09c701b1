/** The methods of MeshEngine that move bundles, each proved to be a run of the mesh state machine. */
module MeshNode {
  import opened Wrappers
  import opened Mesh
  import opened Ratchet

  /** Who answers on a direct channel, and whether the relay takes what it is given. */
  datatype Reach = Reach(direct: set<DeviceId>, connected: bool)

  /** A pass over the outbox, or over the carried table for destinations shown online. */
  datatype Pass = Own(reach: Reach) | ForOthers(reach: Reach, online: set<DeviceId>)

  datatype Route = Direct | RelayEnvelope | RelayForward
  datatype Sending = Sending(route: Route, to: DeviceId, wire: Wire)

  predicate CanReach(reach: Reach, to: DeviceId) { to in reach.direct || reach.connected }

  /** The direct channel first; over the relay, a carrier must forward rather than send. */
  function RouteTo(reach: Reach, to: DeviceId, own: bool): Route {
    if to in reach.direct then Direct else if own then RelayEnvelope else RelayForward
  }

  predicate Goes(pass: Pass, b: Bundle) {
    CanReach(pass.reach, b.destination) && (pass.ForOthers? ==> b.destination in pass.online)
  }

  function SendingOf(pass: Pass, b: Bundle): Sending {
    Sending(RouteTo(pass.reach, b.destination, pass.Own?), b.destination, b.payload)
  }

  /** What a pass transmits, row by row. */
  function Sendings(pass: Pass, rows: map<MsgId, Bundle>): map<MsgId, Sending> {
    map k | k in rows && Goes(pass, rows[k]) :: SendingOf(pass, rows[k])
  }

  /** The rows still stored when `todo` is what a pass has not yet looked at. */
  function Left(pass: Pass, rows: map<MsgId, Bundle>, todo: set<MsgId>): map<MsgId, Bundle> {
    map k | k in rows && (k in todo || !Goes(pass, rows[k])) :: rows[k]
  }

  /** One transmission for each entry, and no other. */
  ghost predicate OnceEach(log: seq<Sending>, m: map<MsgId, Sending>) {
    |log| == |m| && forall s :: s in log <==> s in m.Values
  }

  lemma OneMore(log: seq<Sending>, m: map<MsgId, Sending>, k: MsgId, s: Sending)
    requires OnceEach(log, m) && k !in m
    ensures OnceEach(log + [s], m[k := s])
  {
    assert |m[k := s]| == |m| + 1 by {
      assert m[k := s].Keys == m.Keys + {k} && |m[k := s].Keys| == |m[k := s]| && |m.Keys| == |m|;
    }
    forall t ensures t in m[k := s].Values <==> t in m.Values || t == s {
      if t in m.Values { var j :| j in m && m[j] == t; assert m[k := s][j] == t; }
      assert m[k := s][k] == s;
    }
    forall t ensures t in log + [s] <==> t in m[k := s].Values { assert t in log + [s] <==> t in log || t == s; }
  }

  lemma NoneLeft(rows: map<MsgId, Bundle>)
    ensures rows - {} == rows
  {
  }

  lemma AppendLog(a: seq<Sending>, b: seq<Sending>, c: seq<Sending>)
    ensures (a + b) + c == a + (b + c)
  {
  }

  lemma LeftAfter(pass: Pass, rows: map<MsgId, Bundle>, todo: set<MsgId>, k: MsgId)
    requires k in todo && k in rows
    ensures Left(pass, rows, todo - {k}) ==
              if Goes(pass, rows[k]) then Left(pass, rows, todo) - {k} else Left(pass, rows, todo)
  {
  }

  /** What a pass transmits for one row. */
  function RowLog(pass: Pass, b: Bundle): seq<Sending> { if Goes(pass, b) then [SendingOf(pass, b)] else [] }

  lemma SendingsAfter(log: seq<Sending>, pass: Pass, rows: map<MsgId, Bundle>, todo: set<MsgId>, k: MsgId)
    requires k in todo && k in rows && OnceEach(log, Sendings(pass, rows - todo))
    ensures OnceEach(log + RowLog(pass, rows[k]), Sendings(pass, rows - (todo - {k})))
  {
    var done := Sendings(pass, rows - todo);
    if Goes(pass, rows[k]) {
      assert Sendings(pass, rows - (todo - {k})) == done[k := SendingOf(pass, rows[k])];
      OneMore(log, done, k, SendingOf(pass, rows[k]));
    } else {
      assert Sendings(pass, rows - (todo - {k})) == done;
      assert log + [] == log;
    }
  }

  /** How far a pass has come: the rows in `todo` are still to be looked at. */
  ghost predicate PassProgress(pass: Pass, rows: map<MsgId, Bundle>, todo: set<MsgId>, table: map<MsgId, Bundle>,
                               holding: set<Bundle>, log: seq<Sending>) {
    && todo <= rows.Keys && table == Left(pass, rows, todo) && OnceEach(log, Sendings(pass, rows - todo))
    && forall k :: k in todo ==> rows[k] in holding
  }

  lemma PassStart(pass: Pass, rows: map<MsgId, Bundle>, holding: set<Bundle>)
    requires rows.Values <= holding
    ensures PassProgress(pass, rows, rows.Keys, rows, holding, [])
  {
    assert forall k :: k in rows ==> rows[k] in rows.Values;
  }

  lemma PassOne(pass: Pass, rows: map<MsgId, Bundle>, todo: set<MsgId>, table: map<MsgId, Bundle>, holding: set<Bundle>,
                log: seq<Sending>, k: MsgId)
    requires PassProgress(pass, rows, todo, table, holding, log) && k in todo
    requires forall j :: j in rows ==> rows[j].bundleId == j
    ensures PassProgress(pass, rows, todo - {k}, if Goes(pass, rows[k]) then table - {k} else table,
                         holding - {rows[k]}, log + RowLog(pass, rows[k]))
  {
    LeftAfter(pass, rows, todo, k);
    SendingsAfter(log, pass, rows, todo, k);
  }

  lemma PassEnd(pass: Pass, rows: map<MsgId, Bundle>, table: map<MsgId, Bundle>, holding: set<Bundle>,
                log: seq<Sending>)
    requires PassProgress(pass, rows, {}, table, holding, log)
    ensures table == Left(pass, rows, {}) && OnceEach(log, Sendings(pass, rows))
  {
    NoneLeft(rows);
  }

  /** What a pass over the outbox keeps and transmits. */
  lemma DrainMeans(rows: map<MsgId, Bundle>, now: nat, reach: Reach)
    ensures var pass, live := Own(reach), Unexpired(rows, now);
            && (forall k :: k in Left(pass, live, {}) <==>
                  k in rows && now <= rows[k].expiresAt && rows[k].destination !in reach.direct && !reach.connected)
            && (forall s :: s in Sendings(pass, live).Values <==>
                  exists k :: k in rows && now <= rows[k].expiresAt
                    && (rows[k].destination in reach.direct || reach.connected)
                    && s == Sending(if rows[k].destination in reach.direct then Direct else RelayEnvelope,
                                    rows[k].destination, rows[k].payload))
  {
    var out := Sendings(Own(reach), Unexpired(rows, now));
    forall k | k in rows && now <= rows[k].expiresAt && (rows[k].destination in reach.direct || reach.connected)
      ensures k in out && out[k] in out.Values
    {
    }
  }

  /** The same for a pass over the carried table: only for those online, and never as an envelope of its own. */
  lemma ForwardMeans(rows: map<MsgId, Bundle>, now: nat, reach: Reach, online: set<DeviceId>)
    ensures var pass, live := ForOthers(reach, online), Unexpired(rows, now);
            && (forall k :: k in Left(pass, live, {}) <==>
                  k in rows && now <= rows[k].expiresAt
                  && (rows[k].destination !in online || (rows[k].destination !in reach.direct && !reach.connected)))
            && (forall s :: s in Sendings(pass, live).Values <==>
                  exists k :: k in rows && now <= rows[k].expiresAt && rows[k].destination in online
                    && (rows[k].destination in reach.direct || reach.connected)
                    && s == Sending(if rows[k].destination in reach.direct then Direct else RelayForward,
                                    rows[k].destination, rows[k].payload))
  {
    var out := Sendings(ForOthers(reach, online), Unexpired(rows, now));
    forall k | k in rows && now <= rows[k].expiresAt && rows[k].destination in online
               && (rows[k].destination in reach.direct || reach.connected)
      ensures k in out && out[k] in out.Values
    {
    }
  }

  /** The first peer in the list that is neither the bundle's destination nor offered it already. */
  predicate FirstSuitable(peers: seq<DeviceId>, b: Bundle, i: nat) {
    && i < |peers| && peers[i] != b.destination && peers[i] !in b.offeredTo
    && forall j :: 0 <= j < i ==> peers[j] == b.destination || peers[j] in b.offeredTo
  }

  lemma {:induction false} CarrierIsFirst(peers: seq<DeviceId>, b: Bundle, i: nat)
    requires FirstSuitable(peers, b, i)
    ensures CarrierFor(peers, b) == Some(peers[i])
  {
    if i > 0 {
      assert peers[0] == b.destination || peers[0] in b.offeredTo;
      assert FirstSuitable(peers[1..], b, i - 1);
      CarrierIsFirst(peers[1..], b, i - 1);
    }
  }

  /** What offering does to a row that was there before: one hop less and the carrier recorded when there are hops, a
      suitable peer, and a way to send to the first such; otherwise nothing. */
  predicate OfferedAs(reach: Reach, peers: seq<DeviceId>, b: Bundle, after: Bundle) {
    && (forall i :: 0 <= i < |peers| && FirstSuitable(peers, b, i) && b.hopLimit > 0
                    && (peers[i] in reach.direct || reach.connected) ==>
          after == b.(hopLimit := b.hopLimit - 1, offeredTo := b.offeredTo + [peers[i]]))
    && (b.hopLimit == 0 ==> after == b)
    && (forall i :: 0 <= i < |peers| && FirstSuitable(peers, b, i) && peers[i] !in reach.direct && !reach.connected ==>
          after == b)
    && ((forall i :: 0 <= i < |peers| ==> peers[i] == b.destination || peers[i] in b.offeredTo) ==> after == b)
  }

  lemma OfferedRow(reach: Reach, peers: seq<DeviceId>, b: Bundle)
    ensures OfferedAs(reach, peers, b, RowAfterOffer(reach, peers, b))
  {
    forall i | 0 <= i < |peers| && FirstSuitable(peers, b, i) ensures CarrierFor(peers, b) == Some(peers[i]) {
      CarrierIsFirst(peers, b, i);
    }
  }

  lemma OfferedRows(o: Offering, rows: map<MsgId, Bundle>, sealed: map<MsgId, Envelope>)
    requires FreshIds(o, rows, sealed) || forall k :: k in o.ids ==> o.ids[k] !in rows
    requires forall m :: m in o.rowOf ==> o.rowOf[m] in o.ids && o.ids[o.rowOf[m]] == m
    ensures var after := RowsAfter(o, rows, {}) + QueueOf(o, rows, sealed);
            forall k :: k in rows ==> k in after && OfferedAs(o.reach, o.peers, rows[k], after[k])
  {
    forall k | k in rows ensures OfferedAs(o.reach, o.peers, rows[k], RowAfterOffer(o.reach, o.peers, rows[k])) {
      OfferedRow(o.reach, o.peers, rows[k]);
    }
  }

  /** The peer a bundle is offered to: the first one online that is neither its destination nor offered already. */
  function CarrierFor(peers: seq<DeviceId>, b: Bundle): (r: Option<DeviceId>)
    ensures r.Some? ==> r.value in peers && r.value != b.destination && r.value !in b.offeredTo
    ensures r.None? ==> forall p :: p in peers ==> p == b.destination || p in b.offeredTo
  {
    if peers == [] then None
    else if peers[0] != b.destination && peers[0] !in b.offeredTo then Some(peers[0])
    else CarrierFor(peers[1..], b)
  }

  predicate Offers(peers: seq<DeviceId>, b: Bundle) { b.hopLimit > 0 && CarrierFor(peers, b).Some? }

  /** A row after the offering pass. */
  function RowAfterOffer(reach: Reach, peers: seq<DeviceId>, b: Bundle): Bundle {
    if Offers(peers, b) && CanReach(reach, CarrierFor(peers, b).value)
    then b.(hopLimit := b.hopLimit - 1, offeredTo := b.offeredTo + [CarrierFor(peers, b).value])
    else b
  }

  /** One run of offerCarrying: the peers it found online, the message id each row's offer would get, and
      the row each of those ids is for. */
  datatype Offering = Offering(me: DeviceId, now: nat, reach: Reach, peers: seq<DeviceId>,
                               ids: map<MsgId, MsgId>, rowOf: map<MsgId, MsgId>)

  predicate FreshIds(o: Offering, rows: map<MsgId, Bundle>, sealed: map<MsgId, Envelope>) {
    && rows.Keys <= o.ids.Keys
    && (forall k :: k in o.ids ==>
        o.ids[k] !in sealed && o.ids[k] !in rows && o.ids[k] in o.rowOf && o.rowOf[o.ids[k]] == k)
    && (forall m :: m in o.rowOf ==> o.rowOf[m] in o.ids && o.ids[o.rowOf[m]] == m)
  }

  /** The message offering row k to a carrier, as far as it does not depend on the session with the carrier. */
  predicate OfferFor(o: Offering, k: MsgId, b: Bundle, env: Envelope)
    requires k in o.ids && Offers(o.peers, b)
  {
    && env.id == o.ids[k] && env.sender == o.me && env.to == CarrierFor(o.peers, b).value && env.createdAt == o.now
    && env.ops == [Carry(CarryOf(b))]
  }

  /** The messages sealed so far include the right offer for each of these rows. */
  predicate OffersSealed(o: Offering, rows: map<MsgId, Bundle>, sealed: map<MsgId, Envelope>)
    requires rows.Keys <= o.ids.Keys
  {
    forall k :: k in rows && Offers(o.peers, rows[k]) ==>
      o.ids[k] in sealed && OfferFor(o, k, rows[k], sealed[o.ids[k]])
  }

  predicate OffersLive(o: Offering, b: Bundle) { Offers(o.peers, b) && CanReach(o.reach, CarrierFor(o.peers, b).value) }

  predicate OffersQueued(o: Offering, b: Bundle) {
    Offers(o.peers, b) && !CanReach(o.reach, CarrierFor(o.peers, b).value)
  }

  /** The stored rows once all but `todo` have been dealt with. */
  function RowsAfter(o: Offering, rows: map<MsgId, Bundle>, todo: set<MsgId>): map<MsgId, Bundle> {
    map k | k in rows :: if k in todo then rows[k] else RowAfterOffer(o.reach, o.peers, rows[k])
  }

  /** The offers of these rows that had to be queued themselves. */
  function QueueOf(o: Offering, rows: map<MsgId, Bundle>, sealed: map<MsgId, Envelope>): map<MsgId, Bundle> {
    map m | m in o.rowOf && o.rowOf[m] in rows && m in sealed &&
      OffersQueued(o, rows[o.rowOf[m]]) :: NewBundle(sealed[m], 0)
  }

  /** The offers of these rows that went out. */
  function OfferSendings(o: Offering, rows: map<MsgId, Bundle>, sealed: map<MsgId, Envelope>): map<MsgId, Sending>
    requires rows.Keys <= o.ids.Keys
  {
    map k | k in rows && o.ids[k] in sealed && OffersLive(o, rows[k]) :: OfferSending(o, sealed[o.ids[k]])
  }

  function OfferSending(o: Offering, env: Envelope): Sending {
    Sending(RouteTo(o.reach, env.to, true), env.to, Wire(env, env))
  }

  class MeshNode {
    const me: DeviceId
    const config: Config
    var outbox: map<MsgId, Bundle>
    var carried: map<MsgId, Bundle>
    var seen: map<MsgId, nat>
    /** The stored Double Ratchet sessions. */
    var sessions: map<DeviceId, Session>
    /** Everything handed to a channel, in order. */
    var sent: seq<Sending>

    /** This device's tables are those of device `me` in the world. */
    ghost predicate In(w: World)
      reads this
    {
      me in w.devs && Holds(w.devs[me])
    }

    ghost predicate Holds(dev: Device)
      reads this
    {
      dev.config == config && dev.outbox == outbox && dev.carried == carried && dev.seen == seen &&
        dev.sessions == sessions
    }

    constructor (me: DeviceId, config: Config)
      ensures this.me == me && this.config == config && Holds(EmptyDevice(config)) && sent == []
    {
      this.me, this.config := me, config;
      outbox, carried, seen, sessions, sent := map[], map[], map[], map[], [];
    }

    /** deliverBytes, or forwardCarriedBytes for a bundle of someone else's. */
    method DeliverBytes(to: DeviceId, wire: Wire, own: bool, reach: Reach) returns (ok: bool)
      modifies this`sent
      ensures ok == CanReach(reach, to)
      ensures sent == if ok then old(sent) + [Sending(RouteTo(reach, to, own), to, wire)] else old(sent)
      ensures ok <==> to in reach.direct || reach.connected
      ensures ok ==> sent == old(sent) + [Sending(if to in reach.direct then Direct
                                                  else if own then RelayEnvelope else RelayForward, to, wire)]
    {
      if to in reach.direct {
        sent := sent + [Sending(Direct, to, wire)];
        return true;
      }
      if reach.connected {
        sent := sent + [Sending(if own then RelayEnvelope else RelayForward, to, wire)];
        return true;
      }
      return false;
    }

    /** sendOps: the envelope is sealed under the session's next key, then sent live or queued. */
    method SendOps(id: MsgId, to: DeviceId, ops: seq<Op>, hopLimit: nat, now: nat, reach: Reach, ghost dev: Device)
      returns (live: bool, env: Envelope)
      requires Holds(dev)
      modifies this`outbox, this`sessions, this`sent
      ensures env == SealedEnvelope(config, old(sessions), me, id, to, now, ops) && live == CanReach(reach, to)
      ensures outbox == if live then old(outbox) else old(outbox)[id := NewBundle(env, hopLimit)]
      ensures !live ==> outbox == old(outbox)[id := Bundle(id, to, Wire(env, env), now + 604_800_000, hopLimit, [])]
      ensures live ==> sent == old(sent) + [Sending(if to in reach.direct then Direct else RelayEnvelope, to,
                                                    Wire(env, env))]
      ensures env.id == id && env.sender == me && env.to == to && env.createdAt == now && env.ops == ops
              && env.workspace == config.workspace
      ensures sent == if live then old(sent) + [Sending(RouteTo(reach, to, true), to, Wire(env, env))] else old(sent)
      ensures Holds(SentFrom(dev, me, env, hopLimit, live))
    {
      var (session, header, key) := Encrypt(SessionWith(config, sessions, me, to));
      sessions := sessions[to := session];
      env := Envelope(id, config.workspace, me, to, now, header, key, ops);
      live := DeliverBytes(to, Wire(env, env), true, reach);
      if !live {
        outbox := outbox[id := Bundle(id, to, Wire(env, env), now + OUTBOX_TTL_MS, hopLimit, [])];
      }
    }

    /** One row of drainOutbox: sent and deleted when there is a route. */
    method DrainRow(b: Bundle, reach: Reach, ghost w: World, ghost past: seq<Event>, ghost u: World)
      returns (ghost evs: seq<Event>, ghost v: World)
      requires Reached(w, past, u) && In(u) && b in u.devs[me].draining.holding
      modifies this`outbox, this`sent
      ensures outbox == if Goes(Own(reach), b) then old(outbox) - {b.bundleId} else old(outbox)
      ensures sent == old(sent) + RowLog(Own(reach), b)
      ensures Reached(w, evs, v) && In(v) && v.devs[me].draining.holding == u.devs[me].draining.holding - {b}
    {
      var ok := DeliverBytes(b.destination, b.payload, true, reach);
      evs, v := RowDone(w, past, u, me, Outbox, b, ok);
      if ok { outbox := outbox - {b.bundleId}; }
    }

    /** drainOutbox: expired rows go, every row with a route is sent once and deleted, the rest stays. */
    method DrainOutbox(now: nat, reach: Reach, ghost w: World) returns (ghost evs: seq<Event>, ghost v: World)
      requires In(w) && w.now == now
      requires forall k :: k in outbox ==> outbox[k].bundleId == k
      modifies this`outbox, this`sent
      ensures outbox == Left(Own(reach), Unexpired(old(outbox), now), {})
      ensures old(sent) <= sent && OnceEach(sent[|old(sent)|..], Sendings(Own(reach), Unexpired(old(outbox), now)))
      ensures forall k :: k in outbox <==>
                (k in old(outbox) && now <= old(outbox)[k].expiresAt
                 && old(outbox)[k].destination !in reach.direct && !reach.connected)
      ensures forall k :: k in outbox ==> outbox[k] == old(outbox)[k]
      ensures forall s :: s in sent[|old(sent)|..] <==>
                exists k :: k in old(outbox) && now <= old(outbox)[k].expiresAt
                  && (old(outbox)[k].destination in reach.direct || reach.connected)
                  && s == Sending(if old(outbox)[k].destination in reach.direct then Direct else RelayEnvelope,
                                  old(outbox)[k].destination, old(outbox)[k].payload)
      ensures Reached(w, evs, v) && In(v)
    {
      outbox := map k | k in outbox && now <= outbox[k].expiresAt :: outbox[k];
      evs, v := PassBegun(w, me, Outbox);
      evs, v := DrainRows(reach, w, evs, v);
      DrainMeans(old(outbox), now, reach);
    }

    method DrainRows(reach: Reach, ghost w: World, ghost past: seq<Event>, ghost u: World)
      returns (ghost evs: seq<Event>, ghost v: World)
      requires Reached(w, past, u) && In(u) && outbox.Values <= u.devs[me].draining.holding
      requires forall k :: k in outbox ==> outbox[k].bundleId == k
      modifies this`outbox, this`sent
      ensures outbox == Left(Own(reach), old(outbox), {})
      ensures old(sent) <= sent && OnceEach(sent[|old(sent)|..], Sendings(Own(reach), old(outbox)))
      ensures Reached(w, evs, v) && In(v)
    {
      evs, v := past, u;
      var rows := outbox;
      var todo := rows.Keys;
      ghost var pass, log := Own(reach), [];
      PassStart(pass, rows, u.devs[me].draining.holding);
      while todo != {}
        invariant Reached(w, evs, v) && In(v)
        invariant PassProgress(pass, rows, todo, outbox, v.devs[me].draining.holding, log)
        invariant sent == old(sent) + log
        decreases todo
      {
        var k :| k in todo;
        PassOne(pass, rows, todo, outbox, v.devs[me].draining.holding, log, k);
        AppendLog(old(sent), log, RowLog(pass, rows[k]));
        evs, v := DrainRow(rows[k], reach, w, evs, v);
        log := log + RowLog(pass, rows[k]);
        todo := todo - {k};
      }
      PassEnd(pass, rows, outbox, v.devs[me].draining.holding, log);
    }

    /** One row of attemptCarriedDelivery. */
    method ForwardRow(b: Bundle, online: set<DeviceId>, reach: Reach, ghost w: World, ghost past: seq<Event>,
                      ghost u: World)
      returns (ghost evs: seq<Event>, ghost v: World)
      requires Reached(w, past, u) && In(u) && b in u.devs[me].forwarding.holding
      modifies this`carried, this`sent
      ensures carried == if Goes(ForOthers(reach, online), b) then old(carried) - {b.bundleId} else old(carried)
      ensures sent == old(sent) + RowLog(ForOthers(reach, online), b)
      ensures Reached(w, evs, v) && In(v) && v.devs[me].forwarding.holding == u.devs[me].forwarding.holding - {b}
    {
      var ok := false;
      if b.destination in online { ok := DeliverBytes(b.destination, b.payload, false, reach); }
      evs, v := RowDone(w, past, u, me, Carried, b, ok);
      if ok { carried := carried - {b.bundleId}; }
    }

    /** attemptCarriedDelivery: expired rows go, every row whose destination is online and has a route is
        forwarded once and deleted, the rest stays. */
    method AttemptCarriedDelivery(now: nat, online: set<DeviceId>, reach: Reach, ghost w: World)
      returns (ghost evs: seq<Event>, ghost v: World)
      requires In(w) && w.now == now
      requires forall k :: k in carried ==> carried[k].bundleId == k
      modifies this`carried, this`sent
      ensures carried == Left(ForOthers(reach, online), Unexpired(old(carried), now), {})
      ensures old(sent) <= sent
      ensures OnceEach(sent[|old(sent)|..], Sendings(ForOthers(reach, online), Unexpired(old(carried), now)))
      ensures forall k :: k in carried <==>
                (k in old(carried) && now <= old(carried)[k].expiresAt
                 && (old(carried)[k].destination !in online
                     || (old(carried)[k].destination !in reach.direct && !reach.connected)))
      ensures forall k :: k in carried ==> carried[k] == old(carried)[k]
      ensures forall s :: s in sent[|old(sent)|..] <==>
                exists k :: k in old(carried) && now <= old(carried)[k].expiresAt &&
                  old(carried)[k].destination in online
                  && (old(carried)[k].destination in reach.direct || reach.connected)
                  && s == Sending(if old(carried)[k].destination in reach.direct then Direct else RelayForward,
                                  old(carried)[k].destination, old(carried)[k].payload)
      ensures Reached(w, evs, v) && In(v)
    {
      carried := map k | k in carried && now <= carried[k].expiresAt :: carried[k];
      evs, v := PassBegun(w, me, Carried);
      evs, v := ForwardRows(online, reach, w, evs, v);
      ForwardMeans(old(carried), now, reach, online);
    }

    method ForwardRows(online: set<DeviceId>, reach: Reach, ghost w: World, ghost past: seq<Event>, ghost u: World)
      returns (ghost evs: seq<Event>, ghost v: World)
      requires Reached(w, past, u) && In(u) && carried.Values <= u.devs[me].forwarding.holding
      requires forall k :: k in carried ==> carried[k].bundleId == k
      modifies this`carried, this`sent
      ensures carried == Left(ForOthers(reach, online), old(carried), {})
      ensures old(sent) <= sent && OnceEach(sent[|old(sent)|..], Sendings(ForOthers(reach, online), old(carried)))
      ensures Reached(w, evs, v) && In(v)
    {
      evs, v := past, u;
      var rows := carried;
      var todo := rows.Keys;
      ghost var pass, log := ForOthers(reach, online), [];
      PassStart(pass, rows, u.devs[me].forwarding.holding);
      while todo != {}
        invariant Reached(w, evs, v) && In(v)
        invariant PassProgress(pass, rows, todo, carried, v.devs[me].forwarding.holding, log)
        invariant sent == old(sent) + log
        decreases todo
      {
        var k :| k in todo;
        PassOne(pass, rows, todo, carried, v.devs[me].forwarding.holding, log, k);
        AppendLog(old(sent), log, RowLog(pass, rows[k]));
        evs, v := ForwardRow(rows[k], online, reach, w, evs, v);
        log := log + RowLog(pass, rows[k]);
        todo := todo - {k};
      }
      PassEnd(pass, rows, carried, v.devs[me].forwarding.holding, log);
    }

    /** One offer of offerCarrying: sent to the carrier, and recorded only if it went out live. */
    method OfferRow(o: Offering, k: MsgId, b: Bundle, ghost w: World, ghost past: seq<Event>, ghost u: World)
      returns (ghost evs: seq<Event>, ghost v: World)
      requires o.me == me && me !in o.peers && k in o.ids && k == b.bundleId && k in outbox && outbox[k] == b
      requires Reached(w, past, u) && In(u) && CanOffer(u, o, k, b)
      requires Offers(o.peers, b) && o.ids[k] !in outbox
      modifies this`outbox, this`sessions, this`sent
      ensures RowOffered(u, v, o, k, b)
      ensures outbox == OneOffer(o, k, b, old(outbox), v.sealed) && sent == old(sent) + OfferLog(o, k, b, v.sealed)
      ensures Reached(w, evs, v) && In(v)
    {
      var carrier := CarrierFor(o.peers, b).value;
      var live, env := SendOps(o.ids[k], carrier, [Carry(b.(hopLimit := b.hopLimit - 1, offeredTo := []))], 0, o.now,
                               o.reach, u.devs[me]);
      evs, v := OfferMade(w, past, u, o, k, b, env, live);
      if live {
        outbox := outbox[k := outbox[k].(hopLimit := b.hopLimit - 1, offeredTo := b.offeredTo + [carrier])];
      }
    }

    /** One row of offerCarrying's loop. */
    method OfferStep(o: Offering, k: MsgId, b: Bundle, ghost w: World, ghost past: seq<Event>, ghost u: World)
      returns (ghost evs: seq<Event>, ghost v: World)
      requires o.me == me && me !in o.peers && k in o.ids && k == b.bundleId && k in outbox && outbox[k] == b
      requires Reached(w, past, u) && In(u) && CanOffer(u, o, k, b) && o.ids[k] !in outbox
      modifies this`outbox, this`sessions, this`sent
      ensures RowOffered(u, v, o, k, b)
      ensures outbox == OneOffer(o, k, b, old(outbox), v.sealed) && sent == old(sent) + OfferLog(o, k, b, v.sealed)
      ensures Reached(w, evs, v) && In(v)
    {
      if Offers(o.peers, b) {
        evs, v := OfferRow(o, k, b, w, past, u);
      } else {
        Snoc(w, past, u, At(me, OfferSkip(b)));
        evs, v := past + [At(me, OfferSkip(b))], After(u, At(me, OfferSkip(b)));
      }
    }

    /** The next row of offerCarrying's loop, and what it adds to the log. */
    method OfferNext(o: Offering, rows: map<MsgId, Bundle>, todo: set<MsgId>, k: MsgId, ghost before: seq<Sending>,
                     ghost log: seq<Sending>, ghost w: World, ghost past: seq<Event>, ghost u: World)
      returns (ghost evs: seq<Event>, ghost v: World, ghost more: seq<Sending>)
      requires o.me == me && me !in o.peers && todo <= rows.Keys && k in todo
      requires forall j :: j in rows ==> rows[j].bundleId == j
      requires Reached(w, past, u) && In(u) && Progress(o, rows, todo, u, outbox, log) && sent == before + log
      modifies this`outbox, this`sessions, this`sent
      ensures Reached(w, evs, v) && In(v) && Progress(o, rows, todo - {k}, v, outbox, more) && sent == before + more
    {
      NextRow(o, rows, todo, u, outbox, log, k);
      ghost var was := outbox;
      evs, v := OfferStep(o, k, rows[k], w, past, u);
      ProgressMade(o, rows, todo, u, v, k, was, log);
      AppendLog(before, log, OfferLog(o, k, rows[k], v.sealed));
      more := log + OfferLog(o, k, rows[k], v.sealed);
    }

    /** offerCarrying's loop over the rows it has read. */
    method OfferRows(o: Offering, rows: map<MsgId, Bundle>, ghost w: World, ghost past: seq<Event>, ghost u: World)
      returns (ghost evs: seq<Event>, ghost v: World, ghost log: seq<Sending>)
      requires o.me == me && me !in o.peers && forall k :: k in rows ==> rows[k].bundleId == k
      requires Reached(w, past, u) && In(u) && Progress(o, rows, rows.Keys, u, outbox, [])
      modifies this`outbox, this`sessions, this`sent
      ensures sent == old(sent) + log
      ensures Reached(w, evs, v) && In(v) && Progress(o, rows, {}, v, outbox, log)
    {
      var todo := rows.Keys;
      evs, v, log := past, u, [];
      while todo != {}
        invariant todo <= rows.Keys
        invariant Progress(o, rows, todo, v, outbox, log)
        invariant sent == old(sent) + log
        invariant Reached(w, evs, v) && In(v)
        decreases todo
      {
        var k :| k in todo;
        evs, v, log := OfferNext(o, rows, todo, k, old(sent), log, w, evs, v);
        todo := todo - {k};
      }
    }

    /** offerCarrying: each row with hops left is offered to the first suitable peer.  An offer that went out
        costs the row one hop and is recorded; one that could not be sent is queued with no hops of its own. */
    method OfferCarrying(o: Offering, ghost w: World) returns (ghost evs: seq<Event>, ghost v: World)
      requires In(w) && w.now == o.now && o.me == me && me !in o.peers
      requires w.devs[me].offering == {} && w.devs[me].recording.None?
      requires forall k :: k in outbox ==> outbox[k].bundleId == k
      requires FreshIds(o, outbox, w.sealed)
      modifies this`outbox, this`sessions, this`sent
      ensures OffersSealed(o, old(outbox), v.sealed)
      ensures outbox == RowsAfter(o, old(outbox), {}) + QueueOf(o, old(outbox), v.sealed)
      ensures old(sent) <= sent && OnceEach(sent[|old(sent)|..], OfferSendings(o, old(outbox), v.sealed))
      ensures forall k :: k in old(outbox) ==>
                k in outbox && OfferedAs(o.reach, o.peers, old(outbox)[k], outbox[k])
      ensures Reached(w, evs, v) && In(v) && v.devs[me].offering == {}
    {
      var rows := outbox;
      ghost var log;
      evs, v := OfferingBegun(o, w, rows);
      evs, v, log := OfferRows(o, rows, w, evs, v);
      OfferingEnded(o, rows, v, outbox, log);
      OfferedRows(o, rows, v.sealed);
    }

    /** The operations of an accepted envelope, in order: a bundle for another device that has not expired is
        kept, unless one of its id is there already. */
    method ApplyOps(ops: seq<Op>, now: nat)
      modifies this`carried
      ensures carried == AppliedOps(old(carried), me, ops, now)
      ensures forall k :: k in carried <==>
                (k in old(carried) || exists i :: 0 <= i < |ops| && ops[i].Carry? && ops[i].bundle.bundleId == k
                                                  && ops[i].bundle.destination != me && now < ops[i].bundle.expiresAt)
      ensures forall k :: k in old(carried) ==> carried[k] == old(carried)[k]
      ensures forall k :: k in carried && k !in old(carried) ==>
                exists i :: 0 <= i < |ops| && ops[i] == Carry(carried[k])
                  && forall j :: 0 <= j < i && ops[j].Carry? && ops[j].bundle.bundleId == k ==>
                       ops[j].bundle.destination == me || ops[j].bundle.expiresAt <= now
    {
      for i := 0 to |ops|
        invariant carried == AppliedOps(old(carried), me, ops[..i], now)
      {
        var op := ops[i];
        if op.Carry? && op.bundle.destination != me && op.bundle.expiresAt > now && op.bundle.bundleId !in carried {
          carried := carried[op.bundle.bundleId := op.bundle];
        }
        assert ops[..i + 1][..i] == ops[..i] && ops[..i + 1][i] == op;
      }
      assert ops[..|ops|] == ops;
      AllCarriedIff(old(carried), me, ops, now);
    }

    /** handleIncoming, as far as these tables go: the session moves on and is saved before the key is tried. */
    method HandleIncoming(wire: Wire, newPair: nat, now: nat, ghost w: World) returns (applied: bool)
      requires In(w) && w.now == now && wire in w.net
      modifies this`carried, this`seen, this`sessions
      ensures applied <==> wire.env.to == me && wire.env.workspace == config.workspace
                           && wire.env.id !in old(seen) && wire.env == wire.signed
                           && Decrypt(SessionWith(config, old(sessions), me, wire.env.sender), wire.env.header,
                                      newPair).1
                                == Key(wire.env.key)
      ensures applied ==> seen == old(seen)[wire.env.id := now]
      ensures applied ==> carried == AppliedOps(old(carried), me, wire.env.ops, now)
      ensures sessions == if wire.env.to == me && wire.env.workspace == config.workspace && wire.env.id !in old(seen)
                             && wire.env == wire.signed
                          then old(sessions)[wire.env.sender := Decrypt(SessionWith(config, old(sessions), me,
                                                                                    wire.env.sender),
                                                                        wire.env.header, newPair).0]
                          else old(sessions)
      ensures !applied ==> seen == old(seen) && carried == old(carried)
      ensures In(After(w, At(me, Deliver(wire, newPair))))
    {
      if wire.env.to != me { return false; }
      if wire.env.workspace != config.workspace { return false; }
      if wire.env.id in seen { return false; }
      if wire.env != wire.signed { return false; }
      var (session, outcome) := Decrypt(SessionWith(config, sessions, me, wire.env.sender), wire.env.header, newPair);
      sessions := sessions[wire.env.sender := session];
      if outcome != Key(wire.env.key) { return false; }
      seen := seen[wire.env.id := now];
      ApplyOps(wire.env.ops, now);
      return true;
    }

    /** start(): old seen records are deleted. */
    method Start(now: nat, ghost w: World)
      requires In(w) && w.now == now
      modifies this`seen
      ensures forall m :: m in seen <==> m in old(seen) && now <= old(seen)[m] + 604_800_000
      ensures forall m :: m in seen ==> seen[m] == old(seen)[m]
      ensures In(After(w, At(me, Restart)))
    {
      seen := map m | m in seen && !(seen[m] + SEEN_RETENTION_MS < now) :: seen[m];
    }
  }

  lemma AllCarriedIff(carried: map<MsgId, Bundle>, me: DeviceId, ops: seq<Op>, now: nat)
    ensures var after := AppliedOps(carried, me, ops, now);
      && (forall k :: k in after <==>
            (k in carried || exists i :: 0 <= i < |ops| && ops[i].Carry? && ops[i].bundle.bundleId == k
                                         && ops[i].bundle.destination != me && now < ops[i].bundle.expiresAt))
      && (forall k :: k in carried ==> after[k] == carried[k])
      && (forall k :: k in after && k !in carried ==>
            exists i :: 0 <= i < |ops| && ops[i] == Carry(after[k])
              && forall j :: 0 <= j < i && ops[j].Carry? && ops[j].bundle.bundleId == k ==>
                   ops[j].bundle.destination == me || ops[j].bundle.expiresAt <= now)
  {
    forall k { CarriedIff(carried, me, ops, now, k); }
  }

  // ------------------------------------------------------------ passes as runs

  lemma PassBegun(w: World, me: DeviceId, t: Table) returns (evs: seq<Event>, v: World)
    requires me in w.devs
    ensures Reached(w, evs, v) && me in v.devs
    ensures var rows := Unexpired(Rows(w.devs[me], t), w.now);
            && rows.Values <= SweepOf(v.devs[me], t).holding
            && v.devs[me] == WithSweep(w.devs[me], t, rows, SweepOf(v.devs[me], t))
  {
    evs := [At(me, Begin(t)), At(me, Read(t))];
    TwoSteps(w, evs[0], evs[1]);
    v := RunFrom(w, evs);
  }

  /** A row looked at: sent and deleted, or passed over. */
  lemma RowDone(w: World, past: seq<Event>, u: World, me: DeviceId, t: Table, b: Bundle, ok: bool)
    returns (evs: seq<Event>, v: World)
    requires Reached(w, past, u) && me in u.devs && b in SweepOf(u.devs[me], t).holding
    ensures Reached(w, evs, v) && me in v.devs && SweepOf(v.devs[me], t).holding == SweepOf(u.devs[me], t).holding - {b}
    ensures var rows := Rows(u.devs[me], t);
            v.devs[me] == WithSweep(u.devs[me], t, if ok then rows - {b.bundleId} else rows, SweepOf(v.devs[me], t))
  {
    var ev := At(me, if ok then Send(t, b) else Skip(t, b));
    Snoc(w, past, u, ev);
    evs, v := past + [ev], After(u, ev);
    if ok {
      Snoc(w, evs, v, At(me, Delete(t, b.bundleId)));
      evs, v := evs + [At(me, Delete(t, b.bundleId))], After(v, At(me, Delete(t, b.bundleId)));
    }
  }

  // ------------------------------------------------------------ offering as a run

  /** The world in which offerCarrying comes to row k. */
  predicate CanOffer(u: World, o: Offering, k: MsgId, b: Bundle)
    requires k in o.ids
  {
    && o.me in u.devs && u.now == o.now && u.devs[o.me].recording.None? && b in u.devs[o.me].offering
    && o.ids[k] !in u.sealed
  }

  /** What dealing with row k changes besides the outbox and the log. */
  predicate RowOffered(u: World, v: World, o: Offering, k: MsgId, b: Bundle)
    requires k in o.ids
  {
    && o.me in u.devs && o.me in v.devs && v.now == u.now && v.devs[o.me].recording.None?
    && v.devs[o.me].offering == u.devs[o.me].offering - {b}
    && (if Offers(o.peers, b) then
          && o.ids[k] in v.sealed && OfferFor(o, k, b, v.sealed[o.ids[k]])
          && v.sealed == u.sealed[o.ids[k] := v.sealed[o.ids[k]]]
        else v.sealed == u.sealed)
  }

  lemma OfferMade(w: World, past: seq<Event>, u: World, o: Offering, k: MsgId, b: Bundle, env: Envelope, live: bool)
    returns (evs: seq<Event>, v: World)
    requires k in o.ids && k == b.bundleId && o.me !in o.peers && Offers(o.peers, b)
    requires Reached(w, past, u) && CanOffer(u, o, k, b) && k in u.devs[o.me].outbox && o.ids[k] != k
    requires env == SealedEnvelope(u.devs[o.me].config, u.devs[o.me].sessions, o.me, o.ids[k],
                                   CarrierFor(o.peers, b).value, o.now,
                                   [Carry(CarryOf(b))])
    ensures Reached(w, evs, v) && RowOffered(u, v, o, k, b) && v.sealed[o.ids[k]] == env
    ensures var dev := SentFrom(u.devs[o.me], o.me, env, 0, live);
            v.devs[o.me] == dev.(offering := u.devs[o.me].offering - {b}, recording := None,
                                 outbox := if live then Recorded(dev.outbox, Offered(b, env.to)) else dev.outbox)
  {
    var ev := At(o.me, Offer(b, env.to, env, live));
    Snoc(w, past, u, ev);
    evs, v := past + [ev], After(u, ev);
    if live {
      Snoc(w, evs, v, At(o.me, OfferRecord));
      evs, v := evs + [At(o.me, OfferRecord)], After(v, At(o.me, OfferRecord));
    }
  }

  /** How far offerCarrying has come: the rows in `todo` are still to be dealt with. */
  ghost predicate Progress(o: Offering, rows: map<MsgId, Bundle>, todo: set<MsgId>, v: World,
                           outbox: map<MsgId, Bundle>,
                           log: seq<Sending>)
    requires todo <= rows.Keys
  {
    && rows.Keys <= o.ids.Keys && o.me in v.devs && v.now == o.now && v.devs[o.me].recording.None?
    && OfferingIs(v.devs[o.me], rows, todo) && FreshLeft(o, rows, todo, v.sealed)
    && OffersSealed(o, rows - todo, v.sealed) && outbox == OutboxAfter(o, rows, todo, v.sealed)
    && OnceEach(log, OfferSendings(o, rows - todo, v.sealed))
  }

  /** The ids for the rows still to be dealt with are unused. */
  predicate FreshLeft(o: Offering, rows: map<MsgId, Bundle>, todo: set<MsgId>, sealed: map<MsgId, Envelope>)
    requires todo <= rows.Keys
  {
    && rows.Keys <= o.ids.Keys
    && (forall k :: k in o.ids ==> o.ids[k] !in rows && o.ids[k] in o.rowOf && o.rowOf[o.ids[k]] == k)
    && (forall m :: m in o.rowOf ==> o.rowOf[m] in o.ids && o.ids[o.rowOf[m]] == m)
    && forall k :: k in todo ==> o.ids[k] !in sealed
  }

  /** What the running pass still holds is the rows it has not dealt with. */
  ghost predicate OfferingIs(dev: Device, rows: map<MsgId, Bundle>, todo: set<MsgId>)
    requires todo <= rows.Keys
  {
    dev.offering == set k | k in todo :: rows[k]
  }

  lemma OfferingAfter(dev: Device, rows: map<MsgId, Bundle>, todo: set<MsgId>, k: MsgId)
    requires todo <= rows.Keys && k in todo && OfferingIs(dev, rows, todo)
    requires forall j :: j in rows ==> rows[j].bundleId == j
    ensures rows[k] in dev.offering
    ensures OfferingIs(dev.(offering := dev.offering - {rows[k]}), rows, todo - {k})
  {
    var rest := set j | j in todo - {k} :: rows[j];
    forall b ensures b in rest <==> b in dev.offering && b != rows[k] {}
  }

  /** The outbox once all rows but `todo` have been dealt with. */
  function OutboxAfter(o: Offering, rows: map<MsgId, Bundle>, todo: set<MsgId>, sealed: map<MsgId, Envelope>)
    : map<MsgId, Bundle>
  {
    RowsAfter(o, rows, todo) + QueueOf(o, rows - todo, sealed)
  }

  function OneOffer(o: Offering, k: MsgId, b: Bundle, outbox: map<MsgId, Bundle>,
                    sealed: map<MsgId, Envelope>): map<MsgId, Bundle>
    requires k in o.ids && (Offers(o.peers, b) ==> o.ids[k] in sealed)
  {
    if OffersLive(o, b) then outbox[k := RowAfterOffer(o.reach, o.peers, b)]
    else if OffersQueued(o, b) then outbox[o.ids[k] := NewBundle(sealed[o.ids[k]], 0)]
    else outbox
  }

  function OfferLog(o: Offering, k: MsgId, b: Bundle, sealed: map<MsgId, Envelope>): seq<Sending>
    requires k in o.ids && (Offers(o.peers, b) ==> o.ids[k] in sealed)
  {
    if OffersLive(o, b) then [OfferSending(o, sealed[o.ids[k]])] else []
  }

  lemma OfferingBegun(o: Offering, w: World, rows: map<MsgId, Bundle>) returns (evs: seq<Event>, v: World)
    requires o.me in w.devs && w.devs[o.me].outbox == rows && w.now == o.now && FreshIds(o, rows, w.sealed)
    requires w.devs[o.me].offering == {} && w.devs[o.me].recording.None?
    ensures Reached(w, evs, v) && Progress(o, rows, rows.Keys, v, rows, [])
    ensures v.devs[o.me] == w.devs[o.me].(offering := rows.Values)
  {
    evs := [At(o.me, OfferBegin)];
    OneStep(w, evs[0]);
    v := RunFrom(w, evs);
    StartOffering(o, v.devs[o.me], rows, v.sealed);
  }

  lemma StartOffering(o: Offering, dev: Device, rows: map<MsgId, Bundle>, sealed: map<MsgId, Envelope>)
    requires FreshIds(o, rows, sealed) && dev.offering == rows.Values
    ensures OfferingIs(dev, rows, rows.Keys) && OutboxAfter(o, rows, rows.Keys, sealed) == rows
    ensures FreshLeft(o, rows, rows.Keys, sealed) && OffersSealed(o, rows - rows.Keys, sealed)
    ensures OnceEach([], OfferSendings(o, rows - rows.Keys, sealed))
  {
    assert rows - rows.Keys == map[];
    AllHeld(rows);
    NothingQueued(o, rows, sealed);
  }

  lemma AllHeld(rows: map<MsgId, Bundle>)
    ensures rows.Values == set k | k in rows.Keys :: rows[k]
  {
    forall b ensures b in rows.Values <==> b in (set k | k in rows.Keys :: rows[k]) {}
  }

  lemma NothingQueued(o: Offering, rows: map<MsgId, Bundle>, sealed: map<MsgId, Envelope>)
    ensures QueueOf(o, map[], sealed) == map[] && RowsAfter(o, rows, rows.Keys) + map[] == rows
    ensures OfferSendings(o, map[], sealed) == map[]
  {
  }

  lemma OfferingEnded(o: Offering, rows: map<MsgId, Bundle>, v: World, outbox: map<MsgId, Bundle>, log: seq<Sending>)
    requires Progress(o, rows, {}, v, outbox, log)
    ensures OffersSealed(o, rows, v.sealed) && outbox == RowsAfter(o, rows, {}) + QueueOf(o, rows, v.sealed)
    ensures OnceEach(log, OfferSendings(o, rows, v.sealed)) && v.devs[o.me].offering == {}
  {
    NoneLeft(rows);
  }

  lemma NextRow(o: Offering, rows: map<MsgId, Bundle>, todo: set<MsgId>, u: World, outbox: map<MsgId, Bundle>,
                log: seq<Sending>, k: MsgId)
    requires todo <= rows.Keys && k in todo && Progress(o, rows, todo, u, outbox, log)
    ensures k in o.ids && CanOffer(u, o, k, rows[k]) && k in outbox && outbox[k] == rows[k] && o.ids[k] !in outbox
  {
    assert rows[k] in u.devs[o.me].offering;
    OneOfferAfter(o, rows, todo, k, u.sealed);
  }

  /** The row dealt with adds at most one entry to the queue. */
  lemma QueueAfterOne(o: Offering, rows: map<MsgId, Bundle>, todo: set<MsgId>, k: MsgId, u: World, v: World)
    requires todo <= rows.Keys && k in todo && FreshLeft(o, rows, todo, u.sealed) && RowOffered(u, v, o, k, rows[k])
    ensures var was := QueueOf(o, rows - todo, u.sealed);
            && o.ids[k] !in was
            && QueueOf(o, rows - (todo - {k}), v.sealed) ==
                 if OffersQueued(o, rows[k]) then was[o.ids[k] := NewBundle(v.sealed[o.ids[k]], 0)] else was
  {
    var was, got := QueueOf(o, rows - todo, u.sealed), QueueOf(o, rows - (todo - {k}), v.sealed);
    forall m | m in o.rowOf && o.rowOf[m] != k ensures m in got <==> m in was && (m in got ==> got[m] == was[m]) {
      assert m != o.ids[k];
    }
    assert forall m :: m in got && m != o.ids[k] ==> m in was && got[m] == was[m];
    assert forall m :: m in was ==> m in got && got[m] == was[m] && m != o.ids[k];
    assert o.ids[k] in got <==> OffersQueued(o, rows[k]);
    SameButOne(got, was, o.ids[k]);
  }

  lemma SameButOne(got: map<MsgId, Bundle>, was: map<MsgId, Bundle>, m: MsgId)
    requires forall j :: j in got && j != m ==> j in was && got[j] == was[j]
    requires forall j :: j in was ==> j in got && got[j] == was[j] && j != m
    ensures got == if m in got then was[m := got[m]] else was
  {
  }

  lemma RowsAfterOne(o: Offering, rows: map<MsgId, Bundle>, todo: set<MsgId>, k: MsgId)
    requires k in todo && k in rows
    ensures RowsAfter(o, rows, todo).Keys == rows.Keys && RowsAfter(o, rows, todo)[k] == rows[k]
    ensures RowsAfter(o, rows, todo - {k}) ==
              if OffersLive(o, rows[k]) then RowsAfter(o, rows, todo)[k := RowAfterOffer(o.reach, o.peers, rows[k])]
              else RowsAfter(o, rows, todo)
  {
    assert RowsAfter(o, rows, todo - {k}) == RowsAfter(o, rows, todo)[k := RowAfterOffer(o.reach, o.peers, rows[k])];
    assert RowsAfter(o, rows, todo)[k := rows[k]] == RowsAfter(o, rows, todo);
  }

  lemma OneOfferAfter(o: Offering, rows: map<MsgId, Bundle>, todo: set<MsgId>, k: MsgId, sealed: map<MsgId, Envelope>)
    requires todo <= rows.Keys && k in todo && FreshLeft(o, rows, todo, sealed)
    ensures var was := OutboxAfter(o, rows, todo, sealed); k in was && was[k] == rows[k] && o.ids[k] !in was
  {
    RowsAfterOne(o, rows, todo, k);
    assert k !in QueueOf(o, rows - todo, sealed);
  }

  lemma OutboxMade(o: Offering, rows: map<MsgId, Bundle>, todo: set<MsgId>, u: World, v: World, k: MsgId)
    requires todo <= rows.Keys && k in todo && FreshLeft(o, rows, todo, u.sealed) && RowOffered(u, v, o, k, rows[k])
    ensures OneOffer(o, k, rows[k], OutboxAfter(o, rows, todo, u.sealed), v.sealed) ==
            OutboxAfter(o, rows, todo - {k}, v.sealed)
  {
    RowsAfterOne(o, rows, todo, k);
    QueueAfterOne(o, rows, todo, k, u, v);
    if OffersQueued(o, rows[k]) {
      UpdateRight(RowsAfter(o, rows, todo), QueueOf(o, rows - todo, u.sealed), o.ids[k],
                  NewBundle(v.sealed[o.ids[k]], 0));
    } else if OffersLive(o, rows[k]) {
      UpdateLeft(RowsAfter(o, rows, todo), QueueOf(o, rows - todo, u.sealed), k,
                 RowAfterOffer(o.reach, o.peers, rows[k]));
    }
  }

  lemma UpdateRight(a: map<MsgId, Bundle>, c: map<MsgId, Bundle>, k: MsgId, b: Bundle)
    ensures a + c[k := b] == (a + c)[k := b]
  {
  }

  lemma UpdateLeft(a: map<MsgId, Bundle>, c: map<MsgId, Bundle>, k: MsgId, b: Bundle)
    ensures k !in c ==> a[k := b] + c == (a + c)[k := b]
  {
  }

  /** Sealing the offer for row k changes nothing about the rows dealt with before. */
  lemma SameSendings(o: Offering, rows: map<MsgId, Bundle>, done: map<MsgId, Bundle>, u: World, v: World, k: MsgId)
    requires rows.Keys <= o.ids.Keys && done.Keys <= rows.Keys && k in rows && k !in done
    requires forall j :: j in o.ids ==> o.ids[j] in o.rowOf && o.rowOf[o.ids[j]] == j
    requires RowOffered(u, v, o, k, rows[k])
    ensures OfferSendings(o, done, v.sealed) == OfferSendings(o, done, u.sealed)
    ensures OffersSealed(o, done, u.sealed) ==> OffersSealed(o, done, v.sealed)
  {
    assert forall j :: j in done ==> o.ids[j] != o.ids[k];
  }

  lemma LogMade(o: Offering, rows: map<MsgId, Bundle>, todo: set<MsgId>, sealed: map<MsgId, Envelope>, k: MsgId,
                log: seq<Sending>)
    requires rows.Keys <= o.ids.Keys && todo <= rows.Keys && k in todo
    requires Offers(o.peers, rows[k]) ==> o.ids[k] in sealed
    requires OnceEach(log, OfferSendings(o, rows - todo, sealed))
    ensures OnceEach(log + OfferLog(o, k, rows[k], sealed), OfferSendings(o, rows - (todo - {k}), sealed))
  {
    var done := OfferSendings(o, rows - todo, sealed);
    if OffersLive(o, rows[k]) {
      var s := OfferSending(o, sealed[o.ids[k]]);
      assert OfferSendings(o, rows - (todo - {k}), sealed) == done[k := s];
      OneMore(log, done, k, s);
    } else {
      assert OfferSendings(o, rows - (todo - {k}), sealed) == done;
      assert log + [] == log;
    }
  }

  lemma FreshMade(o: Offering, rows: map<MsgId, Bundle>, todo: set<MsgId>, u: World, v: World, k: MsgId)
    requires todo <= rows.Keys && k in todo && FreshLeft(o, rows, todo, u.sealed) && RowOffered(u, v, o, k, rows[k])
    requires OffersSealed(o, rows - todo, u.sealed)
    ensures FreshLeft(o, rows, todo - {k}, v.sealed) && OffersSealed(o, rows - (todo - {k}), v.sealed)
  {
    SameSendings(o, rows, rows - todo, u, v, k);
    assert forall j :: j in todo - {k} ==> o.ids[j] != o.ids[k];
    forall j | j in rows - (todo - {k}) && Offers(o.peers, rows[j])
      ensures o.ids[j] in v.sealed && OfferFor(o, j, rows[j], v.sealed[o.ids[j]])
    {
      if j != k { assert j in rows - todo; }
    }
  }

  lemma ProgressMade(o: Offering, rows: map<MsgId, Bundle>, todo: set<MsgId>, u: World, v: World, k: MsgId,
                     outbox: map<MsgId, Bundle>, log: seq<Sending>)
    requires rows.Keys <= o.ids.Keys && todo <= rows.Keys && k in todo
    requires RowOffered(u, v, o, k, rows[k]) && forall j :: j in rows ==> rows[j].bundleId == j
    requires Progress(o, rows, todo, u, outbox, log)
    ensures Progress(o, rows, todo - {k}, v, OneOffer(o, k, rows[k], outbox, v.sealed),
                     log + OfferLog(o, k, rows[k], v.sealed))
  {
    assert OfferingIs(v.devs[o.me], rows, todo - {k}) by { OfferingAfter(u.devs[o.me], rows, todo, k); }
    FreshMade(o, rows, todo, u, v, k);
    OutboxMade(o, rows, todo, u, v, k);
    SameSendings(o, rows, rows - todo, u, v, k);
    LogMade(o, rows, todo, v.sealed, k, log);
  }
}
