/** Store-carry-forward between devices (packages/sync/src/engine.ts): sealed envelopes sent
    directly, queued in an outbox, offered to carriers and forwarded by them.  Two things drop repeats:
    the `seen` table, which forgets, and the ratchet sessions, which do not.
    Any number of devices, one shared clock. */
module Mesh {
  import opened Ratchet
  import opened Wrappers
  import RatchetKeys

  const OUTBOX_TTL_MS: nat := 604_800_000
  const SEEN_RETENTION_MS: nat := 604_800_000

  type DeviceId = nat
  type MsgId = nat

  /** What an envelope carries: a bundle to carry, or anything else. */
  datatype Op = Carry(bundle: Bundle) | Other(payload: nat)

  /** The signed part of a SecureEnvelope: its ratchet header, and in place of the ciphertext
      the operations and the message key that opens them. */
  datatype Envelope = Envelope(id: MsgId, workspace: nat, sender: DeviceId, to: DeviceId, createdAt: nat,
                               header: Header, key: Bytes, ops: seq<Op>)

  /** Bytes on the wire: an envelope and the signature that `signed.sender` made over `signed`. */
  datatype Wire = Wire(env: Envelope, signed: Envelope)

  datatype Bundle = Bundle(bundleId: MsgId, destination: DeviceId, payload: Wire, expiresAt: nat,
                           hopLimit: nat, offeredTo: seq<DeviceId>)

  predicate Genuine(w: Wire) { w.env == w.signed }

  // ------------------------------------------------------------ one device

  /** The two tables of bundles: this device's own, and those it carries for others. */
  datatype Table = Outbox | Carried

  /** The passes over one table: how many have deleted what had expired but not yet read the rest, the rows
      read that may still be sent, and the rows sent that are still to be deleted. */
  datatype Sweep = Sweep(begun: nat, holding: set<Bundle>, sent: set<MsgId>)

  /** An offer that went out and is still to be recorded. */
  datatype Offered = Offered(b: Bundle, carrier: DeviceId)

  /** What a device knows from pairing: its workspace and the pairing secret. */
  datatype Config = Config(workspace: nat, secret: nat)

  /** The tables of one device and what its running passes hold in memory. */
  datatype Device = Device(config: Config, outbox: map<MsgId, Bundle>, carried: map<MsgId, Bundle>,
                           seen: map<MsgId, nat>, sessions: map<DeviceId, Session>, draining: Sweep, forwarding: Sweep,
                           offering: set<Bundle>, recording: Option<Offered>)

  function EmptyDevice(config: Config): Device {
    Device(config, map[], map[], map[], map[], NoSweep(), NoSweep(), {}, None)
  }

  function NoSweep(): Sweep { Sweep(0, {}, {}) }

  function Rows(dev: Device, t: Table): map<MsgId, Bundle> { if t.Outbox? then dev.outbox else dev.carried }

  function SweepOf(dev: Device, t: Table): Sweep { if t.Outbox? then dev.draining else dev.forwarding }

  function WithSweep(dev: Device, t: Table, rows: map<MsgId, Bundle>, sweep: Sweep): Device {
    if t.Outbox? then dev.(outbox := rows, draining := sweep) else dev.(carried := rows, forwarding := sweep)
  }

  function Unexpired(rows: map<MsgId, Bundle>, now: nat): map<MsgId, Bundle> {
    map k | k in rows && now <= rows[k].expiresAt :: rows[k]
  }

  /** ratchetSessionFor: the stored session, or a new one.  The identity key pair of device d is named d. */
  function SessionWith(config: Config, sessions: map<DeviceId, Session>, me: DeviceId, peer: DeviceId): Session {
    if peer in sessions then sessions[peer] else InitSession(config.secret, config.workspace, me, me, peer, peer)
  }

  /** The envelope sendOps seals. */
  function SealedEnvelope(
    config: Config, sessions: map<DeviceId, Session>, me: DeviceId, id: MsgId, to: DeviceId, now: nat, ops: seq<Op>)
    : Envelope
  {
    var (_, header, key) := Encrypt(SessionWith(config, sessions, me, to));
    Envelope(id, config.workspace, me, to, now, header, key, ops)
  }

  function NewBundle(env: Envelope, hopLimit: nat): Bundle {
    Bundle(env.id, env.to, Wire(env, env), env.createdAt + OUTBOX_TTL_MS, hopLimit, [])
  }

  /** sendOps: the session moves on, and a message without a live route is queued. */
  function SentFrom(dev: Device, me: DeviceId, env: Envelope, hopLimit: nat, live: bool): Device {
    var moved := dev.(sessions := dev.sessions[env.to := Encrypt(SessionWith(dev.config, dev.sessions, me, env.to)).0]);
    if live then moved else moved.(outbox := moved.outbox[env.id := NewBundle(env, hopLimit)])
  }

  /** The message that hands bundle b to a carrier. */
  function CarryOf(b: Bundle): Bundle
    requires b.hopLimit > 0
  {
    b.(hopLimit := b.hopLimit - 1, offeredTo := [])
  }

  /** A recorded offer: the stored row, if it is still there, gets the new budget. */
  function Recorded(outbox: map<MsgId, Bundle>, o: Offered): map<MsgId, Bundle>
    requires o.b.hopLimit > 0
  {
    if o.b.bundleId in outbox then
      outbox[o.b.bundleId :=
        outbox[o.b.bundleId].(hopLimit := o.b.hopLimit - 1, offeredTo := o.b.offeredTo + [o.carrier])]
    else outbox
  }

  /** CARRY_BUNDLE on a carrier; every other operation leaves these tables alone. */
  function AppliedOp(carried: map<MsgId, Bundle>, me: DeviceId, op: Op, now: nat): map<MsgId, Bundle> {
    match op
    case Other(_) => carried
    case Carry(b) =>
      if b.destination == me || b.expiresAt <= now || b.bundleId in carried then carried
      else carried[b.bundleId := b]
  }

  function AppliedOps(carried: map<MsgId, Bundle>, me: DeviceId, ops: seq<Op>, now: nat): map<MsgId, Bundle> {
    if ops == [] then carried
    else AppliedOp(AppliedOps(carried, me, ops[..|ops| - 1], now), me, ops[|ops| - 1], now)
  }

  /** A bundle of this id that a carrier would store. */
  predicate Keeps(op: Op, me: DeviceId, now: nat, k: MsgId) {
    op.Carry? && op.bundle.bundleId == k && op.bundle.destination != me && now < op.bundle.expiresAt
  }

  predicate FirstKept(ops: seq<Op>, i: nat, me: DeviceId, now: nat, k: MsgId) {
    i < |ops| && Keeps(ops[i], me, now, k) && forall j :: 0 <= j < i ==> !Keeps(ops[j], me, now, k)
  }

  lemma {:induction false} CarriedRow(carried: map<MsgId, Bundle>, me: DeviceId, ops: seq<Op>, now: nat, k: MsgId)
    returns (i: nat)
    ensures var after := AppliedOps(carried, me, ops, now);
            && (k in carried ==> k in after && after[k] == carried[k])
            && (k !in carried && k in after ==> FirstKept(ops, i, me, now, k) && after[k] == ops[i].bundle)
            && (k !in after ==> forall j :: 0 <= j < |ops| ==> !Keeps(ops[j], me, now, k))
  {
    if ops == [] {
      i := 0;
    } else {
      var last := |ops| - 1;
      i := CarriedRow(carried, me, ops[..last], now, k);
      var before := AppliedOps(carried, me, ops[..last], now);
      assert forall j :: 0 <= j < last ==> ops[..last][j] == ops[j];
      if k !in before { i := last; }
    }
  }

  /** What a carrier holds after an envelope, whatever it held before: an id is there exactly when it was there or
      some operation carries an unexpired bundle of that id for another device; a row that was there stays as it
      was, and a new one is the first such bundle. */
  lemma CarriedIff(carried: map<MsgId, Bundle>, me: DeviceId, ops: seq<Op>, now: nat, k: MsgId)
    ensures var after := AppliedOps(carried, me, ops, now);
      && (k in after <==> (k in carried || exists i :: 0 <= i < |ops| && ops[i].Carry? && ops[i].bundle.bundleId == k
                                                       && ops[i].bundle.destination != me
                                                       && now < ops[i].bundle.expiresAt))
      && (k in carried ==> after[k] == carried[k])
      && (k in after && k !in carried ==>
            exists i :: 0 <= i < |ops| && ops[i] == Carry(after[k])
              && forall j :: 0 <= j < i && ops[j].Carry? && ops[j].bundle.bundleId == k ==>
                   ops[j].bundle.destination == me || ops[j].bundle.expiresAt <= now)
  {
    var i := CarriedRow(carried, me, ops, now, k);
    var after := AppliedOps(carried, me, ops, now);
    if k in after && k !in carried {
      assert Keeps(ops[i], me, now, k) && ops[i] == Carry(after[k]);
      forall j | 0 <= j < i && ops[j].Carry? && ops[j].bundle.bundleId == k
        ensures ops[j].bundle.destination == me || ops[j].bundle.expiresAt <= now
      {
        assert !Keeps(ops[j], me, now, k);
      }
    }
    forall j | 0 <= j < |ops| && k !in after ensures !Keeps(ops[j], me, now, k) {}
  }

  /** Whether handleIncoming gets as far as the ratchet. */
  predicate Admits(dev: Device, me: DeviceId, w: Wire) {
    w.env.to == me && w.env.workspace == dev.config.workspace && w.env.id !in dev.seen && Genuine(w)
  }

  /** ratchetDecrypt on the envelope's header; `newPair` names the key pair it would generate. */
  function Opening(dev: Device, me: DeviceId, w: Wire, newPair: nat): (Session, Outcome) {
    Decrypt(SessionWith(dev.config, dev.sessions, me, w.env.sender), w.env.header, newPair)
  }

  /** Whether it gets as far as applying the operations: the ratchet must yield the envelope's own key. */
  predicate Accepts(dev: Device, me: DeviceId, w: Wire, newPair: nat) {
    Admits(dev, me, w) && Opening(dev, me, w, newPair).1 == Key(w.env.key)
  }

  /** The session is saved before anything else, also when the key turns out to be another one. */
  function Opened(dev: Device, me: DeviceId, w: Wire, newPair: nat): Device {
    if Admits(dev, me, w) then dev.(sessions := dev.sessions[w.env.sender := Opening(dev, me, w, newPair).0]) else dev
  }

  function Received(dev: Device, me: DeviceId, w: Wire, newPair: nat, now: nat): Device {
    var saved := Opened(dev, me, w, newPair);
    if Accepts(dev, me, w, newPair)
    then saved.(seen := dev.seen[w.env.id := now], carried := AppliedOps(dev.carried, me, w.env.ops, now))
    else saved
  }

  predicate Prunable(seenAt: nat, now: nat) { seenAt + SEEN_RETENTION_MS < now }

  /** start(): running passes are gone, sessions are read back, and old seen records are deleted. */
  function Restarted(dev: Device, now: nat): Device {
    dev.(seen := map m | m in dev.seen && !Prunable(dev.seen[m], now) :: dev.seen[m],
         draining := NoSweep(), forwarding := NoSweep(), offering := {}, recording := None)
  }

  /** What a device does.  Begin, Read, Send, Delete and Skip are the awaits of drainOutbox (on the outbox) and
      attemptCarriedDelivery (on the carried table); OfferBegin to OfferSkip those of offerCarrying.
      Interrupt is a handleIncoming that ends once the session is saved. */
  datatype Action =
    | Seal(env: Envelope, hopLimit: nat, live: bool)
    | Begin(t: Table)
    | Read(t: Table)
    | Send(t: Table, b: Bundle)
    | Delete(t: Table, m: MsgId)
    | Skip(t: Table, b: Bundle)
    | OfferBegin
    | Offer(b: Bundle, carrier: DeviceId, env: Envelope, live: bool)
    | OfferRecord
    | OfferSkip(b: Bundle)
    | Deliver(w: Wire, newPair: nat)
    | Interrupt(w: Wire, newPair: nat)
    | Restart

  predicate Sweeping(act: Action) { act.Begin? || act.Read? || act.Send? || act.Delete? || act.Skip? }

  predicate Seals(act: Action) { act.Seal? || act.Offer? }

  predicate Incoming(act: Action) { act.Deliver? || act.Interrupt? }

  predicate Can(dev: Device, me: DeviceId, act: Action) {
    match act
    case Seal(env, _, _) => forall op :: op in env.ops ==> op.Other?
    case Read(t) => SweepOf(dev, t).begun > 0
    case Send(t, b) => b in SweepOf(dev, t).holding
    case Delete(t, m) => m in SweepOf(dev, t).sent
    case OfferBegin => dev.offering == {} && dev.recording.None?
    case Offer(b, carrier, env, _) =>
      && b in dev.offering && dev.recording.None? && b.hopLimit > 0
      && carrier != me && carrier != b.destination && carrier !in b.offeredTo
      && env.to == carrier && env.ops == [Carry(CarryOf(b))]
    case OfferRecord => dev.recording.Some? && dev.recording.value.b.hopLimit > 0
    case _ => true
  }

  /** One pass over table t. */
  function Swept(dev: Device, t: Table, act: Action, now: nat): Device {
    var rows, s := Rows(dev, t), SweepOf(dev, t);
    match act
    case Begin(_) => WithSweep(dev, t, Unexpired(rows, now), s.(begun := s.begun + 1))
    case Read(_) =>
      var begun := if s.begun > 0 then s.begun - 1 else 0;
      WithSweep(dev, t, rows, s.(begun := begun, holding := s.holding + rows.Values))
    case Send(_, b) => WithSweep(dev, t, rows, s.(holding := s.holding - {b}, sent := s.sent + {b.bundleId}))
    case Delete(_, m) => WithSweep(dev, t, rows - {m}, s.(sent := s.sent - {m}))
    case Skip(_, b) => WithSweep(dev, t, rows, s.(holding := s.holding - {b}))
    case _ => dev
  }

  /** The device after one action. */
  function Acted(dev: Device, me: DeviceId, act: Action, now: nat): Device
    requires Can(dev, me, act)
  {
    match act
    case Seal(env, hopLimit, live) => SentFrom(dev, me, env, hopLimit, live)
    case OfferBegin => dev.(offering := dev.outbox.Values)
    case Offer(b, carrier, env, live) =>
      SentFrom(dev, me, env, 0, live).(offering := dev.offering - {b},
                                       recording := if live then Some(Offered(b, carrier)) else None)
    case OfferRecord => dev.(outbox := Recorded(dev.outbox, dev.recording.value), recording := None)
    case OfferSkip(b) => dev.(offering := dev.offering - {b})
    case Deliver(w, newPair) => Received(dev, me, w, newPair, now)
    case Interrupt(w, newPair) => Opened(dev, me, w, newPair)
    case Restart => Restarted(dev, now)
    case _ => Swept(dev, act.t, act, now)
  }

  // ------------------------------------------------------------ the mesh

  datatype Applied = Applied(at: DeviceId, env: Envelope)

  /** `sealed`, `hops` and `applied` are history: every envelope ever sealed, the hop limit it was
      sealed with, and every application of an envelope's operations. */
  datatype World = World(now: nat, devs: map<DeviceId, Device>, net: set<Wire>,
                         sealed: map<MsgId, Envelope>, hops: map<MsgId, nat>, applied: seq<Applied>)

  /** The network keeps copies for as long as it likes, loses them, and alters them. */
  datatype Event = Tick(ms: nat) | Drop(w: Wire) | Corrupt(w: Wire, env: Envelope) | At(d: DeviceId, act: Action)

  function HopsOf(act: Action): nat { if act.Seal? then act.hopLimit else 0 }

  /** A new envelope: a fresh id, this device as sender, the present time, the session's next key. */
  predicate NewEnvelope(w: World, d: DeviceId, env: Envelope)
    requires d in w.devs
  {
    env.id !in w.sealed && env ==
      SealedEnvelope(w.devs[d].config, w.devs[d].sessions, d, env.id, env.to, w.now, env.ops)
  }

  predicate Enabled(w: World, ev: Event) {
    match ev
    case Tick(_) => true
    case Drop(_) => true
    case Corrupt(wire, env) => wire in w.net && env != wire.signed
    case At(d, act) =>
      && d in w.devs && Can(w.devs[d], d, act)
      && (Seals(act) ==> NewEnvelope(w, d, act.env)) && (Incoming(act) ==> act.w in w.net)
  }

  /** What an action puts on the network. */
  function Emitted(act: Action): set<Wire> {
    if Seals(act) && act.live then {Wire(act.env, act.env)} else if act.Send? then {act.b.payload} else {}
  }

  function After(w: World, ev: Event): World
    requires Enabled(w, ev)
  {
    match ev
    case Tick(ms) => w.(now := w.now + ms)
    case Drop(wire) => w.(net := w.net - {wire})
    case Corrupt(wire, env) => w.(net := w.net + {Wire(env, wire.signed)})
    case At(d, act) =>
      World(w.now, w.devs[d := Acted(w.devs[d], d, act, w.now)], w.net + Emitted(act),
            if Seals(act) then w.sealed[act.env.id := act.env] else w.sealed,
            if Seals(act) then w.hops[act.env.id := HopsOf(act)] else w.hops,
            if act.Deliver? && Accepts(w.devs[d], d, act.w, act.newPair) then w.applied + [Applied(d, act.w.env)]
            else w.applied)
  }

  predicate Legal(w: World, evs: seq<Event>)
    decreases |evs|
  {
    evs == [] || (Enabled(w, evs[0]) && Legal(After(w, evs[0]), evs[1..]))
  }

  function RunFrom(w: World, evs: seq<Event>): World
    requires Legal(w, evs)
    decreases |evs|
  {
    if evs == [] then w else RunFrom(After(w, evs[0]), evs[1..])
  }

  /** Nothing sealed, queued, carried or under way; any devices, at any time. */
  predicate Initial(w: World) {
    && w.net == {} && w.sealed == map[] && w.hops == map[] && w.applied == []
    && forall d :: d in w.devs ==> w.devs[d] == EmptyDevice(w.devs[d].config)
  }

  // ------------------------------------------------------------ copies are the sealed envelope

  predicate IsSealed(sealed: map<MsgId, Envelope>, env: Envelope) { env.id in sealed && sealed[env.id] == env }

  predicate BundleOk(sealed: map<MsgId, Envelope>, b: Bundle) {
    && Genuine(b.payload) && IsSealed(sealed, b.payload.env) && b.bundleId == b.payload.env.id
    && b.destination == b.payload.env.to && b.expiresAt == b.payload.env.createdAt + OUTBOX_TTL_MS
  }

  ghost predicate RowsOk(sealed: map<MsgId, Envelope>, rows: map<MsgId, Bundle>) {
    forall k :: k in rows ==> k == rows[k].bundleId && BundleOk(sealed, rows[k])
  }

  ghost predicate BundlesOk(sealed: map<MsgId, Envelope>, bs: set<Bundle>) {
    forall b :: b in bs ==> BundleOk(sealed, b)
  }

  ghost predicate SeenOk(sealed: map<MsgId, Envelope>, seen: map<MsgId, nat>, now: nat) {
    forall m :: m in seen ==> m in sealed && sealed[m].createdAt <= seen[m] <= now
  }

  /** The rows of both tables, and everything the passes hold. */
  ghost predicate TablesOk(sealed: map<MsgId, Envelope>, dev: Device) {
    && RowsOk(sealed, dev.outbox) && RowsOk(sealed, dev.carried)
    && BundlesOk(sealed, dev.draining.holding) && BundlesOk(sealed, dev.forwarding.holding)
    && BundlesOk(sealed, dev.offering) && (dev.recording.Some? ==> BundleOk(sealed, dev.recording.value.b))
  }

  predicate OpOk(sealed: map<MsgId, Envelope>, op: Op) { op.Carry? ==> BundleOk(sealed, op.bundle) }

  ghost predicate OpsOk(sealed: map<MsgId, Envelope>, ops: seq<Op>) { forall op :: op in ops ==> OpOk(sealed, op) }

  ghost predicate SealedOk(sealed: map<MsgId, Envelope>, now: nat) {
    forall m :: m in sealed ==> sealed[m].id == m && sealed[m].createdAt <= now && OpsOk(sealed, sealed[m].ops)
  }

  ghost predicate NetOk(sealed: map<MsgId, Envelope>, net: set<Wire>) {
    forall wire :: wire in net ==> IsSealed(sealed, wire.signed)
  }

  /** Addressed to this device, in its workspace. */
  predicate MeantFor(w: World, d: DeviceId, env: Envelope) {
    d in w.devs && env.to == d && env.workspace == w.devs[d].config.workspace
  }

  predicate AppliedOk(w: World, a: Applied) { IsSealed(w.sealed, a.env) && MeantFor(w, a.at, a.env) }

  /** A message that no pass may read from a table any more. */
  predicate Expired(w: World, m: MsgId) { m in w.sealed && w.sealed[m].createdAt + OUTBOX_TTL_MS < w.now }

  predicate Remembered(w: World, a: Applied) {
    a.at in w.devs && (a.env.id in w.devs[a.at].seen || Expired(w, a.env.id))
  }

  ghost predicate Inv(w: World) {
    && SealedOk(w.sealed, w.now) && NetOk(w.sealed, w.net)
    && (forall d :: d in w.devs ==> TablesOk(w.sealed, w.devs[d]) && SeenOk(w.sealed, w.devs[d].seen, w.now))
    && (forall a :: a in w.applied ==> AppliedOk(w, a) && Remembered(w, a))
  }

  // ------------------------------------------------------------ every step keeps the invariant

  predicate Extends(a: map<MsgId, Envelope>, b: map<MsgId, Envelope>) { forall m :: m in a ==> m in b && b[m] == a[m] }

  lemma SealedGrows(w: World, ev: Event)
    requires Enabled(w, ev)
    ensures Extends(w.sealed, After(w, ev).sealed) && w.now <= After(w, ev).now
    ensures w.devs.Keys <= After(w, ev).devs.Keys
  {
  }

  lemma ActedConfig(dev: Device, me: DeviceId, act: Action, now: nat)
    requires Can(dev, me, act)
    ensures Acted(dev, me, act, now).config == dev.config
  {
    if Sweeping(act) { assert Swept(dev, act.t, act, now).config == dev.config; }
  }

  /** Nobody changes workspace or pairing secret. */
  lemma SameConfigs(w: World, ev: Event)
    requires Enabled(w, ev)
    ensures After(w, ev).devs.Keys == w.devs.Keys
    ensures forall d :: d in w.devs ==> After(w, ev).devs[d].config == w.devs[d].config
  {
    if ev.At? { ActedConfig(w.devs[ev.d], ev.d, ev.act, w.now); }
  }

  lemma BundleGrows(a: map<MsgId, Envelope>, b: map<MsgId, Envelope>, bundle: Bundle)
    requires Extends(a, b) && BundleOk(a, bundle)
    ensures BundleOk(b, bundle)
  {
  }

  lemma TablesGrow(a: map<MsgId, Envelope>, b: map<MsgId, Envelope>, dev: Device)
    requires Extends(a, b) && TablesOk(a, dev)
    ensures TablesOk(b, dev)
  {
    forall bundle | BundleOk(a, bundle) ensures BundleOk(b, bundle) { BundleGrows(a, b, bundle); }
  }

  lemma SealedStillOk(sealed: map<MsgId, Envelope>, now: nat, env: Envelope)
    requires SealedOk(sealed, now) && env.id !in sealed && env.createdAt == now && OpsOk(sealed, env.ops)
    ensures SealedOk(sealed[env.id := env], now)
  {
    var grown := sealed[env.id := env];
    forall op | OpOk(sealed, op) ensures OpOk(grown, op) { if op.Carry? { BundleGrows(sealed, grown, op.bundle); } }
    forall m | m in grown ensures grown[m].id == m && grown[m].createdAt <= now && OpsOk(grown, grown[m].ops) {
      assert OpsOk(sealed, grown[m].ops);
    }
  }

  /** A queued message is the sealed envelope. */
  lemma SentTables(sealed: map<MsgId, Envelope>, dev: Device, me: DeviceId, env: Envelope, hopLimit: nat, live: bool)
    requires TablesOk(sealed, dev) && IsSealed(sealed, env)
    ensures TablesOk(sealed, SentFrom(dev, me, env, hopLimit, live))
  {
    var outbox := SentFrom(dev, me, env, hopLimit, live).outbox;
    assert RowsOk(sealed, outbox) by { assert BundleOk(sealed, NewBundle(env, hopLimit)); }
  }

  lemma OfferedTables(sealed: map<MsgId, Envelope>, dev: Device, b: Bundle, recording: Option<Offered>)
    requires TablesOk(sealed, dev) && BundleOk(sealed, b) && (recording.Some? ==> recording.value.b == b)
    ensures TablesOk(sealed, dev.(offering := dev.offering - {b}, recording := recording))
  {
  }

  lemma {:induction false} AppliedOpsOk(
    sealed: map<MsgId, Envelope>, carried: map<MsgId, Bundle>, me: DeviceId, ops: seq<Op>, now: nat)
    requires RowsOk(sealed, carried) && OpsOk(sealed, ops)
    ensures RowsOk(sealed, AppliedOps(carried, me, ops, now))
  {
    if ops != [] {
      AppliedOpsOk(sealed, carried, me, ops[..|ops| - 1], now);
      assert OpOk(sealed, ops[|ops| - 1]);
    }
  }

  /** The awaits of a pass over one table. */
  lemma SweptTables(sealed: map<MsgId, Envelope>, dev: Device, t: Table, act: Action, now: nat)
    requires TablesOk(sealed, dev)
    ensures TablesOk(sealed, Swept(dev, t, act, now))
  {
    var rows, s := Rows(dev, t), SweepOf(dev, t);
    assert RowsOk(sealed, rows) && BundlesOk(sealed, s.holding);
    assert BundlesOk(sealed, rows.Values) by {
      forall b | b in rows.Values ensures BundleOk(sealed, b) { var k :| k in rows && rows[k] == b; }
    }
    assert RowsOk(sealed, Unexpired(rows, now));
  }

  lemma RecordedOk(sealed: map<MsgId, Envelope>, outbox: map<MsgId, Bundle>, o: Offered)
    requires RowsOk(sealed, outbox) && o.b.hopLimit > 0
    ensures RowsOk(sealed, Recorded(outbox, o))
  {
  }

  lemma ReceivedTables(sealed: map<MsgId, Envelope>, dev: Device, me: DeviceId, w: Wire, newPair: nat, now: nat)
    requires TablesOk(sealed, dev) && (Genuine(w) ==> OpsOk(sealed, w.env.ops))
    ensures TablesOk(sealed, Received(dev, me, w, newPair, now))
  {
    if Accepts(dev, me, w, newPair) { AppliedOpsOk(sealed, dev.carried, me, w.env.ops, now); }
  }

  lemma ActedTables(sealed: map<MsgId, Envelope>, dev: Device, me: DeviceId, act: Action, now: nat)
    requires TablesOk(sealed, dev) && Can(dev, me, act)
    requires Seals(act) ==> IsSealed(sealed, act.env)
    requires act.Deliver? && Genuine(act.w) ==> OpsOk(sealed, act.w.env.ops)
    ensures TablesOk(sealed, Acted(dev, me, act, now))
  {
    match act
    case Seal(env, hopLimit, live) => SentTables(sealed, dev, me, env, hopLimit, live);
    case Offer(b, carrier, env, live) =>
      SentTables(sealed, dev, me, env, 0, live);
      OfferedTables(sealed, SentFrom(dev, me, env, 0, live), b, if live then Some(Offered(b, carrier)) else None);
    case OfferBegin =>
      forall b | b in dev.outbox.Values ensures BundleOk(sealed, b) { var k :| k in dev.outbox && dev.outbox[k] == b; }
    case OfferRecord => RecordedOk(sealed, dev.outbox, dev.recording.value);
    case OfferSkip(b) =>
    case Deliver(w, newPair) => ReceivedTables(sealed, dev, me, w, newPair, now);
    case Interrupt(w, newPair) =>
    case Restart =>
    case _ => SweptTables(sealed, dev, act.t, act, now);
  }

  /** Seen records are only ever pruned; a pruned one belongs to a message too old for any later pass,
      because the two periods are equal. */
  lemma ActedSeen(sealed: map<MsgId, Envelope>, dev: Device, me: DeviceId, act: Action, now: nat, m: MsgId)
    requires Can(dev, me, act) && SeenOk(sealed, dev.seen, now) && m in dev.seen
    ensures m in Acted(dev, me, act, now).seen || (act.Restart? && sealed[m].createdAt + OUTBOX_TTL_MS < now)
  {
  }

  lemma ActedSeenOk(sealed: map<MsgId, Envelope>, dev: Device, me: DeviceId, act: Action, now: nat)
    requires Can(dev, me, act) && SeenOk(sealed, dev.seen, now) && SealedOk(sealed, now)
    requires act.Deliver? && Genuine(act.w) ==> act.w.env.id in sealed
    ensures SeenOk(sealed, Acted(dev, me, act, now).seen, now)
  {
  }

  /** What an action needs to know about the envelopes it handles. */
  lemma ActsOnSealed(w: World, d: DeviceId, act: Action)
    requires Inv(w) && Enabled(w, At(d, act))
    ensures Seals(act) ==> act.env.createdAt == w.now && OpsOk(w.sealed, act.env.ops)
    ensures Incoming(act) ==> IsSealed(w.sealed, act.w.signed) && OpsOk(w.sealed, act.w.signed.ops)
  {
    assert TablesOk(w.sealed, w.devs[d]);
    if act.Offer? { assert OpOk(w.sealed, Carry(CarryOf(act.b))) by { assert BundleOk(w.sealed, act.b); } }
  }

  lemma EmittedOk(w: World, d: DeviceId, act: Action)
    requires Inv(w) && Enabled(w, At(d, act))
    ensures NetOk(After(w, At(d, act)).sealed, After(w, At(d, act)).net)
  {
    var w' := After(w, At(d, act));
    assert TablesOk(w.sealed, w.devs[d]);
    if act.Send? { assert BundleOk(w.sealed, act.b); }
    assert Extends(w.sealed, w'.sealed);
  }

  lemma ActKeepsDevices(w: World, d: DeviceId, act: Action)
    requires Inv(w) && Enabled(w, At(d, act))
    ensures var w' := After(w, At(d, act));
            && SealedOk(w'.sealed, w'.now)
            && forall c :: c in w'.devs ==>
                 TablesOk(w'.sealed, w'.devs[c]) && SeenOk(w'.sealed, w'.devs[c].seen, w'.now)
  {
    var w' := After(w, At(d, act));
    ActsOnSealed(w, d, act);
    if Seals(act) { SealedStillOk(w.sealed, w.now, act.env); }
    forall c | c in w.devs ensures TablesOk(w'.sealed, w.devs[c]) && SeenOk(w'.sealed, w.devs[c].seen, w.now) {
      TablesGrow(w.sealed, w'.sealed, w.devs[c]);
    }
    ActedTables(w'.sealed, w.devs[d], d, act, w.now);
    ActedSeenOk(w'.sealed, w.devs[d], d, act, w.now);
  }

  /** What has been applied before stays remembered. */
  lemma ActRemembers(w: World, d: DeviceId, act: Action, a: Applied)
    requires Inv(w) && Enabled(w, At(d, act)) && a in w.applied
    ensures Remembered(After(w, At(d, act)), a)
  {
    SealedGrows(w, At(d, act));
    assert AppliedOk(w, a) && Remembered(w, a);
    if a.at == d && a.env.id in w.devs[d].seen { ActedSeen(w.sealed, w.devs[d], d, act, w.now, a.env.id); }
  }

  /** An application adds an envelope that was let in. */
  lemma NewlyApplied(w: World, d: DeviceId, act: Action, a: Applied)
    requires Inv(w) && Enabled(w, At(d, act)) && a in After(w, At(d, act)).applied && a !in w.applied
    ensures act.Deliver? && Accepts(w.devs[d], d, act.w, act.newPair) && a == Applied(d, act.w.env)
  {
  }

  lemma ActKeepsApplied(w: World, d: DeviceId, act: Action, a: Applied)
    requires Inv(w) && Enabled(w, At(d, act)) && a in After(w, At(d, act)).applied
    ensures AppliedOk(After(w, At(d, act)), a) && Remembered(After(w, At(d, act)), a)
  {
    SameConfigs(w, At(d, act));
    SealedGrows(w, At(d, act));
    if a in w.applied {
      assert AppliedOk(w, a);
      ActRemembers(w, d, act, a);
    } else {
      NewlyApplied(w, d, act, a);
      ActsOnSealed(w, d, act);
      assert a.env.id in Received(w.devs[d], d, act.w, act.newPair, w.now).seen;
    }
  }

  lemma StepKeepsInv(w: World, ev: Event)
    requires Inv(w) && Enabled(w, ev)
    ensures Inv(After(w, ev))
  {
    if ev.At? {
      ActKeepsDevices(w, ev.d, ev.act);
      EmittedOk(w, ev.d, ev.act);
      forall a | a in After(w, ev).applied ensures AppliedOk(After(w, ev), a) && Remembered(After(w, ev), a) {
        ActKeepsApplied(w, ev.d, ev.act, a);
      }
    } else {
      QuietStep(w, ev);
    }
  }

  lemma QuietStep(w: World, ev: Event)
    requires Inv(w) && Enabled(w, ev) && !ev.At?
    ensures Inv(After(w, ev))
  {
    var w' := After(w, ev);
    forall a | a in w'.applied ensures AppliedOk(w', a) && Remembered(w', a) {
      assert AppliedOk(w, a) && Remembered(w, a);
    }
  }

  lemma {:induction false} RunKeepsInv(w: World, evs: seq<Event>)
    requires Inv(w) && Legal(w, evs)
    ensures Inv(RunFrom(w, evs))
    decreases |evs|
  {
    if evs != [] {
      StepKeepsInv(w, evs[0]);
      RunKeepsInv(After(w, evs[0]), evs[1..]);
    }
  }

  /** Whatever a device applies is, operation for operation, an envelope that was sealed for it in its workspace. */
  lemma AppliedAsSealed(w: World, evs: seq<Event>, a: Applied)
    requires Initial(w) && Legal(w, evs) && a in RunFrom(w, evs).applied
    ensures var v := RunFrom(w, evs);
            && a.env.id in v.sealed && v.sealed[a.env.id] == a.env && a.env.to == a.at
            && a.at in v.devs && a.env.workspace == v.devs[a.at].config.workspace
  {
    RunKeepsInv(w, evs);
    assert AppliedOk(RunFrom(w, evs), a);
  }

  // ------------------------------------------------------------ at most once

  function Copies(applied: seq<Applied>, d: DeviceId, m: MsgId): nat {
    if applied == [] then 0
    else Copies(applied[..|applied| - 1], d, m)
         + (if applied[|applied| - 1].at == d && applied[|applied| - 1].env.id == m then 1 else 0)
  }

  lemma {:induction false} CopyIsApplied(applied: seq<Applied>, d: DeviceId, m: MsgId) returns (a: Applied)
    requires Copies(applied, d, m) > 0
    ensures a in applied && a.at == d && a.env.id == m
  {
    var last := applied[|applied| - 1];
    if last.at == d && last.env.id == m { a := last; } else { a := CopyIsApplied(applied[..|applied| - 1], d, m); }
  }

  ghost predicate SessionsOk(dev: Device, me: DeviceId) {
    forall peer :: RatchetKeys.SessionOk(SessionWith(dev.config, dev.sessions, me, peer))
  }

  /** The key of an envelope this device has applied is used up in its session with the sender. */
  predicate KeyUsed(dev: Device, me: DeviceId, env: Envelope) {
    RatchetKeys.Used(SessionWith(dev.config, dev.sessions, me, env.sender), env.key)
  }

  /** A session after an action, when it is not the one it was. */
  function MovedSession(s: Session, act: Action): Session
    requires Seals(act) || Incoming(act)
  {
    if Seals(act) then Encrypt(s).0 else Decrypt(s, act.w.env.header, act.newPair).0
  }

  function PeerOf(act: Action): DeviceId
    requires Seals(act) || Incoming(act)
  {
    if Seals(act) then act.env.to else act.w.env.sender
  }

  /** The sessions after an action. */
  function SessionsAfter(dev: Device, me: DeviceId, act: Action): map<DeviceId, Session> {
    if Seals(act) || (Incoming(act) && Admits(dev, me, act.w))
    then dev.sessions[PeerOf(act) := MovedSession(SessionWith(dev.config, dev.sessions, me, PeerOf(act)), act)]
    else dev.sessions
  }

  lemma ReceivedSessions(dev: Device, me: DeviceId, w: Wire, newPair: nat, now: nat)
    ensures Received(dev, me, w, newPair, now).sessions == Opened(dev, me, w, newPair).sessions
  {
  }

  lemma OtherSessions(dev: Device, me: DeviceId, act: Action, now: nat)
    requires Can(dev, me, act) && !Seals(act) && !Incoming(act)
    ensures Acted(dev, me, act, now).sessions == dev.sessions
  {
  }

  lemma ActedSessions(dev: Device, me: DeviceId, act: Action, now: nat)
    requires Can(dev, me, act)
    ensures Acted(dev, me, act, now).sessions == SessionsAfter(dev, me, act)
  {
    match act
    case Seal(_, _, _) =>
    case Offer(_, _, _, _) =>
    case Interrupt(_, _) =>
    case Deliver(w, newPair) => ReceivedSessions(dev, me, w, newPair, now);
    case _ => OtherSessions(dev, me, act, now);
  }

  /** Every action leaves each session as it was or takes it through one call. */
  lemma ActedSession(dev: Device, me: DeviceId, act: Action, now: nat, peer: DeviceId)
    requires Can(dev, me, act)
    ensures var s, s' := SessionWith(dev.config, dev.sessions, me, peer),
            SessionWith(dev.config, Acted(dev, me, act, now).sessions, me, peer);
            s' == s || ((Seals(act) || Incoming(act)) && s' == MovedSession(s, act))
  {
    ActedSessions(dev, me, act, now);
  }

  lemma SessionKeeps(dev: Device, me: DeviceId, act: Action, now: nat, peer: DeviceId, spent: Bytes)
    requires Can(dev, me, act) && RatchetKeys.SessionOk(SessionWith(dev.config, dev.sessions, me, peer))
    ensures var s, s' := SessionWith(dev.config, dev.sessions, me, peer),
            SessionWith(dev.config, Acted(dev, me, act, now).sessions, me, peer);
            RatchetKeys.SessionOk(s') && (RatchetKeys.Used(s, spent) ==> RatchetKeys.Used(s', spent))
  {
    var s := SessionWith(dev.config, dev.sessions, me, peer);
    ActedSession(dev, me, act, now, peer);
    if Seals(act) { RatchetKeys.EncryptUses(s, spent); }
    if Incoming(act) { RatchetKeys.DecryptUses(s, act.w.env.header, act.newPair, spent); }
  }

  /** An accepted envelope's key was not used before and is afterwards. */
  lemma AcceptedUses(dev: Device, me: DeviceId, w: Wire, newPair: nat, now: nat)
    requires SessionsOk(dev, me) && Accepts(dev, me, w, newPair)
    ensures !KeyUsed(dev, me, w.env) && KeyUsed(Received(dev, me, w, newPair, now), me, w.env)
  {
    RatchetKeys.DecryptUses(SessionWith(dev.config, dev.sessions, me, w.env.sender), w.env.header, newPair, w.env.key);
  }

  ghost predicate OnceInv(w: World) {
    && (forall d :: d in w.devs ==> SessionsOk(w.devs[d], d))
    && (forall a :: a in w.applied ==> a.at in w.devs && KeyUsed(w.devs[a.at], a.at, a.env))
  }

  lemma StepKeepsSessions(w: World, ev: Event)
    requires Enabled(w, ev) && OnceInv(w)
    ensures OnceInv(After(w, ev))
  {
    if ev.At? {
      var dev, dev', w' := w.devs[ev.d], Acted(w.devs[ev.d], ev.d, ev.act, w.now), After(w, ev);
      forall peer ensures RatchetKeys.SessionOk(SessionWith(dev'.config, dev'.sessions, ev.d, peer)) {
        SessionKeeps(dev, ev.d, ev.act, w.now, peer, PairingSecret(0));
      }
      forall a | a in w'.applied ensures a.at in w'.devs && KeyUsed(w'.devs[a.at], a.at, a.env) {
        if a in w.applied {
          if a.at == ev.d { SessionKeeps(dev, ev.d, ev.act, w.now, a.env.sender, a.env.key); }
        } else {
          AcceptedUses(dev, ev.d, ev.act.w, ev.act.newPair, w.now);
        }
      }
    }
  }

  /** An application is never of a message applied at that device before. */
  lemma AppliedIsNew(w: World, ev: Event, d: DeviceId, m: MsgId)
    requires Inv(w) && OnceInv(w) && Enabled(w, ev) && Copies(w.applied, d, m) > 0
    ensures Copies(After(w, ev).applied, d, m) == Copies(w.applied, d, m)
  {
    var applied := After(w, ev).applied;
    if applied != w.applied {
      assert applied[..|applied| - 1] == w.applied;
      if ev.d == d && ev.act.w.env.id == m {
        var a := CopyIsApplied(w.applied, d, m);
        assert AppliedOk(w, a) && IsSealed(w.sealed, ev.act.w.signed);
        AcceptedUses(w.devs[d], d, ev.act.w, ev.act.newPair, w.now);
        assert false;
      }
    }
  }

  lemma CopiesGrow(w: World, ev: Event, d: DeviceId, m: MsgId)
    requires Enabled(w, ev)
    ensures Copies(After(w, ev).applied, d, m) <= Copies(w.applied, d, m) + 1
  {
    var applied := After(w, ev).applied;
    if applied != w.applied { assert applied[..|applied| - 1] == w.applied; }
  }

  lemma {:induction false} RunKeepsOnce(w: World, evs: seq<Event>, d: DeviceId, m: MsgId)
    requires Inv(w) && OnceInv(w) && Legal(w, evs) && Copies(w.applied, d, m) <= 1
    ensures Copies(RunFrom(w, evs).applied, d, m) <= 1
    decreases |evs|
  {
    if evs != [] {
      StepKeepsInv(w, evs[0]);
      StepKeepsSessions(w, evs[0]);
      CopiesGrow(w, evs[0], d, m);
      if Copies(w.applied, d, m) > 0 { AppliedIsNew(w, evs[0], d, m); }
      RunKeepsOnce(After(w, evs[0]), evs[1..], d, m);
    }
  }

  /** At most once: over any devices, sends, drains, carriers, repeats, losses, corruptions, interruptions and
      restarts, no device applies the same message twice. */
  lemma AppliedAtMostOnce(w: World, evs: seq<Event>, d: DeviceId, m: MsgId)
    requires Initial(w) && Legal(w, evs)
    ensures Copies(RunFrom(w, evs).applied, d, m) <= 1
  {
    RunKeepsOnce(w, evs, d, m);
  }

  // ------------------------------------------------------------ the seen table alone

  /** A pass holds a row of m, or will read one. */
  predicate SweepHolds(s: Sweep, rows: map<MsgId, Bundle>, m: MsgId) {
    (exists b :: b in s.holding && b.bundleId == m) || (s.begun > 0 && m in rows)
  }

  predicate PassHolds(dev: Device, m: MsgId) {
    SweepHolds(dev.draining, dev.outbox, m) || SweepHolds(dev.forwarding, dev.carried, m)
  }

  predicate IntactCopy(net: set<Wire>, m: MsgId) { exists wire :: wire in net && Genuine(wire) && wire.env.id == m }

  /** An intact copy of m is on the network, or in the hands of a running pass. */
  predicate InFlight(w: World, m: MsgId) {
    IntactCopy(w.net, m) || exists d :: d in w.devs && PassHolds(w.devs[d], m)
  }

  /** A copy of m can be delivered to d and be let past the seen table to the ratchet. */
  predicate ReachesRatchet(w: World, d: DeviceId, m: MsgId) {
    d in w.devs && exists wire :: wire in w.net && wire.env.id == m && Admits(w.devs[d], d, wire)
  }

  predicate Leads(w: World, evs: seq<Event>, d: DeviceId, m: MsgId) {
    Legal(w, evs) && ReachesRatchet(RunFrom(w, evs), d, m)
  }

  lemma ClearSwept(sealed: map<MsgId, Envelope>, dev: Device, t: Table, act: Action, now: nat, m: MsgId)
    requires TablesOk(sealed, dev) && m in sealed && sealed[m].createdAt + OUTBOX_TTL_MS < now
    requires !SweepHolds(SweepOf(dev, t), Rows(dev, t), m) && (act.Read? ==> SweepOf(dev, t).begun > 0)
    ensures !SweepHolds(SweepOf(Swept(dev, t, act, now), t), Rows(Swept(dev, t, act, now), t), m)
  {
    var rows := Rows(dev, t);
    assert RowsOk(sealed, rows);
    if act.Begin? && m in rows { assert BundleOk(sealed, rows[m]); }
  }

  lemma {:induction false} ExpiredNotCarried(
    sealed: map<MsgId, Envelope>, carried: map<MsgId, Bundle>, me: DeviceId, ops: seq<Op>, now: nat, m: MsgId)
    requires OpsOk(sealed, ops) && m in sealed && sealed[m].createdAt + OUTBOX_TTL_MS < now
    ensures m in AppliedOps(carried, me, ops, now) ==> m in carried
  {
    if ops != [] {
      ExpiredNotCarried(sealed, carried, me, ops[..|ops| - 1], now, m);
      assert OpOk(sealed, ops[|ops| - 1]);
    }
  }

  /** The passes of a device after an action that is no await of a pass. */
  lemma SameSweeps(dev: Device, me: DeviceId, act: Action, now: nat)
    requires Can(dev, me, act) && !Sweeping(act) && !act.Restart?
    ensures var dev' := Acted(dev, me, act, now); dev'.draining == dev.draining && dev'.forwarding == dev.forwarding
  {
  }

  /** The rows of a device after an action that is no await of a pass: only the envelope just sealed and the
      bundles just received are new. */
  lemma SameRows(sealed: map<MsgId, Envelope>, dev: Device, me: DeviceId, act: Action, now: nat, m: MsgId)
    requires Can(dev, me, act) && !Sweeping(act) && !act.Restart?
    requires m in sealed && sealed[m].createdAt + OUTBOX_TTL_MS < now && (Seals(act) ==> act.env.id != m)
    requires act.Deliver? && Genuine(act.w) ==> OpsOk(sealed, act.w.env.ops)
    ensures m in Acted(dev, me, act, now).outbox ==> m in dev.outbox
    ensures m in Acted(dev, me, act, now).carried ==> m in dev.carried
  {
    if act.Deliver? { DeliveredRows(sealed, dev, me, act.w, act.newPair, now, m); }
  }

  lemma DeliveredRows(
    sealed: map<MsgId, Envelope>, dev: Device, me: DeviceId, w: Wire, newPair: nat, now: nat, m: MsgId)
    requires m in sealed && sealed[m].createdAt + OUTBOX_TTL_MS < now && (Genuine(w) ==> OpsOk(sealed, w.env.ops))
    ensures var dev' := Received(dev, me, w, newPair, now);
            dev'.outbox == dev.outbox && (m in dev'.carried ==> m in dev.carried)
  {
    if Genuine(w) { ExpiredNotCarried(sealed, dev.carried, me, w.env.ops, now, m); }
  }

  lemma ClearPass(sealed: map<MsgId, Envelope>, dev: Device, act: Action, now: nat, m: MsgId)
    requires Sweeping(act)
    requires TablesOk(sealed, dev) && m in sealed && sealed[m].createdAt + OUTBOX_TTL_MS < now
    requires !PassHolds(dev, m) && (act.Read? ==> SweepOf(dev, act.t).begun > 0)
    ensures !PassHolds(Swept(dev, act.t, act, now), m)
  {
    var other := if act.t.Outbox? then Carried else Outbox;
    ClearSwept(sealed, dev, act.t, act, now, m);
    OtherTable(dev, act.t, act, now, other);
  }

  lemma OtherTable(dev: Device, t: Table, act: Action, now: nat, other: Table)
    requires other != t
    ensures var dev' := Swept(dev, t, act, now);
            Rows(dev', other) == Rows(dev, other) && SweepOf(dev', other) == SweepOf(dev, other)
  {
  }

  /** Nothing a device does brings an expired message back into its passes. */
  lemma ClearActed(w: World, d: DeviceId, act: Action, m: MsgId)
    requires Inv(w) && Enabled(w, At(d, act)) && Expired(w, m) && !PassHolds(w.devs[d], m)
    ensures !PassHolds(Acted(w.devs[d], d, act, w.now), m)
  {
    if Sweeping(act) {
      assert TablesOk(w.sealed, w.devs[d]);
      ClearPass(w.sealed, w.devs[d], act, w.now, m);
      assert Acted(w.devs[d], d, act, w.now) == Swept(w.devs[d], act.t, act, w.now);
    } else if !act.Restart? {
      SameSweeps(w.devs[d], d, act, w.now);
      ActsOnSealed(w, d, act);
      SameRows(w.sealed, w.devs[d], d, act, w.now, m);
    }
  }

  lemma ClearEmitted(w: World, d: DeviceId, act: Action, m: MsgId)
    requires Inv(w) && Enabled(w, At(d, act)) && m in w.sealed && !PassHolds(w.devs[d], m)
    ensures !IntactCopy(Emitted(act), m)
  {
    assert TablesOk(w.sealed, w.devs[d]);
    if act.Send? { assert BundleOk(w.sealed, act.b); }
  }

  lemma StepKeepsClear(w: World, ev: Event, m: MsgId)
    requires Inv(w) && Enabled(w, ev) && Expired(w, m) && !InFlight(w, m)
    ensures !InFlight(After(w, ev), m) && Expired(After(w, ev), m)
  {
    SealedGrows(w, ev);
    if ev.At? {
      ClearActed(w, ev.d, ev.act, m);
      ClearEmitted(w, ev.d, ev.act, m);
      forall wire | wire in After(w, ev).net && Genuine(wire) ensures wire.env.id != m {
        if wire in w.net { assert !IntactCopy(w.net, m); } else { assert wire in Emitted(ev.act); }
      }
    }
  }

  /** An expired message with no copy on its way never gets one again. */
  lemma {:induction false} GoneForGood(w: World, evs: seq<Event>, d: DeviceId, m: MsgId)
    requires Inv(w) && Legal(w, evs) && Expired(w, m) && !InFlight(w, m)
    ensures !InFlight(RunFrom(w, evs), m) && !ReachesRatchet(RunFrom(w, evs), d, m)
    decreases |evs|
  {
    if evs != [] {
      StepKeepsInv(w, evs[0]);
      StepKeepsClear(w, evs[0], m);
      GoneForGood(After(w, evs[0]), evs[1..], d, m);
    }
  }

  lemma OneStep(w: World, ev: Event)
    requires Enabled(w, ev)
    ensures Legal(w, [ev]) && RunFrom(w, [ev]) == After(w, ev)
  {
    assert [ev][1..] == [];
  }

  lemma TwoSteps(w: World, ev: Event, ev2: Event)
    requires Enabled(w, ev) && Enabled(After(w, ev), ev2)
    ensures Legal(w, [ev, ev2]) && RunFrom(w, [ev, ev2]) == After(After(w, ev), ev2)
  {
    assert [ev, ev2][1..] == [ev2];
    OneStep(After(w, ev), ev2);
  }

  lemma CopyReaches(w: World, d: DeviceId, m: MsgId, wire: Wire)
    requires Inv(w) && d in w.devs && m !in w.devs[d].seen && m in w.sealed && MeantFor(w, d, w.sealed[m])
    requires wire in w.net && Genuine(wire) && wire.env.id == m
    ensures ReachesRatchet(w, d, m)
  {
    assert IsSealed(w.sealed, wire.signed);
    assert Admits(w.devs[d], d, wire);
  }

  /** A pass of device c sends the row it holds. */
  lemma HeldReaches(w: World, c: DeviceId, t: Table, b: Bundle, d: DeviceId, m: MsgId)
    requires Inv(w) && d in w.devs && m !in w.devs[d].seen && m in w.sealed && MeantFor(w, d, w.sealed[m])
    requires c in w.devs && b in SweepOf(w.devs[c], t).holding && b.bundleId == m
    ensures Enabled(w, At(c, Send(t, b))) && ReachesRatchet(After(w, At(c, Send(t, b))), d, m)
  {
    var ev := At(c, Send(t, b));
    assert TablesOk(w.sealed, w.devs[c]) && BundleOk(w.sealed, b);
    StepKeepsInv(w, ev);
    CopyReaches(After(w, ev), d, m, b.payload);
  }

  /** A pass of device c that is about to read reads the row and sends it. */
  lemma StoredReaches(w: World, c: DeviceId, t: Table, d: DeviceId, m: MsgId) returns (evs: seq<Event>)
    requires Inv(w) && d in w.devs && m !in w.devs[d].seen && m in w.sealed && MeantFor(w, d, w.sealed[m])
    requires c in w.devs && SweepOf(w.devs[c], t).begun > 0 && m in Rows(w.devs[c], t)
    ensures Legal(w, evs) && ReachesRatchet(RunFrom(w, evs), d, m)
  {
    var ev, b := At(c, Read(t)), Rows(w.devs[c], t)[m];
    assert TablesOk(w.sealed, w.devs[c]) && BundleOk(w.sealed, b) && b in Rows(w.devs[c], t).Values;
    StepKeepsInv(w, ev);
    HeldReaches(After(w, ev), c, t, b, d, m);
    evs := [ev, At(c, Send(t, b))];
    TwoSteps(w, evs[0], evs[1]);
  }

  lemma ReachingRun(w: World, d: DeviceId, m: MsgId) returns (evs: seq<Event>)
    requires Inv(w) && d in w.devs && m !in w.devs[d].seen && m in w.sealed && MeantFor(w, d, w.sealed[m]) &&
             InFlight(w, m)
    ensures Legal(w, evs) && ReachesRatchet(RunFrom(w, evs), d, m)
  {
    if wire :| wire in w.net && Genuine(wire) && wire.env.id == m {
      CopyReaches(w, d, m, wire);
      evs := [];
    } else {
      var c :| c in w.devs && PassHolds(w.devs[c], m);
      var t := if SweepHolds(w.devs[c].draining, w.devs[c].outbox, m) then Outbox else Carried;
      if b :| b in SweepOf(w.devs[c], t).holding && b.bundleId == m {
        HeldReaches(w, c, t, b, d, m);
        evs := [At(c, Send(t, b))];
        OneStep(w, evs[0]);
      } else {
        evs := StoredReaches(w, c, t, d, m);
      }
    }
  }

  /** The seen table by itself: a message this device has applied and since forgotten can get past the table
      again if and only if, right now, an intact copy is on the network, in a running pass, or stored where
      a pass is between its deletion of expired rows and its read. */
  lemma ReadmittedIff(start: World, past: seq<Event>, d: DeviceId, m: MsgId)
    requires Initial(start) && Legal(start, past)
    requires d in RunFrom(start, past).devs && m !in RunFrom(start, past).devs[d].seen
    requires Copies(RunFrom(start, past).applied, d, m) > 0
    ensures var w := RunFrom(start, past);
            InFlight(w, m) <==> exists evs :: Leads(w, evs, d, m)
  {
    RunKeepsInv(start, past);
    var a := CopyIsApplied(RunFrom(start, past).applied, d, m);
    assert AppliedOk(RunFrom(start, past), a) && Remembered(RunFrom(start, past), a);
    ReachableIff(RunFrom(start, past), d, m);
  }

  lemma ReachableIff(w: World, d: DeviceId, m: MsgId)
    requires Inv(w) && d in w.devs && m !in w.devs[d].seen && Expired(w, m) && MeantFor(w, d, w.sealed[m])
    ensures InFlight(w, m) <==> exists evs :: Leads(w, evs, d, m)
  {
    if InFlight(w, m) {
      var evs := ReachingRun(w, d, m);
      assert Leads(w, evs, d, m);
    } else {
      forall evs ensures !Leads(w, evs, d, m) { if Legal(w, evs) { GoneForGood(w, evs, d, m); } }
    }
  }

  /** A restart that forgets no message with a copy still on its way. */
  predicate Quiet(w: World, ev: Event) {
    ev.At? && ev.act.Restart? && ev.d in w.devs ==>
      forall m :: m in w.devs[ev.d].seen && Prunable(w.devs[ev.d].seen[m], w.now) ==> !InFlight(w, m)
  }

  predicate QuietRun(w: World, evs: seq<Event>)
    requires Legal(w, evs)
    decreases |evs|
  {
    evs == [] || (Quiet(w, evs[0]) && QuietRun(After(w, evs[0]), evs[1..]))
  }

  /** Seen, or gone for good. */
  predicate Shut(w: World, d: DeviceId, m: MsgId) {
    d in w.devs && (m in w.devs[d].seen || (Expired(w, m) && !InFlight(w, m)))
  }

  lemma StepKeepsShut(w: World, ev: Event, d: DeviceId, m: MsgId)
    requires Inv(w) && Enabled(w, ev) && Quiet(w, ev) && Shut(w, d, m)
    ensures Shut(After(w, ev), d, m)
  {
    SealedGrows(w, ev);
    if Expired(w, m) && !InFlight(w, m) {
      StepKeepsClear(w, ev, m);
    } else if ev.At? && ev.d == d {
      assert SeenOk(w.sealed, w.devs[d].seen, w.now);
      ActedSeen(w.sealed, w.devs[d], d, ev.act, w.now, m);
      if m !in Acted(w.devs[d], d, ev.act, w.now).seen {
        assert false;
      }
    }
  }

  lemma AppliedShuts(w: World, ev: Event, d: DeviceId, m: MsgId)
    requires Enabled(w, ev) && Copies(After(w, ev).applied, d, m) != Copies(w.applied, d, m)
    ensures Shut(After(w, ev), d, m)
  {
    var applied := After(w, ev).applied;
    assert ev.At? && applied[..|applied| - 1] == w.applied;
  }

  lemma {:induction false} RunKeepsShut(w: World, evs: seq<Event>, d: DeviceId, m: MsgId)
    requires Inv(w) && Legal(w, evs) && QuietRun(w, evs) && (Copies(w.applied, d, m) > 0 ==> Shut(w, d, m))
    ensures Copies(RunFrom(w, evs).applied, d, m) > 0 ==> Shut(RunFrom(w, evs), d, m)
    decreases |evs|
  {
    if evs != [] {
      StepKeepsInv(w, evs[0]);
      if Copies(w.applied, d, m) > 0 {
        StepKeepsShut(w, evs[0], d, m);
      } else if Copies(After(w, evs[0]).applied, d, m) > 0 {
        AppliedShuts(w, evs[0], d, m);
      }
      RunKeepsShut(After(w, evs[0]), evs[1..], d, m);
    }
  }

  /** In a run whose restarts forget no message with a copy on its way, the seen table alone suffices: no copy
      of an applied message gets as far as the ratchet. */
  lemma SeenTableSuffices(w: World, evs: seq<Event>, d: DeviceId, m: MsgId)
    requires Initial(w) && Legal(w, evs) && QuietRun(w, evs) && Copies(RunFrom(w, evs).applied, d, m) > 0
    ensures !ReachesRatchet(RunFrom(w, evs), d, m)
  {
    RunKeepsShut(w, evs, d, m);
  }

  lemma {:induction false} RunAppend(w: World, a: seq<Event>, b: seq<Event>)
    requires Legal(w, a) && Legal(RunFrom(w, a), b)
    ensures Legal(w, a + b) && RunFrom(w, a + b) == RunFrom(RunFrom(w, a), b)
    decreases |a|
  {
    if a == [] {
      assert a + b == b;
    } else {
      RunAppend(After(w, a[0]), a[1..], b);
      assert (a + b)[1..] == a[1..] + b;
    }
  }

  ghost predicate Reached(w: World, evs: seq<Event>, v: World) { Legal(w, evs) && RunFrom(w, evs) == v }

  lemma Snoc(w: World, evs: seq<Event>, v: World, ev: Event)
    requires Reached(w, evs, v) && Enabled(v, ev)
    ensures Reached(w, evs + [ev], After(v, ev))
  {
    OneStep(v, ev);
    RunAppend(w, evs, [ev]);
  }

  /** The two devices agree on the key of a first message. */
  lemma FirstOpens(config: Config, a: DeviceId, b: DeviceId, newPair: nat)
    ensures var (_, header, key) := Encrypt(InitSession(config.secret, config.workspace, a, a, b, b));
            Decrypt(InitSession(config.secret, config.workspace, b, b, a, a), header, newPair).1 == Key(key)
  {
    var first := InitSession(config.secret, config.workspace, b, b, a, a);
    var (_, header, key) := Encrypt(InitSession(config.secret, config.workspace, a, a, b, b));
    assert DhReceive(first, header, newPair).recvChain == Some(DhChain(Ecdh(b, a), first.rootKey));
  }

  /** Device 0 sends message 7 to device 1, which applies it at once; a copy stays on the network. */
  lemma SentAndApplied(config: Config, w: World, env: Envelope, wire: Wire, evs: seq<Event>)
    requires w == World(0, map[0 := EmptyDevice(config), 1 := EmptyDevice(config)], {}, map[], map[], [])
    requires env == SealedEnvelope(config, map[], 0, 7, 1, 0, []) && wire == Wire(env, env)
    requires evs == [At(0, Seal(env, 4, true)), At(1, Deliver(wire, 2))]
    ensures Legal(w, evs) && RunFrom(w, evs).applied == [Applied(1, env)] && RunFrom(w, evs).now == 0
    ensures 1 in RunFrom(w, evs).devs && RunFrom(w, evs).devs[1].seen == map[7 := 0] && wire in RunFrom(w, evs).net
    ensures RunFrom(w, evs).devs[1].config == config
  {
    FirstOpens(config, 0, 1, 2);
    assert Enabled(w, evs[0]);
    var w' := After(w, evs[0]);
    assert w'.devs[1] == EmptyDevice(config) && w'.now == 0 && w'.applied == [] && wire in w'.net;
    assert Accepts(EmptyDevice(config), 1, wire, 2);
    TwoSteps(w, evs[0], evs[1]);
  }

  /** Eight days later device 1 restarts. */
  lemma Forgotten(v: World, wire: Wire, evs: seq<Event>)
    requires v.now == 0 && 1 in v.devs && v.devs[1].seen == map[7 := 0] && wire in v.net
    requires Genuine(wire) && wire.env.id == 7 && wire.env.to == 1
    requires wire.env.workspace == v.devs[1].config.workspace
    requires evs == [Tick(SEEN_RETENTION_MS + 1), At(1, Restart)]
    ensures Legal(v, evs) && RunFrom(v, evs).applied == v.applied && ReachesRatchet(RunFrom(v, evs), 1, 7)
  {
    TwoSteps(v, evs[0], evs[1]);
    assert Admits(RunFrom(v, evs).devs[1], 1, wire) && wire in RunFrom(v, evs).net;
  }

  /** The condition is needed for the seen table, and only for it: a copy that spends longer on the network than
      the retention period outlives its record on a device that restarts meanwhile, and is let past the table. */
  lemma CopyOutlivesRecord(config: Config) returns (w: World, evs: seq<Event>)
    ensures Initial(w) && Legal(w, evs) && !QuietRun(w, evs)
    ensures Copies(RunFrom(w, evs).applied, 1, 7) == 1 && ReachesRatchet(RunFrom(w, evs), 1, 7)
  {
    var env := SealedEnvelope(config, map[], 0, 7, 1, 0, []);
    w := World(0, map[0 := EmptyDevice(config), 1 := EmptyDevice(config)], {}, map[], map[], []);
    var a := [At(0, Seal(env, 4, true)), At(1, Deliver(Wire(env, env), 2))];
    var b := [Tick(SEEN_RETENTION_MS + 1), At(1, Restart)];
    SentAndApplied(config, w, env, Wire(env, env), a);
    Forgotten(RunFrom(w, a), Wire(env, env), b);
    RunAppend(w, a, b);
    evs := a + b;
    assert RunFrom(w, evs).applied == [Applied(1, env)];
    assert Copies([Applied(1, env)], 1, 7) == 1 by { assert [Applied(1, env)][..0] == []; }
    if QuietRun(w, evs) { SeenTableSuffices(w, evs, 1, 7); }
  }

  // ------------------------------------------------------------ the carry budget

  predicate NoRepeats(s: seq<DeviceId>) { forall i, j :: 0 <= i < j < |s| ==> s[i] != s[j] }

  predicate BudgetOk(hops: map<MsgId, nat>, me: DeviceId, b: Bundle) {
    && b.bundleId in hops && b.hopLimit + |b.offeredTo| == hops[b.bundleId]
    && NoRepeats(b.offeredTo) && b.destination !in b.offeredTo && me !in b.offeredTo
  }

  /** A bundle that offerCarrying holds is the stored row, when that row is still there. */
  predicate Current(outbox: map<MsgId, Bundle>, b: Bundle) { b.bundleId in outbox ==> outbox[b.bundleId] == b }

  ghost predicate OfferingOk(hops: map<MsgId, nat>, me: DeviceId, dev: Device) {
    && (forall b :: b in dev.offering ==> BudgetOk(hops, me, b) && Current(dev.outbox, b))
    && (forall b, c :: b in dev.offering && c in dev.offering && b.bundleId == c.bundleId ==> b == c)
  }

  ghost predicate RecordingOk(hops: map<MsgId, nat>, me: DeviceId, dev: Device) {
    dev.recording.Some? ==>
      var Offered(b, carrier) := dev.recording.value;
      && BudgetOk(hops, me, b) && Current(dev.outbox, b) && b.hopLimit > 0
      && carrier != me && carrier != b.destination && carrier !in b.offeredTo
      && forall c :: c in dev.offering ==> c.bundleId != b.bundleId
  }

  ghost predicate RowsBudget(hops: map<MsgId, nat>, me: DeviceId, rows: map<MsgId, Bundle>) {
    forall k :: k in rows ==> rows[k].bundleId == k && BudgetOk(hops, me, rows[k])
  }

  ghost predicate DeviceBudget(hops: map<MsgId, nat>, me: DeviceId, dev: Device) {
    RowsBudget(hops, me, dev.outbox) && OfferingOk(hops, me, dev) && RecordingOk(hops, me, dev)
  }

  ghost predicate Budget(w: World) {
    && w.hops.Keys == w.sealed.Keys
    && forall d :: d in w.devs ==> DeviceBudget(w.hops, d, w.devs[d])
  }

  /** Sealing gives a fresh message its hop limit and touches no other budget. */
  lemma HopsGrow(hops: map<MsgId, nat>, me: DeviceId, dev: Device, m: MsgId, hopLimit: nat)
    requires DeviceBudget(hops, me, dev) && m !in hops
    ensures DeviceBudget(hops[m := hopLimit], me, dev)
  {
    forall b | BudgetOk(hops, me, b) ensures BudgetOk(hops[m := hopLimit], me, b) {}
  }

  lemma SentBudget(hops: map<MsgId, nat>, me: DeviceId, dev: Device, env: Envelope, hopLimit: nat, live: bool)
    requires DeviceBudget(hops, me, dev) && env.id !in hops
    ensures DeviceBudget(hops[env.id := hopLimit], me, SentFrom(dev, me, env, hopLimit, live))
  {
    var grown, dev' := hops[env.id := hopLimit], SentFrom(dev, me, env, hopLimit, live);
    HopsGrow(hops, me, dev, env.id, hopLimit);
    assert RowsBudget(grown, me, dev'.outbox) by { assert BudgetOk(grown, me, NewBundle(env, hopLimit)); }
    forall b | b in dev.offering ensures Current(dev'.outbox, b) { assert BudgetOk(hops, me, b); }
  }

  lemma OfferedBudget(hops: map<MsgId, nat>, me: DeviceId, dev: Device, b: Bundle, carrier: DeviceId, live: bool)
    requires DeviceBudget(hops, me, dev) && b in dev.offering && b.hopLimit > 0
    requires carrier != me && carrier != b.destination && carrier !in b.offeredTo
    ensures DeviceBudget(hops, me, dev.(offering := dev.offering - {b},
                                        recording := if live then Some(Offered(b, carrier)) else None))
  {
  }

  lemma RecordedBudget(hops: map<MsgId, nat>, me: DeviceId, dev: Device)
    requires DeviceBudget(hops, me, dev) && dev.recording.Some?
    ensures dev.recording.value.b.hopLimit > 0
    ensures DeviceBudget(hops, me, dev.(outbox := Recorded(dev.outbox, dev.recording.value), recording := None))
  {
    var Offered(b, carrier) := dev.recording.value;
    var outbox := Recorded(dev.outbox, dev.recording.value);
    forall k | k in outbox ensures outbox[k].bundleId == k && BudgetOk(hops, me, outbox[k]) {
      if k == b.bundleId { assert dev.outbox[k] == b; } else { assert BudgetOk(hops, me, dev.outbox[k]); }
    }
  }

  lemma FewerRows(hops: map<MsgId, nat>, me: DeviceId, dev: Device, dev': Device)
    requires DeviceBudget(hops, me, dev) && Fewer(dev', dev)
    ensures DeviceBudget(hops, me, dev')
  {
  }

  lemma BeganOffering(hops: map<MsgId, nat>, me: DeviceId, dev: Device)
    requires DeviceBudget(hops, me, dev) && dev.recording.None?
    ensures DeviceBudget(hops, me, dev.(offering := dev.outbox.Values))
  {
    forall b | b in dev.outbox.Values
      ensures b.bundleId in dev.outbox && dev.outbox[b.bundleId] == b && BudgetOk(hops, me, b)
    {
      var k :| k in dev.outbox && dev.outbox[k] == b;
    }
  }

  /** Rows of the outbox deleted, offers no longer held, whatever happens to the other tables. */
  predicate Fewer(dev': Device, dev: Device) {
    && dev'.offering <= dev.offering && (dev'.recording.Some? ==> dev'.recording == dev.recording)
    && forall k :: k in dev'.outbox ==> k in dev.outbox && dev'.outbox[k] == dev.outbox[k]
  }

  lemma FewerSwept(dev: Device, t: Table, act: Action, now: nat)
    ensures Fewer(Swept(dev, t, act, now), dev)
  {
  }

  lemma FewerReceived(dev: Device, me: DeviceId, w: Wire, newPair: nat, now: nat)
    ensures Fewer(Received(dev, me, w, newPair, now), dev) && Fewer(Opened(dev, me, w, newPair), dev)
  {
  }

  lemma FewerAfter(dev: Device, me: DeviceId, act: Action, now: nat)
    requires Can(dev, me, act) && !Seals(act) && !act.OfferBegin? && !act.OfferRecord?
    ensures Fewer(Acted(dev, me, act, now), dev)
  {
    if Incoming(act) {
      FewerReceived(dev, me, act.w, act.newPair, now);
    } else if Sweeping(act) {
      FewerSwept(dev, act.t, act, now);
    }
  }

  lemma ActedBudget(hops: map<MsgId, nat>, me: DeviceId, dev: Device, act: Action, now: nat)
    requires DeviceBudget(hops, me, dev) && Can(dev, me, act) && (Seals(act) ==> act.env.id !in hops)
    ensures DeviceBudget(if Seals(act) then hops[act.env.id := HopsOf(act)] else hops, me, Acted(dev, me, act, now))
  {
    match act
    case Seal(env, hopLimit, live) => SentBudget(hops, me, dev, env, hopLimit, live);
    case Offer(b, carrier, env, live) =>
      SentBudget(hops, me, dev, env, 0, live);
      OfferedBudget(hops[env.id := 0], me, SentFrom(dev, me, env, 0, live), b, carrier, live);
    case OfferBegin => BeganOffering(hops, me, dev);
    case OfferRecord => RecordedBudget(hops, me, dev);
    case _ =>
      FewerAfter(dev, me, act, now);
      FewerRows(hops, me, dev, Acted(dev, me, act, now));
  }

  lemma StepKeepsBudget(w: World, ev: Event)
    requires Budget(w) && Enabled(w, ev)
    ensures Budget(After(w, ev))
  {
    if ev.At? {
      ActedBudget(w.hops, ev.d, w.devs[ev.d], ev.act, w.now);
      forall c | c in w.devs && c != ev.d ensures DeviceBudget(After(w, ev).hops, c, w.devs[c]) {
        if Seals(ev.act) { HopsGrow(w.hops, c, w.devs[c], ev.act.env.id, HopsOf(ev.act)); }
      }
    }
  }

  lemma {:induction false} RunKeepsBudget(w: World, evs: seq<Event>)
    requires Budget(w) && Legal(w, evs)
    ensures Budget(RunFrom(w, evs))
    decreases |evs|
  {
    if evs != [] {
      StepKeepsBudget(w, evs[0]);
      RunKeepsBudget(After(w, evs[0]), evs[1..]);
    }
  }

  /** The carry budget: in every reachable state, what an outbox bundle has left plus the carriers recorded for
      it is what it started with; the carriers are distinct and never its destination or this device. */
  lemma CarryBudget(w: World, evs: seq<Event>, d: DeviceId, k: MsgId)
    requires Initial(w) && Legal(w, evs) && d in RunFrom(w, evs).devs && k in RunFrom(w, evs).devs[d].outbox
    ensures var v := RunFrom(w, evs); var b := v.devs[d].outbox[k];
            && k in v.hops && b.hopLimit + |b.offeredTo| == v.hops[k] && NoRepeats(b.offeredTo)
            && k in v.sealed && v.sealed[k].to !in b.offeredTo && d !in b.offeredTo
  {
    RunKeepsInv(w, evs);
    RunKeepsBudget(w, evs);
    var v := RunFrom(w, evs);
    assert TablesOk(v.sealed, v.devs[d]) && DeviceBudget(v.hops, d, v.devs[d]);
  }

  // ------------------------------------------------------------ offers run out

  ghost function HopSum(rows: map<MsgId, Bundle>): nat
    decreases |rows|
  {
    if rows == map[] then 0
    else
      var k :| k in rows;
      rows[k].hopLimit + HopSum(rows - {k})
  }

  lemma {:induction false} HopSumSplit(rows: map<MsgId, Bundle>, k: MsgId)
    requires k in rows
    ensures HopSum(rows) == rows[k].hopLimit + HopSum(rows - {k})
    decreases |rows|
  {
    var c :| c in rows && HopSum(rows) == rows[c].hopLimit + HopSum(rows - {c});
    if c != k {
      HopSumSplit(rows - {c}, k);
      HopSumSplit(rows - {k}, c);
      assert rows - {c} - {k} == rows - {k} - {c};
    }
  }

  lemma {:induction false} HopSumSubset(rows: map<MsgId, Bundle>, kept: map<MsgId, Bundle>)
    requires forall k :: k in kept ==> k in rows && rows[k].hopLimit == kept[k].hopLimit
    ensures HopSum(kept) <= HopSum(rows)
    decreases |kept|
  {
    if kept != map[] {
      var k :| k in kept;
      HopSumSplit(kept, k);
      HopSumSplit(rows, k);
      HopSumSubset(rows - {k}, kept - {k});
    }
  }

  lemma HopSumSet(rows: map<MsgId, Bundle>, k: MsgId, b: Bundle)
    ensures HopSum(rows[k := b]) == b.hopLimit + HopSum(rows - {k})
  {
    HopSumSplit(rows[k := b], k);
    assert rows[k := b] - {k} == rows - {k};
  }

  lemma RecordedSum(outbox: map<MsgId, Bundle>, o: Offered)
    requires o.b.hopLimit > 0 && Current(outbox, o.b)
    ensures HopSum(Recorded(outbox, o)) == HopSum(outbox) - (if o.b.bundleId in outbox then 1 else 0)
  {
    var k := o.b.bundleId;
    if k in outbox {
      HopSumSplit(outbox, k);
      HopSumSet(outbox, k, outbox[k].(hopLimit := o.b.hopLimit - 1, offeredTo := o.b.offeredTo + [o.carrier]));
    }
  }

  lemma QueuedSum(outbox: map<MsgId, Bundle>, env: Envelope)
    requires env.id !in outbox
    ensures HopSum(outbox[env.id := NewBundle(env, 0)]) == HopSum(outbox)
  {
    HopSumSet(outbox, env.id, NewBundle(env, 0));
    assert outbox - {env.id} == outbox;
  }

  /** Each recorded offer takes one from the sum of the hop limits of the rows it is recorded in; the offer itself
      takes nothing, and no action but sealing a new message ever adds to any device's sum. */
  lemma OffersRunOut(w: World, past: seq<Event>, d: DeviceId, act: Action)
    requires Initial(w) && Legal(w, past) && Enabled(RunFrom(w, past), At(d, act))
    ensures var v := RunFrom(w, past); var outbox, outbox' := v.devs[d].outbox, After(v, At(d, act)).devs[d].outbox;
            && (!act.Seal? ==> HopSum(outbox') <= HopSum(outbox))
            && (act.Offer? ==> HopSum(outbox') == HopSum(outbox))
            && (act.OfferRecord? && v.devs[d].recording.value.b.bundleId in outbox ==>
                  HopSum(outbox') == HopSum(outbox) - 1)
  {
    RunKeepsBudget(w, past);
    var v := RunFrom(w, past);
    ActedSum(v.hops, d, v.devs[d], act, v.now);
  }

  lemma ActedSum(hops: map<MsgId, nat>, me: DeviceId, dev: Device, act: Action, now: nat)
    requires DeviceBudget(hops, me, dev) && Can(dev, me, act) && (Seals(act) ==> act.env.id !in hops)
    ensures var outbox' := Acted(dev, me, act, now).outbox;
            && (!act.Seal? ==> HopSum(outbox') <= HopSum(dev.outbox))
            && (act.Offer? ==> HopSum(outbox') == HopSum(dev.outbox))
            && (act.OfferRecord? && dev.recording.value.b.bundleId in dev.outbox ==>
                  HopSum(outbox') == HopSum(dev.outbox) - 1)
  {
    match act
    case Seal(_, _, _) =>
    case Offer(_, _, env, _) =>
      assert env.id !in dev.outbox;
      QueuedSum(dev.outbox, env);
    case OfferRecord => RecordedSum(dev.outbox, dev.recording.value);
    case OfferBegin =>
    case _ =>
      FewerAfter(dev, me, act, now);
      HopSumSubset(dev.outbox, Acted(dev, me, act, now).outbox);
  }
}
