/** Nothing crosses from one pairing to another: packages/sync/src/engine.ts over packages/crypto/src/ratchet.ts.
    Devices of any workspaces and any pairing secrets share one network. */
module MeshPairing {
  import opened Mesh
  import opened Ratchet
  import opened Wrappers
  import RatchetRoots

  /** The root that a device's session with a peer starts from. */
  function FirstRoot(config: Config, me: DeviceId, peer: DeviceId): Bytes {
    InitSession(config.secret, config.workspace, me, me, peer, peer).rootKey
  }

  /** Derived, in however many steps, from the first root of these two devices. */
  predicate KeyOf(config: Config, me: DeviceId, peer: DeviceId, key: Bytes) {
    RatchetRoots.Derives(FirstRoot(config, me, peer), RatchetRoots.Line(key))
  }

  predicate SessionOf(config: Config, me: DeviceId, peer: DeviceId, s: Session) {
    RatchetRoots.Rooted(s) && RatchetRoots.Derives(FirstRoot(config, me, peer), s.rootKey)
  }

  ghost predicate SessionsOf(dev: Device, me: DeviceId) {
    forall peer :: SessionOf(dev.config, me, peer, SessionWith(dev.config, dev.sessions, me, peer))
  }

  predicate SealedIn(w: World, env: Envelope) {
    env.sender in w.devs && KeyOf(w.devs[env.sender].config, env.sender, env.to, env.key)
  }

  predicate AppliedIn(w: World, a: Applied) {
    a.at in w.devs && a.env.sender in w.devs && w.devs[a.at].config == w.devs[a.env.sender].config
  }

  ghost predicate PairInv(w: World) {
    && (forall d :: d in w.devs ==> SessionsOf(w.devs[d], d))
    && (forall m :: m in w.sealed ==> SealedIn(w, w.sealed[m]))
    && (forall a :: a in w.applied ==> AppliedIn(w, a))
  }

  /** A key that a session produces comes from the session's first root. */
  lemma KeyOfSession(config: Config, me: DeviceId, peer: DeviceId, s: Session, t: Session, key: Bytes)
    requires SessionOf(config, me, peer, s)
    requires RatchetRoots.Rooted(t) && RatchetRoots.Derives(s.rootKey, t.rootKey) && RatchetRoots.OnLine(t.rootKey, key)
    ensures SessionOf(config, me, peer, t) && KeyOf(config, me, peer, key)
  {
    RatchetRoots.DerivesTrans(FirstRoot(config, me, peer), s.rootKey, t.rootKey);
    RatchetRoots.OneLine(FirstRoot(config, me, peer), RatchetRoots.Line(key), t.rootKey);
  }

  lemma MovedOf(config: Config, me: DeviceId, peer: DeviceId, s: Session, act: Action)
    requires SessionOf(config, me, peer, s) && (Seals(act) || Incoming(act))
    ensures SessionOf(config, me, peer, MovedSession(s, act))
  {
    if Seals(act) {
      RatchetRoots.EncryptRooted(s);
    } else {
      RatchetRoots.DecryptRooted(s, act.w.env.header, act.newPair);
    }
    RatchetRoots.DerivesTrans(FirstRoot(config, me, peer), s.rootKey, MovedSession(s, act).rootKey);
  }

  lemma ActedOf(dev: Device, me: DeviceId, act: Action, now: nat)
    requires Can(dev, me, act) && SessionsOf(dev, me)
    ensures SessionsOf(Acted(dev, me, act, now), me)
  {
    ActedConfig(dev, me, act, now);
    forall peer
      ensures SessionOf(dev.config, me, peer, SessionWith(dev.config, Acted(dev, me, act, now).sessions, me, peer))
    {
      ActedSession(dev, me, act, now, peer);
      if Seals(act) || Incoming(act) {
        MovedOf(dev.config, me, peer, SessionWith(dev.config, dev.sessions, me, peer), act);
      }
    }
  }

  lemma SealedOf(w: World, d: DeviceId, env: Envelope)
    requires d in w.devs && SessionsOf(w.devs[d], d) && NewEnvelope(w, d, env)
    ensures SealedIn(w, env)
  {
    var s := SessionWith(w.devs[d].config, w.devs[d].sessions, d, env.to);
    assert SessionOf(w.devs[d].config, d, env.to, s);
    RatchetRoots.EncryptRooted(s);
    KeyOfSession(w.devs[d].config, d, env.to, s, Encrypt(s).0, env.key);
  }

  /** A key of two pairings: they are one. */
  lemma OnePairing(c: Config, me: DeviceId, peer: DeviceId, c': Config, key: Bytes)
    requires KeyOf(c, me, peer, key) && KeyOf(c', peer, me, key)
    ensures c == c'
  {
    var a, b := FirstRoot(c, me, peer), FirstRoot(c', peer, me);
    RatchetRoots.OneLine(a, b, RatchetRoots.Line(key));
    RatchetRoots.DerivesDepth(a, b);
    RatchetRoots.SameRootIff(c.secret, c.workspace, me, me, peer, peer, c'.secret, c'.workspace, peer, peer, me, me);
  }

  /** Whoever accepts a sealed envelope is of its sender's pairing. */
  lemma AcceptedOf(w: World, d: DeviceId, wire: Wire, newPair: nat)
    requires d in w.devs && SessionsOf(w.devs[d], d) && SealedIn(w, wire.env) && Accepts(w.devs[d], d, wire, newPair)
    ensures w.devs[d].config == w.devs[wire.env.sender].config
  {
    var config, sender := w.devs[d].config, wire.env.sender;
    var s := SessionWith(config, w.devs[d].sessions, d, sender);
    assert SessionOf(config, d, sender, s);
    RatchetRoots.DecryptRooted(s, wire.env.header, newPair);
    KeyOfSession(config, d, sender, s, Decrypt(s, wire.env.header, newPair).0, wire.env.key);
    OnePairing(config, d, sender, w.devs[sender].config, wire.env.key);
  }

  lemma AppliedStays(w: World, ev: Event, a: Applied)
    requires AppliedIn(w, a) && Enabled(w, ev)
    ensures AppliedIn(After(w, ev), a)
  {
    SameConfigs(w, ev);
  }

  lemma SealedStays(w: World, ev: Event, env: Envelope)
    requires SealedIn(w, env) && Enabled(w, ev)
    ensures SealedIn(After(w, ev), env)
  {
    SameConfigs(w, ev);
  }

  lemma NewlyAppliedIn(w: World, d: DeviceId, act: Action, a: Applied)
    requires Inv(w) && PairInv(w) && Enabled(w, At(d, act)) && a in After(w, At(d, act)).applied && a !in w.applied
    ensures AppliedIn(w, a)
  {
    NewlyApplied(w, d, act, a);
    ActsOnSealed(w, d, act);
    assert SealedIn(w, w.sealed[act.w.env.id]);
    AcceptedOf(w, d, act.w, act.newPair);
  }

  /** The sealed envelopes after an action are those before it and the one it seals. */
  lemma ActedSealed(w: World, d: DeviceId, act: Action, m: MsgId)
    requires Enabled(w, At(d, act)) && m in After(w, At(d, act)).sealed
    ensures var env := After(w, At(d, act)).sealed[m];
            (m in w.sealed && env == w.sealed[m]) || (Seals(act) && env == act.env && NewEnvelope(w, d, env))
  {
  }

  lemma SealedStep(w: World, d: DeviceId, act: Action, m: MsgId)
    requires PairInv(w) && Enabled(w, At(d, act)) && m in After(w, At(d, act)).sealed
    ensures SealedIn(After(w, At(d, act)), After(w, At(d, act)).sealed[m])
  {
    var env := After(w, At(d, act)).sealed[m];
    ActedSealed(w, d, act, m);
    if m in w.sealed && env == w.sealed[m] {} else { SealedOf(w, d, env); }
    SealedStays(w, At(d, act), env);
  }

  lemma SessionsStep(w: World, d: DeviceId, act: Action, c: DeviceId)
    requires PairInv(w) && Enabled(w, At(d, act)) && c in w.devs
    ensures c in After(w, At(d, act)).devs && SessionsOf(After(w, At(d, act)).devs[c], c)
  {
    if c == d { ActedOf(w.devs[d], d, act, w.now); }
  }

  lemma StepKeepsPairInv(w: World, ev: Event)
    requires Inv(w) && PairInv(w) && Enabled(w, ev)
    ensures PairInv(After(w, ev))
  {
    if ev.At? {
      forall a | a in After(w, ev).applied ensures AppliedIn(After(w, ev), a) {
        if a !in w.applied { NewlyAppliedIn(w, ev.d, ev.act, a); }
        AppliedStays(w, ev, a);
      }
      forall m | m in After(w, ev).sealed ensures SealedIn(After(w, ev), After(w, ev).sealed[m]) {
        SealedStep(w, ev.d, ev.act, m);
      }
      forall c | c in After(w, ev).devs ensures SessionsOf(After(w, ev).devs[c], c) {
        SessionsStep(w, ev.d, ev.act, c);
      }
    } else {
      QuietPairStep(w, ev);
    }
  }

  lemma QuietPairStep(w: World, ev: Event)
    requires PairInv(w) && Enabled(w, ev) && !ev.At?
    ensures PairInv(After(w, ev))
  {
    var w' := After(w, ev);
    assert w'.devs == w.devs && w'.sealed == w.sealed && w'.applied == w.applied;
    assert forall env :: SealedIn(w, env) ==> SealedIn(w', env);
    assert forall a :: AppliedIn(w, a) ==> AppliedIn(w', a);
  }

  lemma {:induction false} RunKeepsPairInv(w: World, evs: seq<Event>)
    requires Inv(w) && PairInv(w) && Legal(w, evs)
    ensures PairInv(RunFrom(w, evs))
    decreases |evs|
  {
    if evs != [] {
      StepKeepsInv(w, evs[0]);
      StepKeepsPairInv(w, evs[0]);
      RunKeepsPairInv(After(w, evs[0]), evs[1..]);
    }
  }

  lemma FreshIsRooted(config: Config, me: DeviceId, peer: DeviceId)
    ensures SessionOf(config, me, peer, InitSession(config.secret, config.workspace, me, me, peer, peer))
  {
  }

  /** In every run, whatever a device applies was sealed by a device of the same workspace that was paired with the
      same secret, whoever else is on the network. */
  lemma AppliedWithinPairing(w: World, evs: seq<Event>, a: Applied)
    requires Initial(w) && Legal(w, evs) && a in RunFrom(w, evs).applied
    ensures var v := RunFrom(w, evs);
            && a.at in v.devs && a.env.sender in v.devs
            && v.devs[a.at].config.secret == v.devs[a.env.sender].config.secret
            && v.devs[a.at].config.workspace == v.devs[a.env.sender].config.workspace
  {
    forall d, peer | d in w.devs
      ensures SessionOf(w.devs[d].config, d, peer, SessionWith(w.devs[d].config, w.devs[d].sessions, d, peer))
    {
      FreshIsRooted(w.devs[d].config, d, peer);
    }
    RunKeepsPairInv(w, evs);
    assert AppliedIn(RunFrom(w, evs), a);
  }
}
