/** The extension's request queue over one native port (apps/companion-extension/background.js), with the
    host at the other end answering each request once and in order. */
module RequestQueue {
  import opened Wrappers

  type Id = nat

  /** What the host writes: an answer to a request, or an event of its own. */
  datatype Message = Answer(id: Id) | LanEnvelope | LanConnected | LanDisconnected

  datatype Response = Got(message: Message) | PortError

  datatype Resolved = Resolved(id: Id, response: Response)

  /** `toHost` and `fromHost` are the two directions of the open port.  `issued`, `resolved` and `mistaken` are
      history; `mistaken` says that an event was taken for an answer. */
  datatype State = State(connected: bool, active: Option<Id>, queued: seq<Id>, toHost: seq<Id>, fromHost: seq<Message>,
                         issued: seq<Id>, resolved: seq<Resolved>, mistaken: bool)

  datatype Event =
    | Request(id: Id, connects: bool)
    | HostAnswers
    | HostEmits(message: Message)
    | Deliver(connects: bool)
    | Disconnect

  predicate Enabled(s: State, ev: Event) {
    match ev
    case Request(id, _) => id !in s.issued
    case HostAnswers => s.connected && s.toHost != []
    case HostEmits(m) => s.connected && !m.Answer?
    case Deliver(_) => s.connected && s.fromHost != []
    case Disconnect => s.connected
  }

  /** Every queued request fails. */
  function Failed(ids: seq<Id>): (r: seq<Resolved>)
    ensures |r| == |ids| && forall i :: 0 <= i < |ids| ==> r[i] == Resolved(ids[i], PortError)
  {
    seq(|ids|, i requires 0 <= i < |ids| => Resolved(ids[i], PortError))
  }

  /** pumpNativeRequests; `connects` is whether connectNative succeeds when it is tried. */
  function Pumped(s: State, connects: bool): State {
    if s.active.Some? || s.queued == [] then s
    else if !s.connected && !connects then s.(resolved := s.resolved + Failed(s.queued), queued := [])
    else s.(connected := true, active := Some(s.queued[0]), queued := s.queued[1..], toHost := s.toHost + [s.queued[0]])
  }

  /** The port's message listener. */
  function OnMessage(s: State, m: Message, connects: bool): State {
    if m.LanEnvelope? || m.LanConnected? then s
    else
      var cleared := s.(active := None);
      Pumped(if s.active.None? then cleared
             else cleared.(resolved := s.resolved + [Resolved(s.active.value, Got(m))],
                           mistaken := s.mistaken || !m.Answer?),
             connects)
  }

  /** The port's disconnect listener. */
  function Disconnected(s: State): State {
    var first := if s.active.Some? then [Resolved(s.active.value, PortError)] else [];
    s.(connected := false, active := None, queued := [], toHost := [], fromHost := [],
       resolved := s.resolved + first + Failed(s.queued))
  }

  function After(s: State, ev: Event): State
    requires Enabled(s, ev)
  {
    match ev
    case Request(id, connects) => Pumped(s.(issued := s.issued + [id], queued := s.queued + [id]), connects)
    case HostAnswers => s.(toHost := s.toHost[1..], fromHost := s.fromHost + [Answer(s.toHost[0])])
    case HostEmits(m) => s.(fromHost := s.fromHost + [m])
    case Deliver(connects) => OnMessage(s.(fromHost := s.fromHost[1..]), s.fromHost[0], connects)
    case Disconnect => Disconnected(s)
  }

  predicate Legal(s: State, evs: seq<Event>)
    decreases |evs|
  {
    evs == [] || (Enabled(s, evs[0]) && Legal(After(s, evs[0]), evs[1..]))
  }

  function RunFrom(s: State, evs: seq<Event>): State
    requires Legal(s, evs)
    decreases |evs|
  {
    if evs == [] then s else RunFrom(After(s, evs[0]), evs[1..])
  }

  function Start(): State { State(false, None, [], [], [], [], [], false) }

  // ------------------------------------------------------------ each request resolved at most once, in order

  function Ids(resolved: seq<Resolved>): (r: seq<Id>)
    ensures |r| == |resolved| && forall i :: 0 <= i < |r| ==> r[i] == resolved[i].id
  {
    seq(|resolved|, i requires 0 <= i < |resolved| => resolved[i].id)
  }

  function ActiveIds(s: State): seq<Id> { if s.active.Some? then [s.active.value] else [] }

  predicate NoRepeats(ids: seq<Id>) { forall i, j :: 0 <= i < j < |ids| ==> ids[i] != ids[j] }

  /** Requests are resolved in the order they were made: resolved, then the one in flight, then those waiting. */
  ghost predicate Accounted(s: State) {
    && s.issued == Ids(s.resolved) + ActiveIds(s) + s.queued
    && NoRepeats(s.issued)
    && (s.active.None? ==> s.queued == [])
    && (!s.connected ==> s.active.None? && s.toHost == [] && s.fromHost == [])
  }

  lemma IdsFailed(ids: seq<Id>)
    ensures Ids(Failed(ids)) == ids
  {
  }

  /** What pumping needs: nothing in flight may be forgotten. */
  ghost predicate Pumpable(s: State) {
    && s.issued == Ids(s.resolved) + ActiveIds(s) + s.queued
    && NoRepeats(s.issued)
    && (!s.connected ==> s.active.None? && s.toHost == [] && s.fromHost == [])
  }

  lemma PumpAccounts(s: State, connects: bool)
    requires Pumpable(s)
    ensures Accounted(Pumped(s, connects))
  {
    var p := Pumped(s, connects);
    if s.active.None? && s.queued != [] {
      if !s.connected && !connects {
        IdsFailed(s.queued);
        assert Ids(s.resolved) + [] + s.queued == Ids(s.resolved) + s.queued + [] + [];
      } else {
        assert s.queued == [s.queued[0]] + s.queued[1..];
        assert Ids(s.resolved) + [] + s.queued == Ids(s.resolved) + [s.queued[0]] + s.queued[1..];
      }
    }
  }

  lemma NewRequest(ids: seq<Id>, id: Id)
    requires NoRepeats(ids) && id !in ids
    ensures NoRepeats(ids + [id])
  {
  }

  lemma StepAccounts(s: State, ev: Event)
    requires Accounted(s) && Enabled(s, ev)
    ensures Accounted(After(s, ev))
  {
    match ev
    case Request(id, connects) =>
      NewRequest(s.issued, id);
      assert Ids(s.resolved) + ActiveIds(s) + s.queued + [id] == Ids(s.resolved) + ActiveIds(s) + (s.queued + [id]);
      PumpAccounts(s.(issued := s.issued + [id], queued := s.queued + [id]), connects);
    case Deliver(connects) => DeliverAccounts(s, connects);
    case Disconnect =>
      var first := if s.active.Some? then [Resolved(s.active.value, PortError)] else [];
      IdsFailed(s.queued);
      assert Ids(first) == ActiveIds(s);
    case _ =>
  }

  lemma NowResolved(resolved: seq<Resolved>, r: Resolved, queued: seq<Id>)
    ensures Ids(resolved) + [r.id] + queued == Ids(resolved + [r]) + [] + queued
  {
    assert Ids(resolved + [r]) == Ids(resolved) + [r.id];
  }

  lemma DeliverAccounts(s: State, connects: bool)
    requires Accounted(s) && s.connected && s.fromHost != []
    ensures Accounted(After(s, Deliver(connects)))
  {
    var m, t := s.fromHost[0], s.(fromHost := s.fromHost[1..]);
    if !m.LanEnvelope? && !m.LanConnected? {
      if s.active.None? {
        PumpAccounts(t.(active := None), connects);
      } else {
        var done := [Resolved(s.active.value, Got(m))];
        NowResolved(s.resolved, done[0], s.queued);
        PumpAccounts(t.(active := None, resolved := s.resolved + done, mistaken := s.mistaken || !m.Answer?), connects);
      }
    }
  }

  // ------------------------------------------------------------ each request resolved with its own answer

  predicate OwnAnswer(r: Resolved) { r.response == PortError || r.response == Got(Answer(r.id)) }

  /** The answers on their way back, without the host's own events. */
  function AnswersIn(ms: seq<Message>): seq<Id> {
    if ms == [] then [] else AnswersIn(ms[..|ms| - 1]) + (if ms[|ms| - 1].Answer? then [ms[|ms| - 1].id] else [])
  }

  /** Until an event is mistaken for an answer, what is outstanding on the port is the active request and nothing
      else. */
  ghost predicate Synced(s: State) {
    && (!s.mistaken ==> AnswersIn(s.fromHost) + s.toHost == ActiveIds(s))
    && (!s.mistaken ==> forall i :: 0 <= i < |s.resolved| ==> OwnAnswer(s.resolved[i]))
    && (s.mistaken ==> exists i :: 0 <= i < |s.resolved| && !OwnAnswer(s.resolved[i]))
  }

  lemma {:induction false} AnswersFirst(ms: seq<Message>)
    requires ms != []
    ensures AnswersIn(ms) == (if ms[0].Answer? then [ms[0].id] else []) + AnswersIn(ms[1..])
  {
    var n := |ms| - 1;
    if n == 0 {
      assert ms[..0] == [] && ms[1..] == [];
    } else {
      AnswersFirst(ms[..n]);
      assert ms[..n][1..] == ms[1..][..n - 1] && ms[1..][n - 1] == ms[n] && ms[..n][0] == ms[0];
    }
  }

  lemma AnswersLast(ms: seq<Message>, m: Message)
    ensures AnswersIn(ms + [m]) == AnswersIn(ms) + (if m.Answer? then [m.id] else [])
  {
    assert (ms + [m])[..|ms|] == ms;
  }

  ghost predicate Matched(resolved: seq<Resolved>, mistaken: bool) {
    && (!mistaken ==> forall i :: 0 <= i < |resolved| ==> OwnAnswer(resolved[i]))
    && (mistaken ==> exists i :: 0 <= i < |resolved| && !OwnAnswer(resolved[i]))
  }

  lemma MoreMatched(a: seq<Resolved>, b: seq<Resolved>, mistaken: bool)
    requires Matched(a, mistaken) && forall i :: 0 <= i < |b| ==> OwnAnswer(b[i])
    ensures Matched(a + b, mistaken)
  {
    if mistaken {
      var i :| 0 <= i < |a| && !OwnAnswer(a[i]);
      assert !OwnAnswer((a + b)[i]);
    }
  }

  lemma PumpSyncs(s: State, connects: bool)
    requires Synced(s) && Pumpable(s)
    ensures Synced(Pumped(s, connects))
  {
    if s.active.None? && s.queued != [] {
      if !s.connected && !connects {
        MoreMatched(s.resolved, Failed(s.queued), s.mistaken);
      } else if !s.mistaken {
        var p := Pumped(s, connects);
        assert AnswersIn(p.fromHost) == [] && s.toHost == [];
      }
    }
  }

  lemma DeliverSyncs(s: State, connects: bool)
    requires Synced(s) && Accounted(s) && s.connected && s.fromHost != []
    ensures Synced(After(s, Deliver(connects)))
  {
    var m, t := s.fromHost[0], s.(fromHost := s.fromHost[1..]);
    AnswersFirst(s.fromHost);
    if m.LanEnvelope? || m.LanConnected? {
      assert [] + AnswersIn(t.fromHost) == AnswersIn(t.fromHost);
    } else if s.active.None? {
      assert Synced(t.(active := None));
      PumpSyncs(t.(active := None), connects);
    } else {
      TakenSyncs(s, t, m);
      var r := Resolved(s.active.value, Got(m));
      var u := t.(active := None, resolved := s.resolved + [r], mistaken := s.mistaken || !m.Answer?);
      NowResolved(s.resolved, r, s.queued);
      PumpSyncs(u, connects);
    }
  }

  lemma OnlyOne(x: Id, a: seq<Id>, b: seq<Id>, y: Id)
    requires [x] + a + b == [y]
    ensures x == y && a + b == []
  {
    assert [x] + a + b == [x] + (a + b);
    assert ([x] + (a + b))[0] == x && |[x] + (a + b)| == 1 + |a + b|;
  }

  lemma TakenSyncs(s: State, t: State, m: Message)
    requires Synced(s) && s.active.Some? && s.fromHost != [] && m == s.fromHost[0] &&
             t == s.(fromHost := s.fromHost[1..])
    requires m.Answer? || m.LanDisconnected?
    requires AnswersIn(s.fromHost) == (if m.Answer? then [m.id] else []) + AnswersIn(t.fromHost)
    ensures Synced(t.(active := None, resolved := s.resolved + [Resolved(s.active.value, Got(m))],
                      mistaken := s.mistaken || !m.Answer?))
  {
    var r := Resolved(s.active.value, Got(m));
    if s.mistaken || !m.Answer? {
      if s.mistaken {
        var i :| 0 <= i < |s.resolved| && !OwnAnswer(s.resolved[i]);
        assert !OwnAnswer((s.resolved + [r])[i]);
      } else {
        assert !OwnAnswer((s.resolved + [r])[|s.resolved|]);
      }
    } else {
      OnlyOne(m.id, AnswersIn(t.fromHost), s.toHost, s.active.value);
      MoreMatched(s.resolved, [r], false);
    }
  }

  lemma RequestSyncs(s: State, id: Id, connects: bool)
    requires Synced(s) && Accounted(s) && id !in s.issued
    ensures Synced(After(s, Request(id, connects)))
  {
    var t := s.(issued := s.issued + [id], queued := s.queued + [id]);
    NewRequest(s.issued, id);
    assert Ids(s.resolved) + ActiveIds(s) + s.queued + [id] == Ids(s.resolved) + ActiveIds(s) + (s.queued + [id]);
    assert Synced(t);
    PumpSyncs(t, connects);
  }

  lemma HostSyncs(s: State, ev: Event)
    requires Synced(s) && Enabled(s, ev) && (ev.HostAnswers? || ev.HostEmits?)
    ensures Synced(After(s, ev))
  {
    if ev.HostAnswers? {
      AnswersLast(s.fromHost, Answer(s.toHost[0]));
      MoveOne(AnswersIn(s.fromHost), s.toHost);
    } else {
      AnswersLast(s.fromHost, ev.message);
      assert AnswersIn(s.fromHost) + [] == AnswersIn(s.fromHost);
    }
  }

  lemma MoveOne(a: seq<Id>, b: seq<Id>)
    requires b != []
    ensures a + [b[0]] + b[1..] == a + b
  {
  }

  lemma DisconnectSyncs(s: State)
    requires Synced(s)
    ensures Synced(Disconnected(s))
  {
    var first := if s.active.Some? then [Resolved(s.active.value, PortError)] else [];
    MoreMatched(s.resolved, first, s.mistaken);
    MoreMatched(s.resolved + first, Failed(s.queued), s.mistaken);
  }

  lemma StepSyncs(s: State, ev: Event)
    requires Synced(s) && Accounted(s) && Enabled(s, ev)
    ensures Synced(After(s, ev))
  {
    match ev
    case Request(id, connects) => RequestSyncs(s, id, connects);
    case HostAnswers => HostSyncs(s, ev);
    case HostEmits(_) => HostSyncs(s, ev);
    case Deliver(connects) => DeliverSyncs(s, connects);
    case Disconnect => DisconnectSyncs(s);
  }

  lemma {:induction false} RunKeeps(s: State, evs: seq<Event>)
    requires Accounted(s) && Synced(s) && Legal(s, evs)
    ensures Accounted(RunFrom(s, evs)) && Synced(RunFrom(s, evs))
    decreases |evs|
  {
    if evs != [] {
      StepAccounts(s, evs[0]);
      StepSyncs(s, evs[0]);
      RunKeeps(After(s, evs[0]), evs[1..]);
    }
  }

  /** In every run: requests are resolved at most once and in the order they were made, at most one is in flight, and
      none waits while none is in flight. */
  lemma ResolvedAtMostOnce(evs: seq<Event>)
    requires Legal(Start(), evs)
    ensures var s := RunFrom(Start(), evs);
            && s.issued == Ids(s.resolved) + ActiveIds(s) + s.queued
            && NoRepeats(s.issued) && NoRepeats(Ids(s.resolved))
            && (s.active.None? ==> s.queued == [])
            && (!s.mistaken ==> AnswersIn(s.fromHost) + s.toHost == ActiveIds(s))
  {
    RunKeeps(Start(), evs);
    var s := RunFrom(Start(), evs);
    assert Ids(s.resolved) == s.issued[..|s.resolved|];
  }

  /** This step takes an event the host emitted for the answer to the request in flight. */
  predicate Mistakes(s: State, ev: Event) {
    ev.Deliver? && s.fromHost != [] && s.fromHost[0].LanDisconnected? && s.active.Some?
  }

  predicate SomeMistake(s: State, evs: seq<Event>)
    requires Legal(s, evs)
    decreases |evs|
  {
    evs != [] && (Mistakes(s, evs[0]) || SomeMistake(After(s, evs[0]), evs[1..]))
  }

  lemma {:induction false} RunMistakes(s: State, evs: seq<Event>)
    requires Legal(s, evs)
    ensures RunFrom(s, evs).mistaken == (s.mistaken || SomeMistake(s, evs))
    decreases |evs|
  {
    if evs != [] {
      RunMistakes(After(s, evs[0]), evs[1..]);
    }
  }

  /** Every request is resolved with its own answer or the port's failure, if and only if no lan.disconnected event was
      delivered while a request was in flight.  Envelope and connected events never matter. */
  lemma OwnAnswersIff(evs: seq<Event>)
    requires Legal(Start(), evs)
    ensures var s := RunFrom(Start(), evs);
            (forall i :: 0 <= i < |s.resolved| ==> OwnAnswer(s.resolved[i])) <==> !SomeMistake(Start(), evs)
  {
    RunKeeps(Start(), evs);
    RunMistakes(Start(), evs);
  }

  /** And none is forgotten: with no such mistake, once nothing is under way on the port, every request made has been
      resolved, in order, with its own answer or the port's failure. */
  lemma AllResolved(evs: seq<Event>)
    requires Legal(Start(), evs) && !SomeMistake(Start(), evs)
    requires RunFrom(Start(), evs).toHost == [] && RunFrom(Start(), evs).fromHost == []
    ensures var s := RunFrom(Start(), evs);
            && Ids(s.resolved) == s.issued && forall i :: 0 <= i < |s.resolved| ==> OwnAnswer(s.resolved[i])
  {
    RunKeeps(Start(), evs);
    RunMistakes(Start(), evs);
    OwnAnswersIff(evs);
    var s := RunFrom(Start(), evs);
    assert AnswersIn([]) + [] == [];
    assert Ids(s.resolved) + [] + [] == Ids(s.resolved);
  }

  // ------------------------------------------------------------ the module's variables

  class Extension {
    var nativePort: bool
    var activeNativeRequest: Option<Id>
    var queuedNativeRequests: seq<Id>
    /** Every promise resolved, in order, and every message posted on the open port. */
    var resolved: seq<Resolved>
    var posted: seq<Id>

    constructor ()
      ensures !nativePort && activeNativeRequest == None && queuedNativeRequests == [] && resolved == [] && posted == []
    {
      nativePort, activeNativeRequest, queuedNativeRequests, resolved, posted := false, None, [], [], [];
    }

    /** The variables are those of s; `posted` is what the port took, answered or not. */
    ghost predicate In(s: State, answered: seq<Id>)
      reads this
    {
      && s.connected == nativePort && s.active == activeNativeRequest && s.queued == queuedNativeRequests
      && s.resolved == resolved && posted == answered + s.toHost
    }

    method FailQueued()
      modifies this
      ensures resolved == old(resolved) + Failed(old(queuedNativeRequests)) && queuedNativeRequests == []
      ensures nativePort == old(nativePort) && activeNativeRequest == old(activeNativeRequest) && posted == old(posted)
    {
      ghost var before := queuedNativeRequests;
      ghost var n := 0;
      while queuedNativeRequests != []
        invariant n <= |before| && queuedNativeRequests == before[n..]
        invariant resolved == old(resolved) + Failed(before[..n])
        invariant nativePort == old(nativePort) && activeNativeRequest == old(activeNativeRequest) &&
                  posted == old(posted)
        decreases |queuedNativeRequests|
      {
        resolved := resolved + [Resolved(queuedNativeRequests[0], PortError)];
        queuedNativeRequests := queuedNativeRequests[1..];
        n := n + 1;
        assert Failed(before[..n]) == Failed(before[..n - 1]) + [Resolved(before[n - 1], PortError)];
      }
      assert before[..n] == before;
    }

    method Pump(connects: bool, ghost s: State, ghost answered: seq<Id>)
      requires In(s, answered)
      modifies this
      ensures In(Pumped(s, connects), answered)
      ensures if old(activeNativeRequest).Some? || old(queuedNativeRequests) == []
              then nativePort == old(nativePort) && activeNativeRequest == old(activeNativeRequest)
                   && queuedNativeRequests == old(queuedNativeRequests) && resolved == old(resolved)
                   && posted == old(posted)
              else if !old(nativePort) && !connects
              then !nativePort && activeNativeRequest == None && queuedNativeRequests == []
                   && resolved == old(resolved) + Failed(old(queuedNativeRequests)) && posted == old(posted)
              else nativePort && activeNativeRequest == Some(old(queuedNativeRequests)[0])
                   && queuedNativeRequests == old(queuedNativeRequests)[1..] && resolved == old(resolved)
                   && posted == old(posted) + [old(queuedNativeRequests)[0]]
    {
      if activeNativeRequest.Some? || queuedNativeRequests == [] { return; }
      if !nativePort {
        if !connects {
          FailQueued();
          return;
        }
        nativePort := true;
      }
      activeNativeRequest := Some(queuedNativeRequests[0]);
      posted := posted + [queuedNativeRequests[0]];
      queuedNativeRequests := queuedNativeRequests[1..];
    }

    method RequestNative(id: Id, connects: bool, ghost s: State, ghost answered: seq<Id>)
      requires In(s, answered) && Enabled(s, Request(id, connects))
      modifies this
      ensures In(After(s, Request(id, connects)), answered)
    {
      queuedNativeRequests := queuedNativeRequests + [id];
      Pump(connects, s.(issued := s.issued + [id], queued := s.queued + [id]), answered);
    }

    method OnPortMessage(m: Message, connects: bool, ghost s: State, ghost answered: seq<Id>)
      requires In(s, answered) && Enabled(s, Deliver(connects)) && m == s.fromHost[0]
      modifies this
      ensures In(After(s, Deliver(connects)), answered)
      ensures m.LanEnvelope? || m.LanConnected? ==>
                activeNativeRequest == old(activeNativeRequest) && queuedNativeRequests == old(queuedNativeRequests)
                && resolved == old(resolved) && posted == old(posted)
      ensures !m.LanEnvelope? && !m.LanConnected? && old(activeNativeRequest).Some? ==>
                old(resolved) + [Resolved(old(activeNativeRequest).value, Got(m))] <= resolved
    {
      if m.LanEnvelope? || m.LanConnected? { return; }
      var request := activeNativeRequest;
      activeNativeRequest := None;
      ghost var u := s.(fromHost := s.fromHost[1..], active := None);
      if request.Some? {
        resolved := resolved + [Resolved(request.value, Got(m))];
        u := u.(resolved := s.resolved + [Resolved(request.value, Got(m))], mistaken := s.mistaken || !m.Answer?);
      }
      Pump(connects, u, answered);
    }

    method OnPortDisconnect(ghost s: State, ghost answered: seq<Id>)
      requires In(s, answered) && s.connected
      modifies this
      ensures In(After(s, Disconnect), posted)
      ensures !nativePort && activeNativeRequest == None && queuedNativeRequests == [] && posted == old(posted)
      ensures old(activeNativeRequest).None? ==> resolved == old(resolved) + Failed(old(queuedNativeRequests))
      ensures old(activeNativeRequest).Some? ==>
                resolved == old(resolved) + [Resolved(old(activeNativeRequest).value, PortError)]
                            + Failed(old(queuedNativeRequests))
    {
      nativePort := false;
      if activeNativeRequest.Some? { resolved := resolved + [Resolved(activeNativeRequest.value, PortError)]; }
      activeNativeRequest := None;
      FailQueued();
      assert posted + [] == posted;
    }
  }
}
