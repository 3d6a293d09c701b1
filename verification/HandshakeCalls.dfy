/** The engine's calls on one confirmed object, run one at a time: each is a sequential run of the handshake. */
module HandshakeCalls {
  import opened Wrappers
  import opened Handshake

  predicate SequentialTo(w: World, evs: seq<Event>, v: World) {
    Legal(w, evs) && Sequential(w, evs) && RunFrom(w, evs) == v
  }

  lemma {:induction false} SequentialAppend(w: World, evs: seq<Event>, ev: Event)
    requires Legal(w, evs) && Sequential(w, evs) && Enabled(RunFrom(w, evs), ev) && SequentialStep(RunFrom(w, evs), ev)
    ensures Legal(w, evs + [ev]) && Sequential(w, evs + [ev]) && RunFrom(w, evs + [ev]) == After(RunFrom(w, evs), ev)
    decreases |evs|
  {
    if evs == [] {
      assert evs + [ev] == [ev] && [ev][1..] == [];
    } else {
      SequentialAppend(After(w, evs[0]), evs[1..], ev);
      assert (evs + [ev])[1..] == evs[1..] + [ev];
    }
  }

  lemma Then(w: World, past: seq<Event>, u: World, ev: Event) returns (evs: seq<Event>, v: World)
    requires SequentialTo(w, past, u) && Enabled(u, ev) && SequentialStep(u, ev)
    ensures SequentialTo(w, evs, v) && v == After(u, ev)
  {
    SequentialAppend(w, past, ev);
    evs, v := past + [ev], After(u, ev);
  }

  /** The rest of markOpened, once its guard has passed. */
  lemma OpenedSteps(w: World, past: seq<Event>, u: World) returns (evs: seq<Event>, v: World)
    requires SequentialTo(w, past, u) && u.row.Some? && u.tasks == {OpenWrite(u.row.value.id)}
    ensures SequentialTo(w, evs, v)
    ensures v == u.(row := Some(Row(u.row.value.id, Opened)), replies := u.replies + {MarkOpened},
                    tasks := if u.deleteAfterOpening then {DeleteRows} else {})
  {
    var id := u.row.value.id;
    evs, v := Then(w, past, u, Do(OpenWrite(id), false));
    assert v.tasks == {OpenSend(id)};
    evs, v := Then(w, evs, v, Do(OpenSend(id), false));
  }

  /** The rest of deleteObjectLocal. */
  lemma DeletedSteps(w: World, past: seq<Event>, u: World) returns (evs: seq<Event>, v: World)
    requires SequentialTo(w, past, u) && u.tasks == {DeleteRows}
    ensures SequentialTo(w, evs, v) && v == u.(row := None, objectThere := false, tasks := {})
  {
    evs, v := Then(w, past, u, Do(DeleteRows, false));
    evs, v := PurgedStep(w, evs, v);
  }

  /** rejectObject, once its guard has passed. */
  lemma RejectedSteps(w: World) returns (evs: seq<Event>, v: World)
    requires w.tasks == {} && IsPending(w.row)
    ensures SequentialTo(w, evs, v) && v.row == None && !v.objectThere && v.tasks == {} && v.rows == w.rows
    ensures v.replies == w.replies + {RejectObject} && v.deleteAfterOpening == w.deleteAfterOpening
  {
    var id := w.row.value.id;
    evs, v := Then(w, [], w, BeginReject);
    assert v.tasks == {RejectSend(id)};
    evs, v := Then(w, evs, v, Do(RejectSend(id), false));
    assert v.tasks == {RejectDelete(id)};
    evs, v := Then(w, evs, v, Do(RejectDelete(id), false));
    evs, v := PurgedStep(w, evs, v);
  }

  /** The last write of a deletion. */
  lemma PurgedStep(w: World, past: seq<Event>, u: World) returns (evs: seq<Event>, v: World)
    requires SequentialTo(w, past, u) && u.tasks == {Purge}
    ensures SequentialTo(w, evs, v) && v == u.(objectThere := false, tasks := {})
  {
    evs, v := Then(w, past, u, Do(Purge, false));
  }

  /** sweepExpiredObjects on one object. */
  lemma SweptSteps(w: World) returns (evs: seq<Event>, v: World)
    requires w.tasks == {} && w.objectThere
    ensures SequentialTo(w, evs, v) && !v.objectThere && v.tasks == {} && v.rows == w.rows && v.replies == w.replies
    ensures v.row == (if w.row.Some? && w.row.value.status != Opened then Some(Row(w.row.value.id, Expired)) else w.row)
    ensures v.deleteAfterOpening == w.deleteAfterOpening
  {
    evs, v := Then(w, [], w, BeginSweep);
    assert v.tasks == {SweepRead};
    evs, v := Then(w, evs, v, Do(SweepRead, false));
    if w.row.Some? && w.row.value.status != Opened {
      assert v.tasks == {SweepWrite(w.row.value.id)};
      evs, v := Then(w, evs, v, Do(SweepWrite(w.row.value.id), false));
    }
    evs, v := PurgedStep(w, evs, v);
  }

  class Recipient {
    /** The delivery row and the object, as stored, and the id the next row would get. */
    var delivery: Option<Row>
    var objectThere: bool
    var nextId: nat
    const deleteAfterOpening: bool
    /** The replies handed to sendOps, in order. */
    var sent: seq<Reply>

    constructor (deleteAfterOpening: bool)
      ensures delivery == None && !objectThere && nextId == 0 && sent == []
      ensures this.deleteAfterOpening == deleteAfterOpening
      ensures In(Start(deleteAfterOpening))
    {
      delivery, objectThere, nextId, sent := None, false, 0, [];
      this.deleteAfterOpening := deleteAfterOpening;
    }

    /** No call is under way, and the tables and replies are those of the world. */
    ghost predicate In(w: World)
      reads this
    {
      && w.row == delivery && w.objectThere == objectThere && w.rows == nextId
      && w.deleteAfterOpening == deleteAfterOpening
      && w.tasks == {} && forall reply :: reply in w.replies <==> reply in sent
    }

    /** recordIncomingDelivery when the sender required confirmation, with the object just created. */
    method RecordIncomingDelivery(ghost w: World) returns (ghost v: World)
      requires In(w)
      modifies this`delivery, this`objectThere, this`nextId
      ensures objectThere && delivery == if old(delivery).None? then Some(Row(old(nextId), Pending)) else old(delivery)
      ensures v == After(w, Book) && In(v)
    {
      objectThere := true;
      if delivery.None? {
        delivery := Some(Row(nextId, Pending));
        nextId := nextId + 1;
      }
      v := After(w, Book);
    }

    method AcceptObject(ghost w: World) returns (ran: bool, ghost evs: seq<Event>, ghost v: World)
      requires In(w)
      modifies this`delivery, this`sent
      ensures ran <==> old(delivery).Some? && old(delivery).value.status == Pending
      ensures ran ==> delivery == Some(Row(old(delivery).value.id, Delivered)) && sent == old(sent) + [MarkDelivered]
      ensures !ran ==> delivery == old(delivery) && sent == old(sent)
      ensures SequentialTo(w, evs, v) && In(v)
    {
      evs, v := [], w;
      if delivery.None? || delivery.value.status != Pending { return false, evs, v; }
      var id := delivery.value.id;
      delivery := Some(Row(id, Delivered));
      sent := sent + [MarkDelivered];
      evs, v := Then(w, evs, v, BeginAccept);
      evs, v := Then(w, evs, v, Do(AcceptWrite(id), false));
      assert v.tasks == {AcceptSend(id)};
      evs, v := Then(w, evs, v, Do(AcceptSend(id), false));
      ran := true;
    }

    method RejectObject(ghost w: World) returns (ran: bool, ghost evs: seq<Event>, ghost v: World)
      requires In(w)
      modifies this`delivery, this`objectThere, this`sent
      ensures ran <==> old(delivery).Some? && old(delivery).value.status == Pending
      ensures ran ==> delivery == None && !objectThere && sent == old(sent) + [Reply.RejectObject]
      ensures !ran ==> delivery == old(delivery) && objectThere == old(objectThere) && sent == old(sent)
      ensures SequentialTo(w, evs, v) && In(v)
    {
      evs, v := [], w;
      if delivery.None? || delivery.value.status != Pending { return false, evs, v; }
      evs, v := RejectedSteps(w);
      sent := sent + [Reply.RejectObject];
      delivery := None;
      objectThere := false;
      ran := true;
    }

    method DeleteObjectLocal(ghost w: World) returns (ghost evs: seq<Event>, ghost v: World)
      requires In(w)
      modifies this`delivery, this`objectThere
      ensures delivery == None && !objectThere
      ensures SequentialTo(w, evs, v) && In(v)
    {
      delivery := None;
      objectThere := false;
      evs, v := Then(w, [], w, BeginDelete);
      evs, v := DeletedSteps(w, evs, v);
    }

    /** markOpened on an object some other device created. */
    method MarkOpened(ghost w: World) returns (ran: bool, ghost evs: seq<Event>, ghost v: World)
      requires In(w)
      modifies this`delivery, this`objectThere, this`sent
      ensures ran <==> old(objectThere) && old(delivery).Some? && old(delivery).value.status in {Delivered, Expired}
      ensures ran && !deleteAfterOpening ==> objectThere && delivery == Some(Row(old(delivery).value.id, Opened))
      ensures ran && deleteAfterOpening ==> !objectThere && delivery == None
      ensures sent == if ran then old(sent) + [Reply.MarkOpened] else old(sent)
      ensures !ran ==> delivery == old(delivery) && objectThere == old(objectThere)
      ensures SequentialTo(w, evs, v) && In(v)
    {
      evs, v := [], w;
      if !objectThere { return false, evs, v; }
      evs, v := Then(w, evs, v, BeginOpen);
      evs, v := Then(w, evs, v, Do(OpenRead, false));
      if delivery.None? || delivery.value.status == Opened || delivery.value.status == Pending { return false, evs, v; }
      var id := delivery.value.id;
      delivery := Some(Row(id, Opened));
      sent := sent + [Reply.MarkOpened];
      evs, v := OpenedSteps(w, evs, v);
      ran := true;
      if deleteAfterOpening {
        delivery := None;
        objectThere := false;
        evs, v := DeletedSteps(w, evs, v);
      }
    }

    /** sweepExpiredObjects, once the object's expiry has passed. */
    method SweepExpired(ghost w: World) returns (ghost evs: seq<Event>, ghost v: World)
      requires In(w)
      modifies this`delivery, this`objectThere
      ensures !objectThere
      ensures delivery == if old(objectThere) && old(delivery).Some? && old(delivery).value.status != Opened
                          then Some(Row(old(delivery).value.id, Expired)) else old(delivery)
      ensures SequentialTo(w, evs, v) && In(v)
    {
      evs, v := [], w;
      if !objectThere { return; }
      evs, v := SweptSteps(w);
      if delivery.Some? && delivery.value.status != Opened {
        delivery := Some(Row(delivery.value.id, Expired));
      }
      objectThere := false;
    }
  }

  /** The sender's row: applyOp's MARK_DELIVERED, MARK_OPENED and REJECT_OBJECT cases. */
  class SenderRecord {
    var status: Option<Status>

    constructor ()
      ensures status == Some(SQueued)
    {
      status := Some(SQueued);
    }

    method ApplyReply(reply: Reply, ghost w: World)
      requires w.sender == status && reply in w.replies
      modifies this
      ensures old(status).None? ==> status == None
      ensures old(status).Some? && reply.MarkDelivered? ==>
                status == Some(if old(status).value == SOpened then SOpened else SDelivered)
      ensures old(status).Some? && reply.MarkOpened? ==> status == Some(SOpened)
      ensures old(status).Some? && reply.RejectObject? ==> status == Some(SRejected)
      ensures status == After(w, Arrive(reply)).sender
    {
      if status.None? { return; }
      match reply {
        case MarkDelivered => if status.value != SOpened { status := Some(SDelivered); }
        case MarkOpened => status := Some(SOpened);
        case RejectObject => status := Some(SRejected);
      }
    }
  }
}
