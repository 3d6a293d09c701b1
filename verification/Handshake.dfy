/** The confirmation handshake (packages/sync/src/engine.ts): one object sent with requireConfirmation,
    its delivery row on the recipient and on the sender, and the replies between them.  The engine's
    calls are asynchronous, so each is a sequence of reads and writes that others may come between. */
module Handshake {
  import opened Wrappers

  datatype RowStatus = Pending | Delivered | Opened | Expired
  /** The recipient's row; `id` tells a row from a later one for the same object. */
  datatype Row = Row(id: nat, status: RowStatus)
  datatype Reply = MarkDelivered | MarkOpened | RejectObject
  datatype Status = SQueued | SSending | SDelivered | SOpened | SRejected | SFailed | SExpired

  /** The next write or read of a call in progress; its guard has been passed. */
  datatype Task =
    | AcceptWrite(id: nat) | AcceptSend(id: nat)
    | RejectSend(id: nat) | RejectDelete(id: nat)
    | OpenRead | OpenWrite(id: nat) | OpenSend(id: nat)
    | SweepRead | SweepWrite(id: nat)
    | DeleteRows | Purge

  /** `replies` holds the messages sent so far; the network may deliver each any number of times.  `passed` is
      every status the sender's record has had.  `rows` counts the rows made, `accepts` the rows acceptObject has
      written and `rejects` those for which rejectObject has sent its message; the last four are the events
      that Harmless excludes.  All of these but `replies` are history. */
  datatype World = World(
    row: Option<Row>, objectThere: bool, deleteAfterOpening: bool, tasks: set<Task>, replies: set<Reply>,
    sender: Option<Status>, passed: set<Status>, rows: nat, accepts: set<nat>, rejects: set<nat>,
    overlapped: bool, cutShort: bool, rebooked: bool, openedUnaccepted: bool)

  /** `more` in Do: another call has reached the same point, and is still there. */
  datatype Event =
    | Book
    | BeginAccept | BeginReject | BeginOpen | BeginSweep | BeginDelete
    | Do(t: Task, more: bool)
    | RemoteDelete | Reload
    | Arrive(reply: Reply)
    | SenderSends | SenderFails | SenderExpires | SenderForgets

  predicate IsPending(row: Option<Row>) { row.Some? && row.value.status == Pending }

  /** An accept of this row is past its guard and has not written yet. */
  predicate Accepting(w: World, id: nat) { AcceptWrite(id) in w.tasks }

  /** A reject of this row is past its guard and has not deleted yet. */
  predicate Rejecting(w: World, id: nat) { RejectSend(id) in w.tasks || RejectDelete(id) in w.tasks }

  /** An accept and a reject of the same row are both under way once this call begins. */
  predicate Contends(w: World, ev: Event) {
    w.row.Some? &&
    ((ev.BeginReject? && Accepting(w, w.row.value.id)) || (ev.BeginAccept? && Rejecting(w, w.row.value.id)))
  }

  /** A reload between the reject message and the deletion of a row that can still be accepted. */
  predicate CutsReject(w: World, ev: Event) { ev.Reload? && RejectUnfinished(w) }

  predicate RejectUnfinished(w: World) { IsPending(w.row) && RejectDelete(w.row.value.id) in w.tasks }

  /** recordIncomingDelivery makes a row only when there is none. */
  predicate MakesRow(w: World, ev: Event) { ev.Book? && w.row.None? }

  /** A booking that makes a row again. */
  predicate Rebooks(w: World, ev: Event) { MakesRow(w, ev) && w.rows > 0 }

  /** A markOpened that goes on with an expired row that was never accepted. */
  predicate OpensUnaccepted(w: World, ev: Event) { ev.Do? && ev.t == OpenRead && UnacceptedPasses(w) }

  predicate UnacceptedPasses(w: World) { OpenPasses(w.row) && w.row.value.id !in w.accepts }

  predicate Enabled(w: World, ev: Event) {
    match ev
    case BeginAccept => IsPending(w.row)
    case BeginReject => IsPending(w.row)
    case BeginOpen => w.objectThere
    case BeginSweep => w.objectThere
    case Do(t, _) => t in w.tasks
    case Arrive(reply) => reply in w.replies
    case _ => true
  }

  function With(w: World, t: Task): World { w.(tasks := w.tasks + {t}) }

  /** A row is updated by its id: nothing happens when it is no longer there. */
  function SetRow(row: Option<Row>, id: nat, status: RowStatus): Option<Row> {
    if row.Some? && row.value.id == id then Some(Row(id, status)) else row
  }

  function RowAfter(row: Option<Row>, t: Task): Option<Row> {
    match t
    case AcceptWrite(id) => SetRow(row, id, Delivered)
    case OpenWrite(id) => SetRow(row, id, Opened)
    case SweepWrite(id) => SetRow(row, id, Expired)
    case RejectDelete(_) => None
    case DeleteRows => None
    case _ => row
  }

  function RepliesAfter(replies: set<Reply>, t: Task): set<Reply> {
    match t
    case AcceptSend(_) => replies + {MarkDelivered}
    case OpenSend(_) => replies + {MarkOpened}
    case RejectSend(_) => replies + {RejectObject}
    case _ => replies
  }

  /** markOpened goes on unless there is no row, or it is opened already or still pending. */
  predicate OpenPasses(row: Option<Row>) { row.Some? && row.value.status != Opened && row.value.status != Pending }

  /** What a call does next, if anything. */
  function NextTask(w: World, t: Task): Option<Task> {
    match t
    case AcceptWrite(id) => Some(AcceptSend(id))
    case AcceptSend(_) => None
    case RejectSend(id) => Some(RejectDelete(id))
    case RejectDelete(_) => Some(Purge)
    case OpenRead => if OpenPasses(w.row) then Some(OpenWrite(w.row.value.id)) else None
    case OpenWrite(id) => Some(OpenSend(id))
    case OpenSend(_) => if w.deleteAfterOpening then Some(DeleteRows) else None
    case SweepRead =>
      if w.row.Some? && w.row.value.status != Opened then Some(SweepWrite(w.row.value.id)) else Some(Purge)
    case SweepWrite(_) => Some(Purge)
    case DeleteRows => Some(Purge)
    case Purge => None
  }

  function TasksAfter(w: World, t: Task, more: bool): set<Task> {
    (if more then w.tasks else w.tasks - {t}) + (if NextTask(w, t).Some? then {NextTask(w, t).value} else {})
  }

  /** One read or write of a call in progress. */
  function Done(w: World, t: Task, more: bool): World {
    w.(row := RowAfter(w.row, t), replies := RepliesAfter(w.replies, t), tasks := TasksAfter(w, t, more),
       objectThere := w.objectThere && t != Purge,
       accepts := if t.AcceptWrite? then w.accepts + {t.id} else w.accepts,
       rejects := if t.RejectSend? then w.rejects + {t.id} else w.rejects,
       openedUnaccepted := w.openedUnaccepted || (t == OpenRead && UnacceptedPasses(w)))
  }

  /** recordIncomingDelivery for a gated object. */
  function Booked(w: World): World {
    if w.row.None?
    then w.(objectThere := true, row := Some(Row(w.rows, Pending)), rows := w.rows + 1,
            rebooked := w.rebooked || w.rows > 0)
    else w.(objectThere := true)
  }

  /** What the sender makes of a reply. */
  function OnReply(status: Status, reply: Reply): Status {
    match reply
    case MarkDelivered => if status == SOpened then SOpened else SDelivered
    case MarkOpened => SOpened
    case RejectObject => SRejected
  }

  /** The sender's record after an event of its own or a reply. */
  function NextStatus(status: Status, ev: Event): Status {
    match ev
    case Arrive(reply) => OnReply(status, reply)
    case SenderSends => SSending
    case SenderFails => if status == SSending then SFailed else status
    case SenderExpires => if status != SOpened then SExpired else status
    case _ => status
  }

  function AtSenderAfter(w: World, ev: Event): World {
    if w.sender.None? then w
    else w.(sender := Some(NextStatus(w.sender.value, ev)), passed := w.passed + {NextStatus(w.sender.value, ev)})
  }

  function After(w: World, ev: Event): World
    requires Enabled(w, ev)
  {
    match ev
    case Book => Booked(w)
    case BeginAccept =>
      With(w, AcceptWrite(w.row.value.id)).(overlapped := w.overlapped || Rejecting(w, w.row.value.id))
    case BeginReject =>
      With(w, RejectSend(w.row.value.id)).(overlapped := w.overlapped || Accepting(w, w.row.value.id))
    case BeginOpen => With(w, OpenRead)
    case BeginSweep => With(w, SweepRead)
    case BeginDelete => With(w, DeleteRows)
    case Do(t, more) => Done(w, t, more)
    case RemoteDelete => w.(objectThere := false)
    case Reload => w.(tasks := {}, cutShort := w.cutShort || RejectUnfinished(w))
    case SenderForgets => w.(sender := None)
    case _ => AtSenderAfter(w, ev)
  }

  predicate Legal(w: World, evs: seq<Event>)
    decreases |evs|
  {
    evs == [] || (Enabled(w, evs[0]) && Legal(After(w, evs[0]), evs[1..]))
  }

  function RunFrom(w: World, evs: seq<Event>): World
    requires Legal(w, evs)
    decreases |evs|
  {
    if evs == [] then w else RunFrom(After(w, evs[0]), evs[1..])
  }

  function Start(deleteAfterOpening: bool): World {
    World(None, false, deleteAfterOpening, {}, {}, Some(SQueued), {SQueued}, 0, {}, {}, false, false, false, false)
  }

  // ------------------------------------------------------------ what every step keeps

  predicate Accepted(w: World) { w.accepts != {} || w.openedUnaccepted }

  /** Every call in progress goes back to a call that passed its guard. */
  ghost predicate CallsCaused(w: World) {
    && (forall id: nat :: AcceptSend(id) in w.tasks ==> id in w.accepts)
    && (forall id: nat :: RejectDelete(id) in w.tasks ==> id in w.rejects)
    && (forall id: nat :: OpenWrite(id) in w.tasks || OpenSend(id) in w.tasks ==> id in w.accepts || w.openedUnaccepted)
  }

  /** So does every reply and every status. */
  predicate RecordCaused(w: World) {
    && (MarkDelivered in w.replies ==> w.accepts != {})
    && (MarkOpened in w.replies ==> Accepted(w))
    && (RejectObject in w.replies ==> w.rejects != {})
    && (SDelivered in w.passed ==> w.accepts != {})
    && (SOpened in w.passed ==> Accepted(w))
    && (SRejected in w.passed ==> w.rejects != {})
    && StatusKnown(w)
  }

  ghost predicate IdsKnown(w: World) {
    && (w.row.Some? ==> w.row.value.id < w.rows)
    && (forall id: nat :: AcceptWrite(id) in w.tasks || RejectSend(id) in w.tasks ==> id < w.rows)
    && (forall id :: id in w.accepts || id in w.rejects ==> id < w.rows)
    && (!w.rebooked ==> w.rows <= 1)
  }

  /** An accepted row is no longer pending; a rejected one that still is, is about to be deleted. */
  predicate RowKnown(w: World) {
    IsPending(w.row) ==>
      && w.row.value.id !in w.accepts
      && (w.row.value.id in w.rejects && !w.cutShort ==> RejectDelete(w.row.value.id) in w.tasks)
  }

  /** An accept and a reject of one row: never without an overlap or a cut. */
  ghost predicate Exclusive(w: World) {
    !w.overlapped && !w.cutShort ==>
      forall id: nat :: id in w.accepts || AcceptWrite(id) in w.tasks ==> id !in w.rejects && RejectSend(id) !in w.tasks
  }

  ghost predicate Inv(w: World) { CallsCaused(w) && RecordCaused(w) && IdsKnown(w) && RowKnown(w) && Exclusive(w) }

  lemma DoneTasks(w: World, t: Task, more: bool)
    ensures forall u :: u in TasksAfter(w, t, more) ==> u in w.tasks || NextTask(w, t) == Some(u)
    ensures forall u :: u in w.tasks && u != t ==> u in TasksAfter(w, t, more)
  {
  }

  lemma DoneKeepsCalls(w: World, t: Task, more: bool)
    requires CallsCaused(w) && t in w.tasks
    ensures CallsCaused(After(w, Do(t, more)))
  {
    DoneTasks(w, t, more);
  }

  lemma DoneKeepsRecord(w: World, t: Task, more: bool)
    requires CallsCaused(w) && RecordCaused(w) && t in w.tasks
    ensures RecordCaused(After(w, Do(t, more)))
  {
  }

  lemma DoneKeepsIds(w: World, t: Task, more: bool)
    requires IdsKnown(w) && t in w.tasks
    ensures IdsKnown(After(w, Do(t, more)))
  {
    DoneTasks(w, t, more);
  }

  lemma DoneKeepsRow(w: World, t: Task, more: bool)
    requires RowKnown(w) && t in w.tasks
    ensures RowKnown(After(w, Do(t, more)))
  {
    if IsPending(RowAfter(w.row, t)) {
      RowStays(w.row, t);
      StillDeleting(w, t, more, w.row.value.id);
    }
  }

  /** A row that is pending after a write was so before, and it was not acceptObject's write or a deletion. */
  lemma RowStays(row: Option<Row>, t: Task)
    requires IsPending(RowAfter(row, t))
    ensures row == RowAfter(row, t) && t != AcceptWrite(row.value.id) && !t.RejectDelete?
  {
  }

  lemma StillDeleting(w: World, t: Task, more: bool, id: nat)
    requires !t.RejectDelete?
    ensures RejectDelete(id) in w.tasks || t == RejectSend(id) ==> RejectDelete(id) in TasksAfter(w, t, more)
  {
  }

  lemma DoneKeepsExclusive(w: World, t: Task, more: bool)
    requires Exclusive(w) && t in w.tasks
    ensures Exclusive(After(w, Do(t, more)))
  {
    DoneTasks(w, t, more);
  }

  lemma DoneKeepsInv(w: World, t: Task, more: bool)
    requires Inv(w) && t in w.tasks
    ensures Inv(After(w, Do(t, more)))
  {
    DoneKeepsCalls(w, t, more);
    DoneKeepsRecord(w, t, more);
    DoneKeepsIds(w, t, more);
    DoneKeepsRow(w, t, more);
    DoneKeepsExclusive(w, t, more);
  }

  lemma BeginKeepsInv(w: World, ev: Event)
    requires Inv(w) && Enabled(w, ev) && (ev.BeginAccept? || ev.BeginReject?)
    ensures Inv(After(w, ev))
  {
  }

  predicate AtSender(ev: Event) {
    ev.Arrive? || ev.SenderSends? || ev.SenderFails? || ev.SenderExpires? || ev.SenderForgets?
  }

  /** Where each status comes from. */
  lemma NextCaused(status: Status, ev: Event)
    requires AtSender(ev)
    ensures var next := NextStatus(status, ev);
            && (next == SDelivered ==> status == SDelivered || ev == Arrive(MarkDelivered))
            && (next == SOpened ==> status == SOpened || ev == Arrive(MarkOpened))
            && (next == SRejected ==> status == SRejected || ev == Arrive(RejectObject))
  {
  }

  lemma SenderIs(w: World, ev: Event)
    requires Enabled(w, ev) && AtSender(ev)
    ensures After(w, ev) == if ev.SenderForgets? then w.(sender := None) else AtSenderAfter(w, ev)
  {
    match ev
    case SenderForgets =>
    case _ =>
  }

  lemma SenderCaused(w: World, ev: Event)
    requires RecordCaused(w) && Enabled(w, ev) && AtSender(ev)
    ensures RecordCaused(AtSenderAfter(w, ev))
  {
    if w.sender.Some? {
      NextCaused(w.sender.value, ev);
      var v, next := AtSenderAfter(w, ev), NextStatus(w.sender.value, ev);
      assert forall s :: s in v.passed <==> s in w.passed || s == next;
    }
  }

  lemma SenderKeepsInv(w: World, ev: Event)
    requires Inv(w) && Enabled(w, ev) && AtSender(ev)
    ensures Inv(After(w, ev))
  {
    SenderIs(w, ev);
    SenderCaused(w, ev);
    SameCalls(w, After(w, ev));
  }

  lemma SameCalls(w: World, v: World)
    requires Inv(w) && v == w.(sender := v.sender, passed := v.passed) && RecordCaused(v)
    ensures Inv(v)
  {
  }

  lemma BookKeepsInv(w: World)
    requires Inv(w)
    ensures Inv(After(w, Book))
  {
    var v := After(w, Book);
    if w.row.None? {
      assert v == w.(objectThere := true, row := Some(Row(w.rows, Pending)), rows := w.rows + 1,
                     rebooked := w.rebooked || w.rows > 0);
      NewRowKnown(w, v);
    } else {
      assert v == w.(objectThere := true);
    }
  }

  lemma NewRowKnown(w: World, v: World)
    requires IdsKnown(w) && w.row.None?
    requires v == w.(objectThere := true, row := Some(Row(w.rows, Pending)), rows := w.rows + 1,
                     rebooked := w.rebooked || w.rows > 0)
    ensures IdsKnown(v) && RowKnown(v)
  {
  }

  lemma RecipientKeepsInv(w: World, ev: Event)
    requires Inv(w) && Enabled(w, ev)
    requires ev.BeginOpen? || ev.BeginSweep? || ev.BeginDelete? || ev.RemoteDelete? || ev.Reload?
    ensures Inv(After(w, ev))
  {
    var v := After(w, ev);
    assert RowKnown(v);
    assert CallsCaused(v) && RecordCaused(v) && IdsKnown(v);
    assert Exclusive(v);
  }

  lemma StepKeepsInv(w: World, ev: Event)
    requires Inv(w) && Enabled(w, ev)
    ensures Inv(After(w, ev))
  {
    match ev
    case Do(t, more) => DoneKeepsInv(w, t, more);
    case BeginAccept => BeginKeepsInv(w, ev);
    case BeginReject => BeginKeepsInv(w, ev);
    case Book => BookKeepsInv(w);
    case BeginOpen => RecipientKeepsInv(w, ev);
    case BeginSweep => RecipientKeepsInv(w, ev);
    case BeginDelete => RecipientKeepsInv(w, ev);
    case RemoteDelete => RecipientKeepsInv(w, ev);
    case Reload => RecipientKeepsInv(w, ev);
    case _ => SenderKeepsInv(w, ev);
  }

  lemma {:induction false} RunKeepsInv(w: World, evs: seq<Event>)
    requires Inv(w) && Legal(w, evs)
    ensures Inv(RunFrom(w, evs))
    decreases |evs|
  {
    if evs != [] {
      StepKeepsInv(w, evs[0]);
      RunKeepsInv(After(w, evs[0]), evs[1..]);
    }
  }

  // ------------------------------------------------------------ where the sender's record ends up

  lemma OthersKeepStatus(w: World, ev: Event)
    requires Enabled(w, ev) && !AtSender(ev)
    ensures After(w, ev).sender == w.sender
  {
    if ev.Do? { assert Done(w, ev.t, ev.more).sender == w.sender; }
  }

  lemma SenderStatus(w: World, ev: Event)
    requires Enabled(w, ev) && AtSender(ev) && w.sender.Some?
    ensures After(w, ev).sender == if ev.SenderForgets? then None else Some(NextStatus(w.sender.value, ev))
  {
    SenderIs(w, ev);
  }

  /** An opened record is lost in three ways only: a rejection arrives, the sender sends again, or it drops the record.
      No acceptance, sweep or failure, and no repeat of any of them, does it. */
  lemma LosesOpenedIff(w: World, ev: Event)
    requires Enabled(w, ev) && w.sender == Some(SOpened)
    ensures After(w, ev).sender != Some(SOpened)
            <==> ev == Arrive(RejectObject) || ev.SenderSends? || ev.SenderForgets?
  {
    if AtSender(ev) { SenderStatus(w, ev); } else { OthersKeepStatus(w, ev); }
  }

  /** Once opened, the record stays so whatever messages come late or again, in any order, until one of those three. */
  lemma {:induction false} OpenedStays(w: World, evs: seq<Event>)
    requires Legal(w, evs) && w.sender == Some(SOpened)
    requires forall i :: 0 <= i < |evs| ==>
               evs[i] != Arrive(RejectObject) && !evs[i].SenderSends? && !evs[i].SenderForgets?
    ensures RunFrom(w, evs).sender == Some(SOpened)
    decreases |evs|
  {
    if evs != [] {
      LosesOpenedIff(w, evs[0]);
      OpenedStays(After(w, evs[0]), evs[1..]);
    }
  }

  /** A record becomes opened, delivered or rejected exactly when that message arrives, but for a delivery
      confirmation that comes after the opening. */
  lemma BecomesIff(w: World, ev: Event)
    requires Enabled(w, ev) && w.sender.Some?
    ensures w.sender != Some(SOpened) ==> (After(w, ev).sender == Some(SOpened) <==> ev == Arrive(MarkOpened))
    ensures w.sender != Some(SRejected) ==> (After(w, ev).sender == Some(SRejected) <==> ev == Arrive(RejectObject))
    ensures w.sender != Some(SDelivered) ==>
              (After(w, ev).sender == Some(SDelivered) <==> ev == Arrive(MarkDelivered) && w.sender != Some(SOpened))
    ensures w.sender != Some(SFailed) ==>
              (After(w, ev).sender == Some(SFailed) <==> ev.SenderFails? && w.sender == Some(SSending))
    ensures w.sender != Some(SExpired) ==>
              (After(w, ev).sender == Some(SExpired) <==> ev.SenderExpires? && w.sender != Some(SOpened))
    ensures w.sender != Some(SSending) ==> (After(w, ev).sender == Some(SSending) <==> ev.SenderSends?)
  {
    if AtSender(ev) { SenderStatus(w, ev); } else { OthersKeepStatus(w, ev); }
  }

  /** A rejected record leaves that status exactly when an acceptance arrives or the sender moves on. */
  lemma LosesRejectedIff(w: World, ev: Event)
    requires Enabled(w, ev) && w.sender == Some(SRejected)
    ensures After(w, ev).sender != Some(SRejected)
            <==> ev == Arrive(MarkDelivered) || ev == Arrive(MarkOpened)
                 || ev.SenderSends? || ev.SenderExpires? || ev.SenderForgets?
  {
    if AtSender(ev) { SenderStatus(w, ev); } else { OthersKeepStatus(w, ev); }
  }

  // ------------------------------------------------------------ what the sender's record can be trusted for

  /** In every run, whatever the interleaving: the record says delivered only if acceptObject wrote the row, rejected
      only if rejectObject sent its message, and opened only if acceptObject wrote the row or markOpened read an
      expired row that was never accepted. */
  lemma RecordIsTrue(deleteAfterOpening: bool, evs: seq<Event>)
    requires Legal(Start(deleteAfterOpening), evs)
    ensures var w := RunFrom(Start(deleteAfterOpening), evs);
            && (SDelivered in w.passed ==> w.accepts != {})
            && (SOpened in w.passed ==> w.accepts != {} || w.openedUnaccepted)
            && (SRejected in w.passed ==> w.rejects != {})
  {
    RunKeepsInv(Start(deleteAfterOpening), evs);
  }

  predicate PassedBoth(w: World) { SRejected in w.passed && (SDelivered in w.passed || SOpened in w.passed) }

  // ------------------------------------------------------------ exactly when both are still to come

  /** The sender's record can still turn to rejected: a message is under way, rejectObject is past its guard, or
      its guard passes on the row. */
  predicate RejectComes(w: World) {
    || SRejected in w.passed
    || (w.sender.Some? &&
        (RejectObject in w.replies || IsPending(w.row) || exists t :: t in w.tasks && t.RejectSend?))
  }

  /** acceptObject or markOpened past its guard. */
  predicate AcceptTask(t: Task) { t.AcceptWrite? || t.AcceptSend? || t.OpenWrite? || t.OpenSend? }

  /** acceptObject's guard or markOpened's passes on the row, now or once a sweep past its own guard has written. */
  predicate Acceptable(w: World) {
    w.row.Some? && (w.row.value.status != Opened || SweepWrite(w.row.value.id) in w.tasks)
  }

  /** The sender's record can still turn to delivered or opened. */
  predicate AcceptComes(w: World) {
    || SDelivered in w.passed || SOpened in w.passed
    || (w.sender.Some? &&
        (MarkDelivered in w.replies || MarkOpened in w.replies || Acceptable(w) ||
         exists t :: t in w.tasks && AcceptTask(t)))
  }

  /** A run that makes no row. */
  predicate NoNewRow(w: World, evs: seq<Event>)
    requires Legal(w, evs)
    decreases |evs|
  {
    evs == [] || (!MakesRow(w, evs[0]) && NoNewRow(After(w, evs[0]), evs[1..]))
  }

  /** The record's present status is one it has had. */
  predicate StatusKnown(w: World) { w.sender.Some? ==> w.sender.value in w.passed }

  predicate PassesBoth(w: World, evs: seq<Event>) {
    Legal(w, evs) && NoNewRow(w, evs) && PassedBoth(RunFrom(w, evs))
  }

  /** Nothing but a new row makes a row pending or acceptable again. */
  lemma RejectStaysOut(w: World, ev: Event)
    requires StatusKnown(w) && Enabled(w, ev) && !MakesRow(w, ev) && !RejectComes(w)
    ensures !RejectComes(After(w, ev))
  {
    if ev.Do? {
      RejectNotDone(w, ev.t, ev.more);
    } else if AtSender(ev) {
      RejectNotSeen(w, ev);
    }
  }

  lemma RejectNotSeen(w: World, ev: Event)
    requires StatusKnown(w) && Enabled(w, ev) && AtSender(ev) && !RejectComes(w)
    ensures !RejectComes(After(w, ev))
  {
    SenderIs(w, ev);
    if w.sender.Some? { NextCaused(w.sender.value, ev); }
  }

  lemma RejectNotDone(w: World, t: Task, more: bool)
    requires t in w.tasks && !RejectComes(w)
    ensures !RejectComes(After(w, Do(t, more)))
  {
    if w.sender.Some? {
      assert !t.RejectSend? && !IsPending(w.row);
      DoneTasks(w, t, more);
      assert !IsPending(After(w, Do(t, more)).row);
    }
  }

  lemma AcceptStaysOut(w: World, ev: Event)
    requires StatusKnown(w) && Enabled(w, ev) && !MakesRow(w, ev) && !AcceptComes(w)
    ensures !AcceptComes(After(w, ev))
  {
    if ev.Do? {
      AcceptNotDone(w, ev.t, ev.more);
    } else if AtSender(ev) {
      AcceptNotSeen(w, ev);
    }
  }

  lemma AcceptNotSeen(w: World, ev: Event)
    requires StatusKnown(w) && Enabled(w, ev) && AtSender(ev) && !AcceptComes(w)
    ensures !AcceptComes(After(w, ev))
  {
    SenderIs(w, ev);
    if w.sender.Some? { NextCaused(w.sender.value, ev); }
  }

  lemma AcceptNotDone(w: World, t: Task, more: bool)
    requires t in w.tasks && !AcceptComes(w)
    ensures !AcceptComes(After(w, Do(t, more)))
  {
    if w.sender.Some? {
      assert !AcceptTask(t) && !Acceptable(w);
      DoneTasks(w, t, more);
      if NextTask(w, t).Some? { assert !AcceptTask(NextTask(w, t).value); }
      assert !Acceptable(After(w, Do(t, more)));
    }
  }

  lemma StatusStaysKnown(w: World, ev: Event)
    requires StatusKnown(w) && Enabled(w, ev)
    ensures StatusKnown(After(w, ev))
  {
  }

  lemma {:induction false} BothNeeded(w: World, evs: seq<Event>)
    requires StatusKnown(w) && PassesBoth(w, evs)
    ensures RejectComes(w) && AcceptComes(w)
    decreases |evs|
  {
    if evs != [] {
      StatusStaysKnown(w, evs[0]);
      BothNeeded(After(w, evs[0]), evs[1..]);
      if !RejectComes(w) { RejectStaysOut(w, evs[0]); }
      if !AcceptComes(w) { AcceptStaysOut(w, evs[0]); }
    }
  }

  lemma {:induction false} Append(w: World, evs: seq<Event>, more: seq<Event>)
    requires Legal(w, evs) && Legal(RunFrom(w, evs), more)
    ensures Legal(w, evs + more) && RunFrom(w, evs + more) == RunFrom(RunFrom(w, evs), more)
    ensures NoNewRow(w, evs) && NoNewRow(RunFrom(w, evs), more) ==> NoNewRow(w, evs + more)
    decreases |evs|
  {
    if evs == [] {
      assert evs + more == more;
    } else {
      Append(After(w, evs[0]), evs[1..], more);
      assert (evs + more)[1..] == evs[1..] + more;
    }
  }

  /** `evs` leads from w to v and makes no row. */
  predicate Leads(w: World, evs: seq<Event>, v: World) { Legal(w, evs) && NoNewRow(w, evs) && RunFrom(w, evs) == v }

  lemma Go(w: World, past: seq<Event>, u: World, ev: Event) returns (evs: seq<Event>, v: World)
    requires Leads(w, past, u) && Enabled(u, ev) && !MakesRow(u, ev)
    ensures Leads(w, evs, v) && v == After(u, ev)
  {
    v := After(u, ev);
    assert [ev][1..] == [] && Leads(u, [ev], v);
    Append(w, past, [ev]);
    evs := past + [ev];
  }

  /** A reply on the network arrives. */
  lemma ReplyArrives(w: World, past: seq<Event>, u: World, reply: Reply) returns (evs: seq<Event>, v: World)
    requires Leads(w, past, u) && u.sender.Some? && reply in u.replies
    ensures Leads(w, evs, v) && v == AtSenderAfter(u, Arrive(reply))
  {
    evs, v := Go(w, past, u, Arrive(reply));
  }

  /** rejectObject goes on from its guard as far as its message, which arrives. */
  lemma RejectArrives(w: World, past: seq<Event>, u: World, id: nat) returns (evs: seq<Event>, v: World)
    requires Leads(w, past, u) && u.sender.Some? && RejectSend(id) in u.tasks
    ensures Leads(w, evs, v) && SRejected in v.passed && u.passed <= v.passed && v.sender.Some?
    ensures v == u.(tasks := v.tasks, replies := u.replies + {RejectObject}, rejects := u.rejects + {id},
                    sender := v.sender, passed := v.passed)
    ensures v.tasks == u.tasks - {RejectSend(id)} + {RejectDelete(id)}
  {
    evs, v := Go(w, past, u, Do(RejectSend(id), false));
    evs, v := ReplyArrives(w, evs, v, RejectObject);
  }

  /** acceptObject likewise. */
  lemma AcceptArrives(w: World, past: seq<Event>, u: World, id: nat) returns (evs: seq<Event>, v: World)
    requires Leads(w, past, u) && u.sender.Some? && AcceptWrite(id) in u.tasks
    ensures Leads(w, evs, v) && (SDelivered in v.passed || SOpened in v.passed)
    ensures u.passed <= v.passed && v.sender.Some?
    ensures v == u.(row := SetRow(u.row, id, Delivered), tasks := v.tasks, replies := u.replies + {MarkDelivered},
                    accepts := u.accepts + {id}, sender := v.sender, passed := v.passed)
    ensures forall t :: t in u.tasks && !t.AcceptWrite? && !t.AcceptSend? ==> t in v.tasks
  {
    DoneTasks(u, AcceptWrite(id), false);
    evs, v := Go(w, past, u, Do(AcceptWrite(id), false));
    assert AcceptSend(id) in v.tasks;
    DoneTasks(v, AcceptSend(id), false);
    evs, v := Go(w, evs, v, Do(AcceptSend(id), false));
    evs, v := ReplyArrives(w, evs, v, MarkDelivered);
  }

  /** markOpened likewise. */
  lemma OpenArrives(w: World, past: seq<Event>, u: World, id: nat) returns (evs: seq<Event>, v: World)
    requires Leads(w, past, u) && u.sender.Some? && OpenWrite(id) in u.tasks
    ensures Leads(w, evs, v) && SOpened in v.passed && u.passed <= v.passed
    ensures v == u.(row := SetRow(u.row, id, Opened), tasks := v.tasks, replies := u.replies + {MarkOpened},
                    sender := v.sender, passed := v.passed)
  {
    evs, v := Go(w, past, u, Do(OpenWrite(id), false));
    assert OpenSend(id) in v.tasks;
    evs, v := Go(w, evs, v, Do(OpenSend(id), false));
    evs, v := ReplyArrives(w, evs, v, MarkOpened);
  }

  /** A markOpened that reads a delivered or expired row; a repeated booking brings the object back if need be. */
  lemma OpenFromRow(w: World, past: seq<Event>, u: World) returns (evs: seq<Event>, v: World)
    requires Leads(w, past, u) && u.sender.Some? && OpenPasses(u.row)
    ensures Leads(w, evs, v) && SOpened in v.passed && u.passed <= v.passed
  {
    evs, v := Go(w, past, u, Book);
    evs, v := Go(w, evs, v, BeginOpen);
    assert OpenRead in v.tasks;
    evs, v := Go(w, evs, v, Do(OpenRead, false));
    assert OpenWrite(u.row.value.id) in v.tasks;
    evs, v := OpenArrives(w, evs, v, u.row.value.id);
  }

  /** Wherever a rejection can still come from, it arrives, and takes nothing from what an acceptance can come from. */
  lemma ToRejected(w: World) returns (evs: seq<Event>, v: World)
    requires RejectComes(w)
    ensures Leads(w, evs, v) && SRejected in v.passed && w.passed <= v.passed
    ensures v.row == w.row && w.replies <= v.replies && v.sender.Some? == w.sender.Some?
    ensures forall t :: t in w.tasks && !t.RejectSend? ==> t in v.tasks
  {
    evs, v := [], w;
    if SRejected in w.passed { return; }
    if RejectObject in w.replies {
      evs, v := ReplyArrives(w, evs, v, RejectObject);
    } else if t :| t in w.tasks && t.RejectSend? {
      evs, v := RejectArrives(w, evs, v, t.id);
    } else {
      evs, v := RejectFromRow(w);
    }
  }

  lemma RejectFromRow(w: World) returns (evs: seq<Event>, v: World)
    requires w.sender.Some? && IsPending(w.row)
    ensures Leads(w, evs, v) && SRejected in v.passed && w.passed <= v.passed
    ensures v.row == w.row && w.replies <= v.replies && v.sender.Some?
    ensures forall t :: t in w.tasks && !t.RejectSend? ==> t in v.tasks
  {
    evs, v := Go(w, [], w, BeginReject);
    assert v == With(w, RejectSend(w.row.value.id)).(overlapped := v.overlapped);
    evs, v := RejectArrives(w, evs, v, w.row.value.id);
  }

  lemma FromTask(w: World, past: seq<Event>, u: World, t: Task) returns (evs: seq<Event>, v: World)
    requires Leads(w, past, u) && u.sender.Some? && t in u.tasks && AcceptTask(t)
    ensures Leads(w, evs, v) && (SDelivered in v.passed || SOpened in v.passed) && u.passed <= v.passed
  {
    match t
    case AcceptWrite(id) => evs, v := AcceptArrives(w, past, u, id);
    case OpenWrite(id) => evs, v := OpenArrives(w, past, u, id);
    case AcceptSend(id) =>
      evs, v := Go(w, past, u, Do(t, false));
      evs, v := ReplyArrives(w, evs, v, MarkDelivered);
    case OpenSend(id) =>
      evs, v := Go(w, past, u, Do(t, false));
      evs, v := ReplyArrives(w, evs, v, MarkOpened);
  }

  /** The guards pass on a row that is pending, delivered or expired; a sweep under way makes an opened row expired. */
  lemma FromRow(w: World, past: seq<Event>, u: World) returns (evs: seq<Event>, v: World)
    requires Leads(w, past, u) && u.sender.Some? && Acceptable(u)
    ensures Leads(w, evs, v) && (SDelivered in v.passed || SOpened in v.passed) && u.passed <= v.passed
  {
    var id := u.row.value.id;
    if IsPending(u.row) {
      evs, v := Go(w, past, u, BeginAccept);
      evs, v := AcceptArrives(w, evs, v, id);
    } else if OpenPasses(u.row) {
      evs, v := OpenFromRow(w, past, u);
    } else {
      evs, v := Go(w, past, u, Do(SweepWrite(id), false));
      evs, v := OpenFromRow(w, evs, v);
    }
  }

  lemma ToAccepted(w: World, past: seq<Event>, u: World) returns (evs: seq<Event>, v: World)
    requires Leads(w, past, u) && AcceptComes(u)
    ensures Leads(w, evs, v) && (SDelivered in v.passed || SOpened in v.passed) && u.passed <= v.passed
  {
    evs, v := past, u;
    if SDelivered in u.passed || SOpened in u.passed { return; }
    if MarkDelivered in u.replies {
      evs, v := ReplyArrives(w, evs, v, MarkDelivered);
    } else if MarkOpened in u.replies {
      evs, v := ReplyArrives(w, evs, v, MarkOpened);
    } else if Acceptable(u) {
      evs, v := FromRow(w, past, u);
    } else {
      var t :| t in u.tasks && AcceptTask(t);
      evs, v := FromTask(w, past, u, t);
    }
  }

  lemma BothReachableFrom(w: World)
    requires StatusKnown(w)
    ensures (exists evs :: PassesBoth(w, evs)) <==> RejectComes(w) && AcceptComes(w)
  {
    if RejectComes(w) && AcceptComes(w) {
      var evs, u := ToRejected(w);
      if !(SDelivered in w.passed || SOpened in w.passed) {
        if t :| t in w.tasks && AcceptTask(t) { assert t in u.tasks; }
      }
      var more, v := ToAccepted(w, evs, u);
      assert PassesBoth(w, more);
    }
    forall evs | PassesBoth(w, evs) ensures RejectComes(w) && AcceptComes(w) { BothNeeded(w, evs); }
  }

  /** Exactly when the handshake can still fail: from any reachable state, some continuation that makes no row takes
      the sender's record through both rejected and delivered or opened if and only if each of the two can still
      come. */
  lemma BothReachableIff(deleteAfterOpening: bool, past: seq<Event>)
    requires Legal(Start(deleteAfterOpening), past)
    ensures var w := RunFrom(Start(deleteAfterOpening), past);
            (exists evs :: PassesBoth(w, evs)) <==> RejectComes(w) && AcceptComes(w)
  {
    RunKeepsInv(Start(deleteAfterOpening), past);
    BothReachableFrom(RunFrom(Start(deleteAfterOpening), past));
  }

  /** Once a reject message is out: a later acceptance shows at the sender if and only if the row is still there for
      acceptObject or markOpened, one of them is past its guard, or its message is out too. */
  lemma AfterRejectIff(deleteAfterOpening: bool, past: seq<Event>, w: World)
    requires Legal(Start(deleteAfterOpening), past) && w == RunFrom(Start(deleteAfterOpening), past)
    requires w.sender.Some? && RejectObject in w.replies && SDelivered !in w.passed && SOpened !in w.passed
    ensures (exists evs :: PassesBoth(w, evs)) <==>
              || (w.row.Some? && (w.row.value.status != Opened || SweepWrite(w.row.value.id) in w.tasks))
              || (exists t :: t in w.tasks && (t.AcceptWrite? || t.AcceptSend? || t.OpenWrite? || t.OpenSend?))
              || MarkDelivered in w.replies || MarkOpened in w.replies
  {
    BothReachableIff(deleteAfterOpening, past);
  }

  /** Once an accept message is out: a later rejection shows at the sender if and only if the row is pending still,
      rejectObject is past its guard, or its message is out too. */
  lemma AfterAcceptIff(deleteAfterOpening: bool, past: seq<Event>, w: World)
    requires Legal(Start(deleteAfterOpening), past) && w == RunFrom(Start(deleteAfterOpening), past)
    requires w.sender.Some? && (MarkDelivered in w.replies || MarkOpened in w.replies) && SRejected !in w.passed
    ensures (exists evs :: PassesBoth(w, evs)) <==>
              || (w.row.Some? && w.row.value.status == Pending)
              || (exists t :: t in w.tasks && t.RejectSend?)
              || RejectObject in w.replies
  {
    BothReachableIff(deleteAfterOpening, past);
  }

  predicate CanPassBoth(w: World, evs: seq<Event>) { Legal(w, evs) && PassedBoth(RunFrom(w, evs)) }

  /** When rows may be made, no state is safe: a record the sender still has can always pass through both. */
  lemma BookingReopensIff(deleteAfterOpening: bool, past: seq<Event>)
    requires Legal(Start(deleteAfterOpening), past)
    ensures var w := RunFrom(Start(deleteAfterOpening), past);
            (exists evs :: CanPassBoth(w, evs)) <==> PassedBoth(w) || w.sender.Some?
  {
    RunKeepsInv(Start(deleteAfterOpening), past);
    var w := RunFrom(Start(deleteAfterOpening), past);
    if w.sender.Some? { var evs := Reopened(w); } else if PassedBoth(w) { assert CanPassBoth(w, []); }
    forall evs | CanPassBoth(w, evs) ensures PassedBoth(w) || w.sender.Some? { ForgottenStays(w, evs); }
  }

  lemma Reopened(w: World) returns (evs: seq<Event>)
    requires StatusKnown(w) && w.sender.Some?
    ensures CanPassBoth(w, evs)
  {
    var first := [BeginDelete, Do(DeleteRows, false), Book];
    NewRow(w, first);
    BothReachableFrom(RunFrom(w, first));
    var more :| PassesBoth(RunFrom(w, first), more);
    Append(w, first, more);
    evs := first + more;
  }

  lemma NewRow(w: World, evs: seq<Event>)
    requires w.sender.Some? && evs == [BeginDelete, Do(DeleteRows, false), Book]
    ensures Legal(w, evs) && IsPending(RunFrom(w, evs).row)
    ensures RunFrom(w, evs).sender == w.sender && RunFrom(w, evs).passed == w.passed
  {
    var u := After(w, BeginDelete);
    assert DeleteRows in u.tasks;
    var v := After(u, Do(DeleteRows, false));
    assert evs[1..] == [Do(DeleteRows, false), Book] && evs[1..][1..] == [Book] && [Book][1..] == [];
    assert RunFrom(v, [Book]) == After(v, Book);
    assert RunFrom(u, evs[1..]) == After(v, Book);
  }

  lemma ForgottenStep(w: World, ev: Event)
    requires Enabled(w, ev) && w.sender.None?
    ensures After(w, ev).sender.None? && After(w, ev).passed == w.passed
  {
    if AtSender(ev) { SenderIs(w, ev); }
  }

  lemma {:induction false} ForgottenStays(w: World, evs: seq<Event>)
    requires Legal(w, evs)
    ensures w.sender.None? ==> RunFrom(w, evs).passed == w.passed
    decreases |evs|
  {
    if evs != [] && w.sender.None? {
      ForgottenStep(w, evs[0]);
      ForgottenStays(After(w, evs[0]), evs[1..]);
    }
  }

  // ------------------------------------------------------------ runs in which the handshake holds

  /** None of the four: an accept and a reject of one row at once, a reload that cuts a reject short, a second row,
      an opening of an expired row that was never accepted. */
  predicate Harmless(w: World, ev: Event) {
    !Contends(w, ev) && !CutsReject(w, ev) && !Rebooks(w, ev) && !OpensUnaccepted(w, ev)
  }

  predicate HarmlessRun(w: World, evs: seq<Event>)
    requires Legal(w, evs)
    decreases |evs|
  {
    evs == [] || (Harmless(w, evs[0]) && HarmlessRun(After(w, evs[0]), evs[1..]))
  }

  predicate Unharmed(w: World) { !w.overlapped && !w.cutShort && !w.rebooked && !w.openedUnaccepted }

  lemma {:induction false} StaysUnharmed(w: World, evs: seq<Event>)
    requires Legal(w, evs) && HarmlessRun(w, evs) && Unharmed(w)
    ensures Unharmed(RunFrom(w, evs))
    decreases |evs|
  {
    if evs != [] { StaysUnharmed(After(w, evs[0]), evs[1..]); }
  }

  /** Without any of the four there is one row, and it is not both accepted and rejected. */
  lemma NeverBoth(w: World)
    requires Inv(w) && Unharmed(w) && w.accepts != {}
    ensures w.rejects == {}
  {
    var a :| a in w.accepts;
    forall r ensures r !in w.rejects { assert a == 0; }
  }

  /** A record that passed through both had one of the four. */
  lemma BothOnlyIf(deleteAfterOpening: bool, evs: seq<Event>)
    requires Legal(Start(deleteAfterOpening), evs) && PassedBoth(RunFrom(Start(deleteAfterOpening), evs))
    ensures !Unharmed(RunFrom(Start(deleteAfterOpening), evs))
  {
    RunKeepsInv(Start(deleteAfterOpening), evs);
    if Unharmed(RunFrom(Start(deleteAfterOpening), evs)) { NeverBoth(RunFrom(Start(deleteAfterOpening), evs)); }
  }

  /** The handshake: in every run without the four, with any other overlap of calls and any order, loss or repetition
      of replies, the record is delivered or opened only after an accept, rejected only after a reject, and never
      passes through both. */
  lemma HandshakeHolds(deleteAfterOpening: bool, evs: seq<Event>)
    requires Legal(Start(deleteAfterOpening), evs) && HarmlessRun(Start(deleteAfterOpening), evs)
    ensures var w := RunFrom(Start(deleteAfterOpening), evs);
            && (SDelivered in w.passed || SOpened in w.passed ==> w.accepts != {})
            && (SRejected in w.passed ==> w.rejects != {})
            && !(SRejected in w.passed && (SDelivered in w.passed || SOpened in w.passed))
  {
    StaysUnharmed(Start(deleteAfterOpening), evs);
    RecordIsTrue(deleteAfterOpening, evs);
    if PassedBoth(RunFrom(Start(deleteAfterOpening), evs)) { BothOnlyIf(deleteAfterOpening, evs); }
  }

  // ------------------------------------------------------------ one call at a time

  predicate IsBegin(ev: Event) {
    ev.BeginAccept? || ev.BeginReject? || ev.BeginOpen? || ev.BeginSweep? || ev.BeginDelete?
  }

  /** The caller lets each call finish before the next, does not reload inside one, and the object does not arrive
      again once its row is gone or expired. */
  predicate SequentialStep(w: World, ev: Event) {
    && (IsBegin(ev) ==> w.tasks == {})
    && (ev.Do? ==> !ev.more)
    && (ev.Reload? ==> w.tasks == {})
    && (ev.Book? ==> if w.row.None? then w.rows == 0 else w.row.value.status != Expired)
  }

  predicate Sequential(w: World, evs: seq<Event>)
    requires Legal(w, evs)
    decreases |evs|
  {
    evs == [] || (SequentialStep(w, evs[0]) && Sequential(After(w, evs[0]), evs[1..]))
  }

  ghost predicate SequentialInv(w: World) {
    && Inv(w)
    && (forall t, u :: t in w.tasks && u in w.tasks ==> t == u)
    && (w.rows == 0 ==> w.row == None && !w.objectThere)
    && (w.row.Some? && w.row.value.status == Delivered ==> w.row.value.id in w.accepts)
    && (w.row.Some? && w.row.value.status == Expired ==> (w.objectThere ==> Purge in w.tasks) && OpenRead !in w.tasks)
  }

  lemma SequentialKeepsInv(w: World, ev: Event)
    requires SequentialInv(w) && Enabled(w, ev) && SequentialStep(w, ev)
    ensures SequentialInv(After(w, ev)) && Harmless(w, ev)
  {
    StepKeepsInv(w, ev);
    if ev.Do? { SequentialDone(w, ev.t); }
  }

  lemma SequentialDone(w: World, t: Task)
    requires SequentialInv(w) && t in w.tasks && Inv(After(w, Do(t, false)))
    ensures SequentialInv(After(w, Do(t, false))) && Harmless(w, Do(t, false))
  {
    assert w.tasks == {t};
    assert TasksAfter(w, t, false) == if NextTask(w, t).Some? then {NextTask(w, t).value} else {};
  }

  lemma {:induction false} SequentialIsHarmless(w: World, evs: seq<Event>)
    requires SequentialInv(w) && Legal(w, evs) && Sequential(w, evs)
    ensures HarmlessRun(w, evs)
    decreases |evs|
  {
    if evs != [] {
      SequentialKeepsInv(w, evs[0]);
      SequentialIsHarmless(After(w, evs[0]), evs[1..]);
    }
  }

  /** One call at a time is enough. */
  lemma SequentialHolds(deleteAfterOpening: bool, evs: seq<Event>)
    requires Legal(Start(deleteAfterOpening), evs) && Sequential(Start(deleteAfterOpening), evs)
    ensures !PassedBoth(RunFrom(Start(deleteAfterOpening), evs))
  {
    SequentialIsHarmless(Start(deleteAfterOpening), evs);
    HandshakeHolds(deleteAfterOpening, evs);
  }

  // ------------------------------------------------------------ each of the four is needed

  /** A run from the start that may make rows. */
  predicate Reached(evs: seq<Event>, v: World) { Legal(Start(false), evs) && RunFrom(Start(false), evs) == v }

  lemma Booking(past: seq<Event>, u: World) returns (evs: seq<Event>, v: World)
    requires Reached(past, u)
    ensures Reached(evs, v) && v == After(u, Book)
  {
    v := After(u, Book);
    assert [Book][1..] == [] && RunFrom(u, [Book]) == v;
    Append(Start(false), past, [Book]);
    evs := past + [Book];
  }

  lemma Joined(past: seq<Event>, u: World, more: seq<Event>, v: World) returns (evs: seq<Event>)
    requires Reached(past, u) && Leads(u, more, v)
    ensures Reached(evs, v)
  {
    Append(Start(false), past, more);
    evs := past + more;
  }

  /** Only an overlap: acceptObject and rejectObject both past their guards. */
  lemma OverlapPassesBoth() returns (evs: seq<Event>, v: World)
    ensures Reached(evs, v) && PassedBoth(v) && !v.cutShort && !v.rebooked && !v.openedUnaccepted
  {
    var past, u := Booking([], Start(false));
    evs, v := Go(u, [], u, BeginAccept);
    evs, v := Go(u, evs, v, BeginReject);
    evs, v := RejectArrives(u, evs, v, 0);
    evs, v := AcceptArrives(u, evs, v, 0);
    evs := Joined(past, u, evs, v);
  }

  /** Only a reload after the reject message was sent and before the row was deleted, then an accept. */
  lemma ReloadPassesBoth() returns (evs: seq<Event>, v: World)
    ensures Reached(evs, v) && PassedBoth(v) && !v.overlapped && !v.rebooked && !v.openedUnaccepted
  {
    var past, u := Booking([], Start(false));
    evs, v := Go(u, [], u, BeginReject);
    evs, v := RejectArrives(u, evs, v, 0);
    evs, v := Go(u, evs, v, Reload);
    evs, v := Go(u, evs, v, BeginAccept);
    evs, v := AcceptArrives(u, evs, v, 0);
    evs := Joined(past, u, evs, v);
  }

  lemma Rejected() returns (evs: seq<Event>, v: World)
    ensures Reached(evs, v) && SRejected in v.passed && v.row == None && v.rows == 1 && v.sender.Some?
    ensures !v.overlapped && !v.cutShort && !v.openedUnaccepted && v.tasks == {Purge}
  {
    var past, u := Booking([], Start(false));
    evs, v := Go(u, [], u, BeginReject);
    assert v.tasks == {RejectSend(0)} && !v.overlapped;
    evs, v := RejectArrives(u, evs, v, 0);
    assert RejectDelete(0) in v.tasks;
    evs, v := Go(u, evs, v, Do(RejectDelete(0), false));
    evs := Joined(past, u, evs, v);
  }

  /** Only a second row after a rejection, as when every chunk of a file is sent again because no ack came through. */
  lemma RebookingPassesBoth() returns (evs: seq<Event>, v: World)
    ensures Reached(evs, v) && PassedBoth(v) && !v.overlapped && !v.cutShort && !v.openedUnaccepted
  {
    var past, u := Rejected();
    past, u := Booking(past, u);
    assert u.row == Some(Row(1, Pending));
    evs, v := Go(u, [], u, BeginAccept);
    evs, v := AcceptArrives(u, evs, v, 1);
    evs := Joined(past, u, evs, v);
  }

  /** A sweep has expired the pending row and has not purged the object. */
  lemma ExpiredPending() returns (evs: seq<Event>, v: World)
    ensures Reached(evs, v) && v.row == Some(Row(0, Expired)) && v.objectThere && v.accepts == {} && v.sender.Some?
    ensures !v.overlapped && !v.cutShort && !v.rebooked
  {
    var past, u := Booking([], Start(false));
    evs, v := Go(u, [], u, BeginSweep);
    evs, v := Go(u, evs, v, Do(SweepRead, false));
    assert SweepWrite(0) in v.tasks;
    evs, v := Go(u, evs, v, Do(SweepWrite(0), false));
    evs := Joined(past, u, evs, v);
  }

  /** Only a markOpened that comes before the purge: opened, never accepted. */
  lemma ExpiredRowOpens() returns (evs: seq<Event>, v: World)
    ensures Reached(evs, v) && SOpened in v.passed && v.accepts == {} && !v.overlapped && !v.cutShort && !v.rebooked
  {
    var past, u := ExpiredPending();
    evs, v := Go(u, [], u, BeginOpen);
    assert OpenRead in v.tasks;
    evs, v := Go(u, evs, v, Do(OpenRead, false));
    assert OpenWrite(0) in v.tasks;
    evs, v := OpenArrives(u, evs, v, 0);
    evs := Joined(past, u, evs, v);
  }
}
