/** Fragmentation and reassembly of logical messages over Cyrinx frames, as values:
    what send cuts a message into, what ingestFrame makes of a frame sequence. */
module Reassembly {
  import opened Crc
  import opened Frame

  const MAX_LOGICAL_MESSAGE: nat := 4096
  const FRAME_DATA: nat := 0
  const FRAME_ACK: nat := 1
  const STREAM_CONTROL: nat := 0
  const HANDSHAKE: Byte := 0xE1

  /** The flag bits of a frame: FRAG_START 1, FRAG_END 2, FIN 4, RST 8. */
  predicate FragStart(flags: nat) { flags % 2 == 1 }
  predicate FragEnd(flags: nat) { flags / 2 % 2 == 1 }
  predicate Fin(flags: nat) { flags / 4 % 2 == 1 }
  predicate Rst(flags: nat) { flags / 8 % 2 == 1 }

  /** flags and (FIN or RST). */
  function AppFlags(flags: nat): nat { (if Fin(flags) then 4 else 0) + (if Rst(flags) then 8 else 0) }

  /** kept or (flags and (FIN or RST)), for kept within FIN and RST. */
  function OrAppFlags(kept: nat, flags: nat): nat {
    (if Fin(kept) || Fin(flags) then 4 else 0) + (if Rst(kept) || Rst(flags) then 8 else 0)
  }

  datatype Message = Message(data: seq<Byte>, streamId: nat, priority: nat, flags: nat)

  /** The receiving side of a session. */
  datatype Receiver = Receiver(active: bool, buffer: seq<Byte>, streamId: nat, priority: nat, flags: nat,
                               queue: seq<Message>)

  function Opened(r: Receiver, h: FrameHeader): Receiver {
    if FragStart(h.flags) || !r.active || r.streamId != h.streamId
    then Receiver(true, [], h.streamId, h.priority, 0, r.queue)
    else r
  }

  predicate TooLong(r: Receiver, h: FrameHeader, payload: seq<Byte>) {
    |Opened(r, h).buffer| + |payload| > MAX_LOGICAL_MESSAGE
  }

  function Reassemble(r: Receiver, h: FrameHeader, payload: seq<Byte>): Receiver {
    var o := Opened(r, h);
    if TooLong(r, h, payload) then o.(buffer := [], active := false)
    else
      var t := o.(buffer := o.buffer + payload, flags := OrAppFlags(o.flags, h.flags));
      if FragEnd(h.flags)
      then t.(queue := t.queue + [Message(t.buffer, t.streamId, t.priority, t.flags)], buffer := [], active := false,
              flags := 0)
      else t
  }

  predicate IsHandshake(h: FrameHeader, payload: seq<Byte>) {
    h.frameType == FRAME_DATA && h.streamId == STREAM_CONTROL && |payload| >= 10 && payload[0] == HANDSHAKE
  }

  /** Checked frames that leave the reassembly state alone: damaged ones, handshakes, ACKs. */
  predicate Neutral(p: Ingested) {
    !p.Accepted? || IsHandshake(p.header, p.payload) || p.header.frameType != FRAME_DATA
  }

  function Ingest(r: Receiver, p: Ingested): Receiver {
    if Neutral(p) then r else Reassemble(r, p.header, p.payload)
  }

  /** Frames as ingestFrame's checks see them. */
  function Checked(frames: seq<seq<Byte>>): (r: seq<Ingested>)
    ensures |r| == |frames|
  {
    if frames == [] then [] else Checked(frames[..|frames| - 1]) + [ParseFrame(frames[|frames| - 1])]
  }

  function IngestAll(r: Receiver, frames: seq<Ingested>): Receiver
    decreases |frames|
  {
    if frames == [] then r else IngestAll(Ingest(r, frames[0]), frames[1..])
  }

  lemma {:induction false} IngestAllSplit(r: Receiver, a: seq<Ingested>, b: seq<Ingested>)
    ensures IngestAll(r, a + b) == IngestAll(IngestAll(r, a), b)
    decreases |a|
  {
    if a == [] { assert a + b == b; }
    else { assert (a + b)[1..] == a[1..] + b; IngestAllSplit(Ingest(r, a[0]), a[1..], b); }
  }

  // ------------------------------------------------------------ fragments

  /** How many frames a message of this many bytes takes. */
  function FragmentCount(size: nat): nat { (size + MAX_FRAME_PAYLOAD - 1) / MAX_FRAME_PAYLOAD }

  function FragmentEnd(size: nat, i: nat): nat {
    if (i + 1) * MAX_FRAME_PAYLOAD <= size then (i + 1) * MAX_FRAME_PAYLOAD else size
  }

  function Fragment(data: seq<Byte>, i: nat): seq<Byte>
    requires i < FragmentCount(|data|)
  {
    data[i * MAX_FRAME_PAYLOAD..FragmentEnd(|data|, i)]
  }

  function FragmentFlags(size: nat, i: nat, appFlags: nat): nat {
    (if i == 0 then 1 else 0) + (if FragmentEnd(size, i) == size then 2 + appFlags else 0)
  }

  /** A message as send accepts it. */
  predicate Sendable(m: Message) {
    && 1 <= |m.data| <= MAX_LOGICAL_MESSAGE && 1 <= m.streamId <= 4095 && m.priority <= 3
    && m.flags in {0, 4, 8, 12}
  }

  /** The checked frame carries fragment i of m; sequence, ack, gear and session fields are free. */
  predicate CarriesFragment(p: Ingested, m: Message, i: nat) {
    && i < FragmentCount(|m.data|)
    && p.Accepted? && p.header.frameType == FRAME_DATA && p.header.streamId == m.streamId &&
      p.header.priority == m.priority
    && p.header.flags == FragmentFlags(|m.data|, i, m.flags) && p.payload == Fragment(m.data, i)
  }

  /** The frames carry fragments i.. of m once each in order, with neutral frames in between. */
  ghost predicate CarriesFrom(frames: seq<Ingested>, m: Message, i: nat) {
    if frames == [] then i == FragmentCount(|m.data|)
    else || (Neutral(frames[0]) && CarriesFrom(frames[1..], m, i))
         || (CarriesFragment(frames[0], m, i) && CarriesFrom(frames[1..], m, i + 1))
  }

  /** The receiver has exactly the first i fragments of m, on top of `queue`. */
  predicate HasFirst(r: Receiver, m: Message, i: nat, queue: seq<Message>) {
    r == Receiver(true, m.data[..if i * MAX_FRAME_PAYLOAD <= |m.data| then i * MAX_FRAME_PAYLOAD else |m.data|],
                  m.streamId, m.priority, 0, queue)
  }

  /** The receiver has delivered m and is idle. */
  predicate Delivered(r: Receiver, m: Message, queue: seq<Message>) {
    !r.active && r.buffer == [] && r.flags == 0 && r.queue == queue + [m]
  }

  lemma FragmentShape(data: seq<Byte>, i: nat)
    requires i < FragmentCount(|data|) && |data| >= 1
    ensures i * MAX_FRAME_PAYLOAD < |data| && |Fragment(data, i)| >= 1
    ensures data[..i * MAX_FRAME_PAYLOAD] + Fragment(data, i) == data[..FragmentEnd(|data|, i)]
    ensures i + 1 == FragmentCount(|data|) <==> FragmentEnd(|data|, i) == |data|
    ensures i + 1 < FragmentCount(|data|) ==> |Fragment(data, i)| == MAX_FRAME_PAYLOAD
  {
  }

  /** Ingesting the next fragment extends the buffer, or delivers the message. */
  lemma NextFragment(r: Receiver, frame: Ingested, m: Message, i: nat, queue: seq<Message>)
    requires Sendable(m) && CarriesFragment(frame, m, i) && r.queue == queue && (i > 0 ==> HasFirst(r, m, i, queue))
    ensures i + 1 < FragmentCount(|m.data|) ==> HasFirst(Ingest(r, frame), m, i + 1, queue)
    ensures i + 1 == FragmentCount(|m.data|) ==> Delivered(Ingest(r, frame), m, queue)
  {
    FragmentShape(m.data, i);
    var p := frame;
    var o := Opened(r, p.header);
    assert o == Receiver(true, m.data[..i * MAX_FRAME_PAYLOAD], m.streamId, m.priority, 0, queue);
    assert !TooLong(r, p.header, p.payload);
    assert m.data[..|m.data|] == m.data;
  }

  /** Once each in order delivers the message exactly once, whatever neutral frames intervene
      and whatever the receiver was doing before. */
  lemma {:induction false} FragmentsDeliver(r: Receiver, frames: seq<Ingested>, m: Message, i: nat, queue: seq<Message>)
    requires Sendable(m) && CarriesFrom(frames, m, i)
    requires if i == FragmentCount(|m.data|) then Delivered(r, m, queue)
             else r.queue == queue && (i > 0 ==> HasFirst(r, m, i, queue))
    ensures Delivered(IngestAll(r, frames), m, queue)
    decreases |frames|
  {
    if frames != [] {
      if Neutral(frames[0]) && CarriesFrom(frames[1..], m, i) {
        FragmentsDeliver(r, frames[1..], m, i, queue);
      } else {
        NextFragment(r, frames[0], m, i, queue);
        FragmentsDeliver(Ingest(r, frames[0]), frames[1..], m, i + 1, queue);
      }
    }
  }

  /** Fragment and frame round trip, on the bytes of the frames. */
  lemma MessageRoundTrip(r: Receiver, frames: seq<seq<Byte>>, m: Message)
    requires Sendable(m) && CarriesFrom(Checked(frames), m, 0)
    ensures IngestAll(r, Checked(frames)).queue == r.queue + [m]
  {
    assert FragmentCount(|m.data|) > 0;
    FragmentsDeliver(r, Checked(frames), m, 0, r.queue);
  }

  // ------------------------------------------------------------ a fragment received twice

  /** The frames of m, one per fragment. */
  ghost predicate FragmentsOf(frames: seq<Ingested>, m: Message) {
    |frames| == FragmentCount(|m.data|) && forall i :: 0 <= i < |frames| ==> CarriesFragment(frames[i], m, i)
  }

  lemma {:induction false} FirstFragments(r: Receiver, frames: seq<Ingested>, m: Message, n: nat)
    requires Sendable(m) && FragmentsOf(frames, m) && 1 <= n <= |frames|
    ensures n < |frames| ==> HasFirst(IngestAll(r, frames[..n]), m, n, r.queue)
    ensures n == |frames| ==> Delivered(IngestAll(r, frames[..n]), m, r.queue)
    decreases n
  {
    IngestOneMore(r, frames, n - 1);
    assert CarriesFragment(frames[n - 1], m, n - 1);
    if n > 1 { FirstFragments(r, frames, m, n - 1); } else { assert frames[..0] == []; }
    NextFragment(IngestAll(r, frames[..n - 1]), frames[n - 1], m, n - 1, r.queue);
  }

  lemma IngestOneMore(r: Receiver, frames: seq<Ingested>, n: nat)
    requires n < |frames|
    ensures IngestAll(r, frames[..n + 1]) == Ingest(IngestAll(r, frames[..n]), frames[n])
  {
    assert frames[..n + 1] == frames[..n] + [frames[n]];
    IngestAllSplit(r, frames[..n], [frames[n]]);
  }

  lemma {:induction false} LastFragments(r: Receiver, frames: seq<Ingested>, m: Message, i: nat, queue: seq<Message>)
    requires Sendable(m) && FragmentsOf(frames, m) && i < |frames|
    requires r.queue == queue && (i > 0 ==> HasFirst(r, m, i, queue))
    ensures Delivered(IngestAll(r, frames[i..]), m, queue)
    decreases |frames| - i
  {
    assert CarriesFragment(frames[i], m, i);
    NextFragment(r, frames[i], m, i, queue);
    assert frames[i..][1..] == frames[i + 1..];
    if i + 1 < |frames| { LastFragments(Ingest(r, frames[i]), frames, m, i + 1, queue); }
    else { assert frames[i + 1..] == []; }
  }

  /** With one fragment too many in the buffer, the end delivers something longer, or nothing. */
  lemma {:induction false} SurplusNeverDelivers(r: Receiver, frames: seq<Ingested>, m: Message, i: nat,
                                                queue: seq<Message>)
    requires Sendable(m) && FragmentsOf(frames, m) && 1 <= i < |frames|
    requires r == Receiver(true, r.buffer, m.streamId, m.priority, 0, queue) &&
             |r.buffer| == (i + 1) * MAX_FRAME_PAYLOAD
    ensures IngestAll(r, frames[i..]).queue != queue + [m]
    decreases |frames| - i
  {
    assert CarriesFragment(frames[i], m, i);
    FragmentShape(m.data, i);
    assert frames[i..][1..] == frames[i + 1..];
    var t := Ingest(r, frames[i]);
    if i + 1 < |frames| { SurplusNeverDelivers(t, frames, m, i + 1, queue); }
    else {
      assert frames[i + 1..] == [];
      if t.queue != queue {
        var long := Message(r.buffer + Fragment(m.data, i), m.streamId, m.priority, t.queue[|queue|].flags);
        assert t.queue == queue + [long] && |long.data| > |m.data|;
      }
    }
  }

  /** Ingesting the fragment just ingested once more. */
  lemma RepeatFragment(r: Receiver, frames: seq<Ingested>, m: Message, k: nat, queue: seq<Message>)
    requires Sendable(m) && FragmentsOf(frames, m) && k < |frames|
    requires if k + 1 < |frames| then HasFirst(r, m, k + 1, queue) else Delivered(r, m, queue)
    ensures var t := Ingest(r, frames[k]);
            && (k + 1 == |frames| ==> |t.queue| == |queue| + 2)
            && (k == 0 && 1 < |frames| ==> HasFirst(t, m, 1, queue))
            && (0 < k && k + 1 < |frames| ==>
                  t == Receiver(true, t.buffer, m.streamId, m.priority, 0, queue) &&
                    |t.buffer| == (k + 2) * MAX_FRAME_PAYLOAD)
  {
    assert CarriesFragment(frames[k], m, k);
    FragmentShape(m.data, k);
  }

  /** ingestFrame does not look at sequence numbers, so a retransmission whose first copy did
      arrive is ingested twice.  That is harmless exactly for the first of several fragments. */
  lemma RetransmissionHarmlessIff(r: Receiver, frames: seq<Ingested>, m: Message, k: nat)
    requires Sendable(m) && FragmentsOf(frames, m) && k < |frames|
    ensures IngestAll(r, frames[..k + 1] + frames[k..]).queue == r.queue + [m] <==> k == 0 && 1 < |frames|
  {
    var upTo := IngestAll(r, frames[..k + 1]);
    FirstFragments(r, frames, m, k + 1);
    IngestAllSplit(r, frames[..k + 1], frames[k..]);
    RepeatFragment(upTo, frames, m, k, r.queue);
    var t := Ingest(upTo, frames[k]);
    assert frames[k..][1..] == frames[k + 1..];
    if k + 1 == |frames| {
      assert frames[k + 1..] == [];
    } else if k == 0 {
      LastFragments(t, frames, m, 1, r.queue);
    } else {
      SurplusNeverDelivers(t, frames, m, k + 1, r.queue);
    }
  }
}
