/** CyrinxTransportSession: send, ingestFrame and the frames they put on the sink. */
module Transport {
  import opened Wrappers
  import opened Crc
  import opened Frame
  import opened Reassembly

  datatype Status = OK | ErrInvalidArgument | ErrNotRunning | ErrBufferTooSmall | ErrTimeout | ErrCrc | ErrInternal

  /** How often one fragment goes out: once for best effort; otherwise until the attempt (from
      0) whose ACK arrives in time, five times at most. */
  function Copies(reliable: bool, ackedOn: nat): nat {
    if !reliable then 1 else if ackedOn <= 4 then ackedOn + 1 else 5
  }

  /** Which fragment each frame of the first n fragments' transmission carries. */
  function Owners(n: nat, reliable: bool, ackedOn: nat -> nat): seq<nat> {
    if n == 0 then [] else Owners(n - 1, reliable, ackedOn) + seq(Copies(reliable, ackedOn(n - 1)), _ => n - 1)
  }

  ghost predicate Transmits(frames: seq<Ingested>, m: Message, owners: seq<nat>) {
    |frames| == |owners| && forall j :: 0 <= j < |frames| ==> CarriesFragment(frames[j], m, owners[j])
  }

  /** Where send's loop stands after n fragments. */
  ghost predicate SentSoFar(m: Message, frames: seq<Ingested>, owners: seq<nat>, position: nat, n: nat, reliable: bool,
                            ackedOn: nat -> nat) {
    && n <= FragmentCount(|m.data|)
    && position == (if n < FragmentCount(|m.data|) then n * MAX_FRAME_PAYLOAD else |m.data|)
    && owners == Owners(n, reliable, ackedOn) && Transmits(frames, m, owners)
    && (reliable ==> forall i: nat :: i < n ==> ackedOn(i) <= 4)
  }

  /** When nothing is retransmitted, what is sent carries every fragment once, in order. */
  lemma {:induction false} SingleCopiesCarry(frames: seq<Ingested>, m: Message, i: nat)
    requires i <= |frames| == FragmentCount(|m.data|)
    requires forall j :: 0 <= j < |frames| ==> CarriesFragment(frames[j], m, j)
    ensures CarriesFrom(frames[i..], m, i)
    decreases |frames| - i
  {
    if i < |frames| {
      SingleCopiesCarry(frames, m, i + 1);
      assert frames[i..][0] == frames[i] && frames[i..][1..] == frames[i + 1..];
      assert CarriesFragment(frames[i], m, i);
    }
  }

  lemma {:induction false} SingleOwners(n: nat, reliable: bool, ackedOn: nat -> nat)
    requires forall i: nat :: i < n ==> Copies(reliable, ackedOn(i)) == 1
    ensures Owners(n, reliable, ackedOn) == seq(n, i => i)
  {
    if n > 0 { SingleOwners(n - 1, reliable, ackedOn); }
  }

  /** The rate of each gear. */
  function FecRateForGear(gear: nat): (r: nat)
    requires gear < 8
    ensures r == [0, 1, 2, 2, 3, 0, 0, 0][gear]
  {
    if gear == 1 then 1 else if gear == 2 || gear == 3 then 2 else if gear == 4 then 3 else 0
  }

  /** What a frame sendInternal builds is checked to be. */
  predicate Carries(p: Ingested, frameType: nat, sequence: nat, ack: nat, streamId: nat, priority: nat, flags: nat,
                    payload: seq<Byte>) {
    && p.Accepted? && p.payload == payload
    && p.header.version == 1 && p.header.frameType == frameType % 16 && p.header.sequence == sequence % 0x10000
    && p.header.ack == ack % 0x10000 && p.header.streamId == streamId % 0x1000 && p.header.priority == priority % 4
    && p.header.flags == flags % 0x100
  }

  lemma CarriesIsFragment(p: Ingested, sequence: nat, ack: nat, m: Message, i: nat)
    requires Sendable(m) && i < FragmentCount(|m.data|)
    requires Carries(p, FRAME_DATA, sequence, ack, m.streamId, m.priority, FragmentFlags(|m.data|, i, m.flags),
                     Fragment(m.data, i))
    ensures CarriesFragment(p, m, i)
  {
  }

  /** Piece i of these bytes, as it goes over the air: bit 1 marks the first piece, bit 2 the last, and only the last
      carries the caller's bits 4 and 8.  All other bits of the caller's flags are dropped. */
  predicate IsPiece(p: Ingested, data: seq<Byte>, streamId: int, priority: int, streamFlags: nat, i: nat) {
    && i * 1024 < |data|
    && p.Accepted? && p.header.frameType == 0 && p.header.streamId == streamId && p.header.priority == priority
    && p.payload == data[i * 1024..if i * 1024 + 1024 < |data| then i * 1024 + 1024 else |data|]
    && p.header.flags == (if i == 0 then 1 else 0)
                         + (if i * 1024 + 1024 < |data| then 0
                            else 2 + 4 * (streamFlags / 4 % 2) + 8 * (streamFlags / 8 % 2))
  }

  lemma FragmentIsPiece(p: Ingested, m: Message, streamFlags: nat, i: nat)
    requires Sendable(m) && m.flags == AppFlags(streamFlags) && CarriesFragment(p, m, i)
    ensures IsPiece(p, m.data, m.streamId, m.priority, streamFlags, i)
  {
    FragmentShape(m.data, i);
  }

  /** Whatever a receiver was doing, it queues the message with the caller's bits 4 and 8 and no other. */
  lemma DeliveredToAll(frames: seq<Ingested>, m: Message, streamFlags: nat, reliable: bool, ackedOn: nat -> nat)
    requires Sendable(m) && m.flags == AppFlags(streamFlags)
    requires Transmits(frames, m, Owners(FragmentCount(|m.data|), reliable, ackedOn))
    requires !reliable || forall i: nat :: i < FragmentCount(|m.data|) ==> ackedOn(i) == 0
    ensures forall r: Receiver :: IngestAll(r, frames).queue ==
              r.queue + [m.(flags := 4 * (streamFlags / 4 % 2) + 8 * (streamFlags / 8 % 2))]
  {
    forall r: Receiver
      ensures IngestAll(r, frames).queue ==
              r.queue + [m.(flags := 4 * (streamFlags / 4 % 2) + 8 * (streamFlags / 8 % 2))]
    {
      SentOnceDeliversOnce(r, frames, m, reliable, ackedOn);
    }
  }

  /** An ACK frame for this sequence number. */
  predicate Acknowledges(p: Ingested, sequence: nat) {
    p.Accepted? && p.header.frameType == 1 && p.header.ack == sequence && p.header.streamId == 0
  }

  lemma CarriesIsAck(p: Ingested, sequence: nat, ack: nat, payload: seq<Byte>)
    requires ack < 0x10000 && Carries(p, FRAME_ACK, sequence, ack, STREAM_CONTROL, 3, 0, payload)
    ensures Acknowledges(p, ack)
  {
  }

  /** Header and payload as the bytes of one frame. */
  method FrameFor(h: FrameHeader, payload: seq<Byte>) returns (frame: seq<Byte>)
    requires InRange(h) && h.payloadLen == |payload| <= MAX_FRAME_PAYLOAD
    ensures ParseFrame(frame) == Accepted(h, payload)
  {
    var header := SerializeHeader(h);
    var bytes := new Byte[|payload|](i requires 0 <= i < |payload| => payload[i]);
    assert bytes[..] == payload;
    var built := BuildFrame(header, bytes);
    FrameRoundTrip(header[..], h, payload);
    frame := built[..];
  }

  class TransportSession {
    var started: bool
    var slave: bool
    var sessionId: nat
    var currentGear: nat
    var nextTxSeq: nat
    var lastRxSeq: nat
    var awaitingAck: bool
    var awaitingAckSeq: nat
    var reassemblyBuffer: seq<Byte>
    var reassemblyStreamId: nat
    var reassemblyPriority: nat
    var reassemblyFlags: nat
    var reassemblyActive: bool
    var rxQueue: seq<Message>
    /** The 56 capability bytes and the 10 report bytes this side announces. */
    var capabilities: seq<Byte>
    var ackReport: seq<Byte>
    /** The frames handed to txSink so far, and whether it takes them. */
    var sink: seq<seq<Byte>>
    var sinkOk: bool
    /** The sink's frames as a receiver checks them. */
    ghost var sent: seq<Ingested>

    ghost predicate Valid()
      reads this
    {
      && currentGear < 8 && nextTxSeq < 0x10000 && lastRxSeq < 0x10000
      && |capabilities| == 56 && |ackReport| == 10 && capabilities[0] == 0xE1
      && sent == Checked(sink)
    }

    function Rx(): Receiver
      reads this
    {
      Receiver(reassemblyActive, reassemblyBuffer, reassemblyStreamId, reassemblyPriority, reassemblyFlags, rxQueue)
    }

    method SendInternal(frameType: nat, sequence: nat, ack: nat, streamId: nat, priority: nat, flags: nat,
                        payload: seq<Byte>, trackAck: bool) returns (rc: Status)
      requires Valid()
      modifies this`sink, this`sent, this`awaitingAck, this`awaitingAckSeq
      ensures Valid()
      ensures rc == if |payload| > MAX_FRAME_PAYLOAD then ErrInvalidArgument else if sinkOk then OK else ErrInternal
      ensures if |payload| <= MAX_FRAME_PAYLOAD && trackAck then awaitingAck && awaitingAckSeq == sequence % 0x10000
              else awaitingAck == old(awaitingAck) && awaitingAckSeq == old(awaitingAckSeq)
      ensures rc != OK ==> sink == old(sink) && sent == old(sent)
      ensures rc == OK ==>
        && |sent| == |old(sent)| + 1 && sent[..|old(sent)|] == old(sent)
        && Carries(sent[|old(sent)|], frameType, sequence, ack, streamId, priority, flags, payload)
        && sent[|old(sent)|].header.sessionId == sessionId % 0x1000000
        && sent[|old(sent)|].header.gearId == currentGear
        && sent[|old(sent)|].header.fecRate == [0, 1, 2, 2, 3, 0, 0, 0][currentGear]
    {
      if |payload| > MAX_FRAME_PAYLOAD { return ErrInvalidArgument; }
      var h := FrameHeader(1, frameType % 16, sessionId % 0x1000000, sequence % 0x10000, ack % 0x10000, currentGear,
                           FecRateForGear(currentGear), streamId % 0x1000, priority % 4, |payload|, flags % 0x100);
      if trackAck { awaitingAck, awaitingAckSeq := true, sequence % 0x10000; }
      if !sinkOk { return ErrInternal; }
      Emit(h, payload);
      return OK;
    }

    /** Builds a frame and hands it to txSink. */
    method Emit(h: FrameHeader, payload: seq<Byte>)
      requires Valid() && InRange(h) && h.payloadLen == |payload| <= MAX_FRAME_PAYLOAD
      modifies this`sink, this`sent
      ensures Valid() && sent == old(sent) + [Accepted(h, payload)]
    {
      var frame := FrameFor(h, payload);
      sink := sink + [frame];
      sent := sent + [Accepted(h, payload)];
    }

    method NextSequence() returns (sequence: nat)
      requires Valid()
      modifies this`nextTxSeq
      ensures Valid() && sequence == old(nextTxSeq) && nextTxSeq == (old(nextTxSeq) + 1) % 0x10000
    {
      sequence := nextTxSeq;
      nextTxSeq := (nextTxSeq + 1) % 0x10000;
    }

    /** One fragment: attempts until the ACK is there or five have gone out. `ackedOn` is the
        attempt whose ACK arrives before its deadline (5 or more: none does). */
    method SendFragment(m: Message, i: nat, sequence: nat, reliable: bool, ackedOn: nat) returns (rc: Status)
      requires Valid() && Sendable(m) && i < FragmentCount(|m.data|)
      modifies this`sink, this`sent, this`awaitingAck, this`awaitingAckSeq, this`currentGear
      ensures Valid()
      ensures rc == if !sinkOk then ErrInternal else if reliable && ackedOn > 4 then ErrTimeout else OK
      ensures old(sent) <= sent && |sent| == |old(sent)| + if sinkOk then Copies(reliable, ackedOn) else 0
      ensures |sent| - |old(sent)| == if !sinkOk then 0 else if !reliable then 1
                                      else if ackedOn < 5 then ackedOn + 1 else 5
      ensures forall j :: |old(sent)| <= j < |sent| ==>
                CarriesFragment(sent[j], m, i) && sent[j].header.sequence == sequence % 0x10000
    {
      var flags, payload := FragmentFlags(|m.data|, i, m.flags), Fragment(m.data, i);
      assert |payload| <= MAX_FRAME_PAYLOAD by { FragmentShape(m.data, i); }
      var attempts := 0;
      var delivered := false;
      while !delivered && attempts <= 4
        invariant Valid() && attempts <= 5 && (attempts > 0 ==> reliable && sinkOk)
        invariant delivered ==> sinkOk && attempts <= 4 && (reliable ==> ackedOn == attempts)
        invariant !delivered && attempts > 0 ==> ackedOn >= attempts
        invariant old(sent) <= sent && |sent| == |old(sent)| + attempts + (if delivered then 1 else 0)
        invariant forall j :: |old(sent)| <= j < |sent| ==>
                    CarriesFragment(sent[j], m, i) && sent[j].header.sequence == sequence % 0x10000
        decreases 5 - attempts, !delivered
      {
        rc := SendInternal(FRAME_DATA, sequence, lastRxSeq, m.streamId, m.priority, flags, payload, reliable);
        if rc != OK { return rc; }
        CarriesIsFragment(sent[|sent| - 1], sequence, lastRxSeq, m, i);
        if !reliable {
          delivered := true;
        } else {
          if ackedOn == attempts { awaitingAck := false; }
          if !awaitingAck { delivered := true; } else { attempts := attempts + 1; }
        }
      }
      if !delivered {
        awaitingAck := false;
        currentGear := 0;
        return ErrTimeout;
      }
      return OK;
    }

    /** One round of send's loop: a fresh sequence number and one fragment. */
    method SendNumbered(m: Message, i: nat, reliable: bool, ackedOn: nat, ghost was: seq<Ingested>,
                        ghost owners: seq<nat>)
      returns (rc: Status, ghost more: seq<nat>)
      requires Valid() && Sendable(m) && i < FragmentCount(|m.data|)
      requires was <= sent && Transmits(sent[|was|..], m, owners)
      modifies this`sink, this`sent, this`awaitingAck, this`awaitingAckSeq, this`currentGear, this`nextTxSeq
      ensures Valid() && old(sent) <= sent
      ensures rc == if !sinkOk then ErrInternal else if reliable && ackedOn > 4 then ErrTimeout else OK
      ensures more == owners + seq(Copies(reliable, ackedOn), _ => i)
      ensures rc == OK ==> Transmits(sent[|was|..], m, more)
    {
      var sequence := NextSequence();
      ghost var before := sent;
      rc := SendFragment(m, i, sequence, reliable, ackedOn);
      more := owners + seq(Copies(reliable, ackedOn), _ => i);
    }

    /** send's loop over the fragments; `owners` tells which fragment each emitted frame carries. */
    method SendFragments(m: Message, reliable: bool, ackedOn: nat -> nat) returns (rc: Status, ghost owners: seq<nat>)
      requires Valid() && Sendable(m)
      modifies this`sink, this`sent, this`awaitingAck, this`awaitingAckSeq, this`currentGear, this`nextTxSeq
      ensures Valid() && old(sent) <= sent
      ensures rc in {OK, ErrInternal, ErrTimeout}
      ensures rc == OK ==>
        owners == Owners(FragmentCount(|m.data|), reliable, ackedOn) && Transmits(sent[|old(sent)|..], m, owners)
      ensures sinkOk ==> (rc == OK <==> !reliable || forall i: nat :: i < FragmentCount(|m.data|) ==> ackedOn(i) <= 4)
    {
      owners := [];
      ghost var was := sent;
      var position, fragmentIndex := 0, 0;
      while position < |m.data|
        invariant Valid() && was <= sent &&
                  SentSoFar(m, sent[|was|..], owners, position, fragmentIndex, reliable, ackedOn)
        decreases |m.data| - position
      {
        FragmentShape(m.data, fragmentIndex);
        rc, owners := SendNumbered(m, fragmentIndex, reliable, ackedOn(fragmentIndex), was, owners);
        if rc != OK { return; }
        position := FragmentEnd(|m.data|, fragmentIndex);
        fragmentIndex := fragmentIndex + 1;
      }
      rc := OK;
    }

    /** send: argument checks, then the fragments. */
    method Send(data: seq<Byte>, streamId: int, reliable: bool, priority: int, streamFlags: nat, ackedOn: nat -> nat)
      returns (rc: Status, ghost owners: seq<nat>)
      requires Valid()
      modifies this`sink, this`sent, this`awaitingAck, this`awaitingAckSeq, this`currentGear, this`nextTxSeq
      ensures Valid() && old(sent) <= sent
      ensures rc == ErrInvalidArgument <==>
        |data| == 0 || |data| > MAX_LOGICAL_MESSAGE || streamId <= 0 || streamId > 4095 || priority < 0 || priority > 3
      ensures rc in {ErrInvalidArgument, ErrNotRunning} ==> sink == old(sink)
      ensures rc != ErrInvalidArgument ==> (rc == ErrNotRunning <==> !started)
      ensures rc == OK ==>
        && owners == Owners(FragmentCount(|data|), reliable, ackedOn)
        && Transmits(sent[|old(sent)|..], Message(data, streamId, priority, AppFlags(streamFlags)), owners)
      ensures rc == OK ==> forall j :: 0 <= j < |owners| ==>
        IsPiece(sent[|old(sent)|..][j], data, streamId, priority, streamFlags, owners[j])
      ensures rc == OK && (!reliable || forall i: nat :: i < FragmentCount(|data|) ==> ackedOn(i) == 0) ==>
        forall r: Receiver :: IngestAll(r, sent[|old(sent)|..]).queue ==
          r.queue + [Message(data, streamId, priority, 4 * (streamFlags / 4 % 2) + 8 * (streamFlags / 8 % 2))]
      ensures started && sinkOk && rc != ErrInvalidArgument ==>
        (rc == OK <==> !reliable || forall i: nat :: i < FragmentCount(|data|) ==> ackedOn(i) <= 4)
    {
      owners := [];
      if |data| == 0 || |data| > MAX_LOGICAL_MESSAGE { return ErrInvalidArgument, owners; }
      if streamId <= STREAM_CONTROL || streamId > 4095 { return ErrInvalidArgument, owners; }
      if priority < 0 || priority > 3 { return ErrInvalidArgument, owners; }
      if !started { return ErrNotRunning, owners; }
      var m := Message(data, streamId, priority, AppFlags(streamFlags));
      rc, owners := SendFragments(m, reliable, ackedOn);
      if rc == OK {
        forall j | 0 <= j < |owners|
          ensures IsPiece(sent[|old(sent)|..][j], data, streamId, priority, streamFlags, owners[j])
        {
          FragmentIsPiece(sent[|old(sent)|..][j], m, streamFlags, owners[j]);
        }
        if !reliable || forall i: nat :: i < FragmentCount(|data|) ==> ackedOn(i) == 0 {
          DeliveredToAll(sent[|old(sent)|..], m, streamFlags, reliable, ackedOn);
        }
      }
    }

    /** Puts this side's capabilities on the air, as both handshake replies do. */
    method SendCapabilities(ack: nat)
      requires Valid()
      modifies this`sink, this`sent, this`awaitingAck, this`awaitingAckSeq, this`nextTxSeq
      ensures Valid() && old(sent) <= sent && awaitingAck == old(awaitingAck) && awaitingAckSeq == old(awaitingAckSeq)
    {
      var sequence := NextSequence();
      var rc := SendInternal(FRAME_DATA, sequence, ack, STREAM_CONTROL, 3, 0, capabilities, false);
    }

    method SendAck(ack: nat) returns (rc: Status)
      requires Valid() && ack < 0x10000
      modifies this`sink, this`sent, this`awaitingAck, this`awaitingAckSeq, this`nextTxSeq
      ensures Valid() && old(sent) <= sent && awaitingAck == old(awaitingAck) && awaitingAckSeq == old(awaitingAckSeq)
      ensures rc == if sinkOk then OK else ErrInternal
      ensures rc == OK ==> |sent| == |old(sent)| + 1 && Acknowledges(sent[|sent| - 1], ack)
    {
      var sequence := NextSequence();
      rc := SendInternal(FRAME_ACK, sequence, ack, STREAM_CONTROL, 3, 0, ackReport, false);
      if rc == OK { CarriesIsAck(sent[|sent| - 1], sequence, ack, ackReport); }
    }

    /** A frame of another stream, or the first fragment, starts a new reassembly. */
    method OpenReassembly(h: FrameHeader)
      modifies this`reassemblyBuffer, this`reassemblyActive, this`reassemblyStreamId, this`reassemblyPriority,
               this`reassemblyFlags
      ensures Rx() == Opened(old(Rx()), h)
    {
      if FragStart(h.flags) {
        reassemblyBuffer, reassemblyActive := [], true;
        reassemblyStreamId, reassemblyPriority, reassemblyFlags := h.streamId, h.priority, 0;
      } else if !reassemblyActive || reassemblyStreamId != h.streamId {
        reassemblyBuffer, reassemblyActive := [], true;
        reassemblyStreamId, reassemblyPriority, reassemblyFlags := h.streamId, h.priority, 0;
      }
    }

    /** The reassembly step of ingestFrame. */
    method IngestData(h: FrameHeader, payload: seq<Byte>) returns (fits: bool)
      modifies this`reassemblyBuffer, this`reassemblyActive, this`reassemblyStreamId, this`reassemblyPriority,
               this`reassemblyFlags, this`rxQueue
      ensures Rx() == Reassemble(old(Rx()), h, payload)
      ensures fits == !TooLong(old(Rx()), h, payload)
    {
      OpenReassembly(h);
      if |reassemblyBuffer| + |payload| > MAX_LOGICAL_MESSAGE {
        reassemblyBuffer, reassemblyActive := [], false;
        return false;
      }
      reassemblyBuffer := reassemblyBuffer + payload;
      reassemblyFlags := OrAppFlags(reassemblyFlags, h.flags);
      if FragEnd(h.flags) {
        rxQueue := rxQueue + [Message(reassemblyBuffer, reassemblyStreamId, reassemblyPriority, reassemblyFlags)];
        reassemblyBuffer, reassemblyActive, reassemblyFlags := [], false, 0;
      }
      return true;
    }

    /** The bookkeeping every accepted frame other than a handshake gets: sequence and gear. */
    method NoteFrame(h: FrameHeader)
      requires Valid() && InRange(h)
      modifies this`lastRxSeq, this`currentGear, this`sink, this`sent, this`awaitingAck, this`awaitingAckSeq,
               this`nextTxSeq
      ensures Valid() && old(sent) <= sent && lastRxSeq == h.sequence
      ensures currentGear == if slave then h.gearId else if old(currentGear) == 0 then 1 else old(currentGear)
      ensures awaitingAck == old(awaitingAck) && awaitingAckSeq == old(awaitingAckSeq)
    {
      lastRxSeq := h.sequence;
      var oldGear := currentGear;
      if slave {
        currentGear := h.gearId;
      } else if currentGear == 0 {
        currentGear := 1;
      }
      if oldGear == 0 { SendCapabilities(h.sequence); }
    }

    /** A handshake: announce this side in turn, and acknowledge. */
    method IngestHandshake(h: FrameHeader, replyDue: bool)
      requires Valid() && InRange(h)
      modifies this`sink, this`sent, this`awaitingAck, this`awaitingAckSeq, this`nextTxSeq
      ensures Valid() && old(sent) <= sent && awaitingAck == old(awaitingAck)
      ensures sinkOk ==> |sent| > 0 && Acknowledges(sent[|sent| - 1], h.sequence)
    {
      if replyDue { SendCapabilities(h.sequence); }
      var ignored := SendAck(h.sequence);
    }

    /** A data frame: reassemble, and acknowledge unless the message is too long. */
    method IngestFragment(h: FrameHeader, payload: seq<Byte>) returns (rc: Status)
      requires Valid() && InRange(h)
      modifies this
      ensures Valid() && old(sent) <= sent && started == old(started) && sinkOk == old(sinkOk) &&
              awaitingAck == old(awaitingAck)
      ensures Rx() == Reassemble(old(Rx()), h, payload)
      ensures rc == if TooLong(old(Rx()), h, payload) then ErrBufferTooSmall else if sinkOk then OK else ErrInternal
      ensures rc == OK ==> |sent| > 0 && Acknowledges(sent[|sent| - 1], h.sequence)
    {
      var fits := IngestData(h, payload);
      if !fits { return ErrBufferTooSmall; }
      rc := SendAck(h.sequence);
    }

    /** ingestFrame once the frame is checked.  `replyDue` stands for the one-second limit on
        handshake replies. */
    method IngestChecked(h: FrameHeader, payload: seq<Byte>, replyDue: bool) returns (rc: Status)
      requires Valid() && InRange(h)
      modifies this
      ensures Valid() && old(sent) <= sent && started == old(started) && sinkOk == old(sinkOk)
      ensures Rx() == Ingest(old(Rx()), Accepted(h, payload))
      ensures var handshake := h.frameType == 0 && h.streamId == 0 && |payload| >= 10 && payload[0] == 0xE1;
              && (h.frameType == 0 && !handshake ==>
                    && Rx() == Reassemble(old(Rx()), h, payload)
                    && rc == (if TooLong(old(Rx()), h, payload) then ErrBufferTooSmall
                              else if sinkOk then OK else ErrInternal)
                    && (rc == OK ==> |sent| > 0 && Acknowledges(sent[|sent| - 1], h.sequence)))
              && (h.frameType != 0 || handshake ==> rc == OK && Rx() == old(Rx()))
              && (handshake && sinkOk ==> |sent| > 0 && Acknowledges(sent[|sent| - 1], h.sequence))
      ensures awaitingAck == (old(awaitingAck) && !(h.frameType == 1 && h.ack == old(awaitingAckSeq)))
    {
      if h.frameType == FRAME_DATA && h.streamId == STREAM_CONTROL && |payload| >= 10 && payload[0] == HANDSHAKE {
        IngestHandshake(h, replyDue);
        return OK;
      }
      NoteFrame(h);
      if h.frameType == FRAME_ACK {
        if awaitingAck && h.ack == awaitingAckSeq { awaitingAck := false; }
        return OK;
      }
      if h.frameType == FRAME_DATA {
        rc := IngestFragment(h, payload);
        return rc;
      }
      return OK;
    }

    /** ingestFrame. */
    method IngestFrame(frame: array<Byte>, replyDue: bool) returns (rc: Status)
      requires Valid()
      modifies this
      ensures Valid() && old(sent) <= sent
      ensures !old(started) ==> rc == ErrNotRunning && Rx() == old(Rx()) && sent == old(sent)
      ensures old(started) ==> Rx() == Ingest(old(Rx()), ParseFrame(frame[..]))
      ensures old(started) && ParseFrame(frame[..]).BadArgument? ==> rc == ErrInvalidArgument && sent == old(sent)
      ensures old(started) && ParseFrame(frame[..]).BadCrc? ==> rc == ErrCrc && sent == old(sent)
    {
      if !started { return ErrNotRunning; }
      var checked := CheckFrame(frame);
      match checked
      case BadArgument => return ErrInvalidArgument;
      case BadCrc => return ErrCrc;
      case Accepted(h, payload) =>
        OnlyBuiltFramesAccepted(frame[..]);
        rc := IngestChecked(h, payload, replyDue);
    }

    /** receive, without waiting. */
    method Receive() returns (r: Option<Message>)
      requires Valid()
      modifies this`rxQueue
      ensures Valid()
      ensures if started && old(rxQueue) != [] then r == Some(old(rxQueue)[0]) && rxQueue == old(rxQueue)[1..]
              else r == None && rxQueue == old(rxQueue)
    {
      if !started || rxQueue == [] { return None; }
      r := Some(rxQueue[0]);
      rxQueue := rxQueue[1..];
    }
  }

  /** What a send without retransmission puts on the air delivers the message once. */
  lemma SentOnceDeliversOnce(r: Receiver, frames: seq<Ingested>, m: Message, reliable: bool, ackedOn: nat -> nat)
    requires Sendable(m) && Transmits(frames, m, Owners(FragmentCount(|m.data|), reliable, ackedOn))
    requires forall i: nat :: i < FragmentCount(|m.data|) ==> Copies(reliable, ackedOn(i)) == 1
    ensures IngestAll(r, frames).queue == r.queue + [m]
  {
    var n := FragmentCount(|m.data|);
    SingleOwners(n, reliable, ackedOn);
    SingleCopiesCarry(frames, m, 0);
    assert frames[0..] == frames && n > 0;
    FragmentsDeliver(r, frames, m, 0, r.queue);
  }
}
