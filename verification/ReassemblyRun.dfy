/** What a receiver queues, whatever frames reach it: lost, repeated, damaged, out of order or of several streams. */
module ReassemblyRun {
  import opened Crc
  import opened Frame
  import opened Reassembly

  /** A frame that the reassembly looks at: an accepted data frame other than a handshake, which is one of at least ten
      bytes on stream 0 that begins with E1. */
  predicate IsData(p: Ingested) {
    p.Accepted? && p.header.frameType == 0 &&
    !(p.header.streamId == 0 && |p.payload| >= 10 && p.payload[0] == 0xE1)
  }

  /** The payloads of the data frames from i up to n. */
  function Payloads(ps: seq<Ingested>, i: nat, n: nat): seq<Byte>
    requires i <= n <= |ps|
    decreases n
  {
    if i == n then [] else Payloads(ps, i, n - 1) + (if IsData(ps[n - 1]) then ps[n - 1].payload else [])
  }

  /** The data frames from i up to n are pieces of one message: all of one stream, with a start at most at the first. */
  predicate OneStream(ps: seq<Ingested>, i: nat, n: nat, streamId: nat) {
    && i < n <= |ps| && IsData(ps[i])
    && (forall k :: i <= k < n && IsData(ps[k]) ==> ps[k].header.streamId == streamId)
    && (forall k :: i < k < n && IsData(ps[k]) ==> ps[k].header.flags % 2 == 0)
  }

  predicate NoEnd(ps: seq<Ingested>, i: nat, n: nat) {
    n <= |ps| && forall k :: i <= k < n && IsData(ps[k]) ==> ps[k].header.flags / 2 % 2 == 0
  }

  /** Bit 4 when some piece has it, bit 8 when some piece has it, and no other bit. */
  predicate FlagsOf(ps: seq<Ingested>, i: nat, n: nat, flags: nat) {
    && n <= |ps| && flags in {0, 4, 8, 12}
    && (flags / 4 % 2 == 1 <==> exists k :: i <= k < n && IsData(ps[k]) && ps[k].header.flags / 4 % 2 == 1)
    && (flags / 8 % 2 == 1 <==> exists k :: i <= k < n && IsData(ps[k]) && ps[k].header.flags / 8 % 2 == 1)
  }

  /** What the receiver is in the middle of. */
  predicate Gathers(r: Receiver, ps: seq<Ingested>, i: nat, n: nat) {
    && OneStream(ps, i, n, r.streamId) && NoEnd(ps, i, n) && FlagsOf(ps, i, n, r.flags)
    && r.priority == ps[i].header.priority && r.buffer == Payloads(ps, i, n) && |r.buffer| <= 4096
  }

  /** The message is exactly the pieces from i to j: of one stream, the end at the last and only there. */
  predicate MadeOf(m: Message, ps: seq<Ingested>, i: nat, j: nat) {
    && j < |ps| && OneStream(ps, i, j + 1, m.streamId) && NoEnd(ps, i, j)
    && IsData(ps[j]) && ps[j].header.flags / 2 % 2 == 1
    && FlagsOf(ps, i, j + 1, m.flags) && m.priority == ps[i].header.priority
    && m.data == Payloads(ps, i, j + 1) && |m.data| <= 4096
  }

  function Idle(): Receiver { Receiver(false, [], 0, 0, 0, []) }

  // ------------------------------------------------------------ one frame

  lemma NeutralKeeps(r: Receiver, ps: seq<Ingested>, i: nat, n: nat)
    requires n < |ps| && Neutral(ps[n]) && Gathers(r, ps, i, n)
    ensures Gathers(r, ps, i, n + 1)
  {
    assert Payloads(ps, i, n + 1) == Payloads(ps, i, n) + [];
  }

  lemma OrFlagsIs(kept: nat, flags: nat)
    requires kept in {0, 4, 8, 12}
    ensures var t := OrAppFlags(kept, flags);
            && t in {0, 4, 8, 12} && (t / 4 % 2 == 1 <==> kept / 4 % 2 == 1 || flags / 4 % 2 == 1)
            && (t / 8 % 2 == 1 <==> kept / 8 % 2 == 1 || flags / 8 % 2 == 1)
  {
  }

  lemma FlagsGrow(ps: seq<Ingested>, i: nat, n: nat, kept: nat)
    requires i <= n < |ps| && IsData(ps[n]) && FlagsOf(ps, i, n, kept)
    ensures FlagsOf(ps, i, n + 1, OrAppFlags(kept, ps[n].header.flags))
  {
    OrFlagsIs(kept, ps[n].header.flags);
  }

  /** A piece that goes on with what there is. */
  lemma PieceAdded(r: Receiver, ps: seq<Ingested>, i: nat, n: nat) returns (flags: nat)
    requires n < |ps| && IsData(ps[n]) && r.active && Gathers(r, ps, i, n)
    requires ps[n].header.flags % 2 == 0 && r.streamId == ps[n].header.streamId
    ensures OneStream(ps, i, n + 1, r.streamId) && FlagsOf(ps, i, n + 1, flags)
    ensures flags == OrAppFlags(r.flags, ps[n].header.flags)
    ensures Payloads(ps, i, n + 1) == r.buffer + ps[n].payload
  {
    flags := OrAppFlags(r.flags, ps[n].header.flags);
    FlagsGrow(ps, i, n, r.flags);
  }

  /** A piece that starts afresh. */
  lemma PieceAlone(ps: seq<Ingested>, n: nat) returns (flags: nat)
    requires n < |ps| && IsData(ps[n])
    ensures OneStream(ps, n, n + 1, ps[n].header.streamId) && FlagsOf(ps, n, n + 1, flags)
    ensures flags == OrAppFlags(0, ps[n].header.flags)
    ensures Payloads(ps, n, n + 1) == ps[n].payload
  {
    flags := OrAppFlags(0, ps[n].header.flags);
    OrFlagsIs(0, ps[n].header.flags);
    assert Payloads(ps, n, n) == [];
  }

  // ------------------------------------------------------------ every run

  /** Whenever the receiver is in the middle of a message, it holds exactly the pieces since some frame. */
  lemma {:induction false} HoldsPieces(ps: seq<Ingested>, n: nat) returns (i: nat)
    requires n <= |ps|
    ensures IngestAll(Idle(), ps[..n]).active ==> Gathers(IngestAll(Idle(), ps[..n]), ps, i, n)
    decreases n
  {
    if n == 0 {
      i := 0;
      assert ps[..0] == [];
    } else {
      var r := IngestAll(Idle(), ps[..n - 1]);
      i := HoldsPieces(ps, n - 1);
      IngestOneMore(Idle(), ps, n - 1);
      i := NextHolds(r, ps, i, n - 1);
    }
  }

  lemma NextHolds(r: Receiver, ps: seq<Ingested>, i: nat, n: nat) returns (i': nat)
    requires n < |ps| && (r.active ==> Gathers(r, ps, i, n))
    ensures Ingest(r, ps[n]).active ==> Gathers(Ingest(r, ps[n]), ps, i', n + 1)
  {
    i' := i;
    if Neutral(ps[n]) {
      if r.active { NeutralKeeps(r, ps, i, n); }
    } else if r.active && !FragStart(ps[n].header.flags) && r.streamId == ps[n].header.streamId {
      var flags := PieceAdded(r, ps, i, n);
    } else {
      i' := n;
      var flags := PieceAlone(ps, n);
    }
  }

  /** What a frame adds to the queue. */
  lemma NextQueued(r: Receiver, ps: seq<Ingested>, i: nat, n: nat) returns (i': nat)
    requires n < |ps| && (r.active ==> Gathers(r, ps, i, n))
    ensures var t := Ingest(r, ps[n]);
            t.queue == r.queue || (|t.queue| == |r.queue| + 1 && t.queue[..|r.queue|] == r.queue
                                   && MadeOf(t.queue[|r.queue|], ps, i', n))
  {
    i' := i;
    if IsData(ps[n]) {
      if r.active && !FragStart(ps[n].header.flags) && r.streamId == ps[n].header.streamId {
        var flags := PieceAdded(r, ps, i, n);
      } else {
        i' := n;
        var flags := PieceAlone(ps, n);
      }
    }
  }

  /** Every message queued, whatever frames arrived in whatever order: it is exactly the pieces between two frames, all
      of its stream and at most 4096 bytes, with a start at most at the first and the end at the last. */
  lemma {:induction false} QueuedIsOneStream(ps: seq<Ingested>, n: nat, q: nat) returns (i: nat, j: nat)
    requires n <= |ps| && q < |IngestAll(Idle(), ps[..n]).queue|
    ensures j < n && MadeOf(IngestAll(Idle(), ps[..n]).queue[q], ps, i, j)
    decreases n
  {
    if n > 0 {
      var r := IngestAll(Idle(), ps[..n - 1]);
      IngestOneMore(Idle(), ps, n - 1);
      if q < |r.queue| {
        i, j := QueuedIsOneStream(ps, n - 1, q);
        var held := HoldsPieces(ps, n - 1);
        var added := NextQueued(r, ps, held, n - 1);
      } else {
        i := HoldsPieces(ps, n - 1);
        i := NextQueued(r, ps, i, n - 1);
        j := n - 1;
      }
    }
  }
}
