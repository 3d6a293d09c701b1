/** The native messaging host (apps/agent/src/companion.ts): length-prefixed messages read from a
    stream that arrives in any pieces, one reply written for each. */
module NativeHost {
  type Byte = n: nat | n < 256

  const MAX_MESSAGE: nat := 1_048_576
  const TWO_32: nat := 0x1_0000_0000

  // ------------------------------------------------------------ framing

  /** writeUInt32LE. */
  function Header(n: nat): (h: seq<Byte>)
    requires n < TWO_32
    ensures |h| == 4
  {
    [n % 256, n / 256 % 256, n / 65536 % 256, n / 16777216]
  }

  /** readUInt32LE. */
  function LengthAt(s: seq<Byte>): nat
    requires |s| >= 4
  {
    FromBytes(s[0], s[1], s[2], s[3])
  }

  function FromBytes(a: nat, b: nat, c: nat, d: nat): nat { a + 256 * b + 65536 * c + 16777216 * d }

  lemma LengthOfHeader(n: nat, rest: seq<Byte>)
    requires n < TWO_32
    ensures LengthAt(Header(n) + rest) == n
  {
    var h := Header(n);
    assert (h + rest)[0] == h[0] && (h + rest)[1] == h[1] && (h + rest)[2] == h[2] && (h + rest)[3] == h[3];
    Digits256(n);
  }

  lemma Digits256(n: nat)
    requires n < TWO_32
    ensures n == n % 256 + 256 * (n / 256 % 256) + 65536 * (n / 65536 % 256) + 16777216 * (n / 16777216)
  {
    assert n / 65536 == n / 256 / 256;
    assert n / 16777216 == n / 65536 / 256;
  }

  predicate Sendable(m: seq<Byte>) { |m| < TWO_32 }

  function Frame(m: seq<Byte>): seq<Byte>
    requires Sendable(m)
  {
    Header(|m|) + m
  }

  predicate AllSendable(ms: seq<seq<Byte>>) { forall i :: 0 <= i < |ms| ==> Sendable(ms[i]) }

  predicate AllSmall(ms: seq<seq<Byte>>) { forall i :: 0 <= i < |ms| ==> |ms[i]| <= MAX_MESSAGE }

  function Encode(ms: seq<seq<Byte>>): seq<Byte>
    requires AllSendable(ms)
  {
    if ms == [] then [] else Frame(ms[0]) + Encode(ms[1..])
  }

  // ------------------------------------------------------------ the host

  datatype Reply = Answer(request: seq<Byte>) | TooLarge

  /** `tasks` are the loop runs still to finish; `asking` is the request whose answer is awaited; `received`
      and `handled` are history. */
  datatype Host = Host(buffered: seq<Byte>, tasks: nat, asking: seq<seq<Byte>>, replies: seq<Reply>,
                       received: seq<Byte>, handled: seq<seq<Byte>>)

  /** Data arrives at any time, also while an answer is awaited. */
  datatype Event = Data(chunk: seq<Byte>) | Turn | Answered

  predicate HasFrame(s: seq<Byte>) { |s| >= 4 && (LengthAt(s) > MAX_MESSAGE || |s| >= 4 + LengthAt(s)) }

  predicate Enabled(h: Host, ev: Event) {
    match ev
    case Data(_) => true
    case Turn => h.asking == [] && h.tasks > 0
    case Answered => h.asking != []
  }

  /** One turn of the loop, up to where it awaits the answer. */
  function Turned(h: Host): Host
    requires h.tasks > 0
  {
    if !HasFrame(h.buffered) then h.(tasks := h.tasks - 1)
    else if LengthAt(h.buffered) > MAX_MESSAGE then
      h.(replies := h.replies + [TooLarge], buffered := [], tasks := h.tasks - 1)
    else
      var end := 4 + LengthAt(h.buffered);
      var raw := h.buffered[4..end];
      h.(buffered := h.buffered[end..], asking := [raw], handled := h.handled + [raw])
  }

  /** A turn, in the bytes themselves: the first four give the length of what follows, lowest byte first; more than
      1 MiB is refused and everything buffered is dropped; a message that is all there is taken and asked about;
      otherwise nothing happens until more arrives. */
  lemma TurnReadsBytes(h: Host)
    requires h.tasks > 0 && h.asking == []
    ensures var b, t := h.buffered, Turned(h);
            && (|b| < 4 ==> t == h.(tasks := h.tasks - 1))
            && (|b| >= 4 ==>
                  var n: nat := b[0] as nat + 256 * (b[1] as nat) + 65536 * (b[2] as nat) + 16777216 * (b[3] as nat);
                  && (n > 1024 * 1024 ==> t == h.(tasks := h.tasks - 1, buffered := [],
                                                  replies := h.replies + [TooLarge]))
                  && (n <= 1024 * 1024 && |b| < 4 + n ==> t == h.(tasks := h.tasks - 1))
                  && (n <= 1024 * 1024 && |b| >= 4 + n ==>
                        && t.asking == [b[4..4 + n]] && t.handled == h.handled + [b[4..4 + n]]
                        && t.buffered == b[4 + n..] && t.replies == h.replies && t.received == h.received))
  {
  }

  /** The prefix of a message that is sent: its length, lowest byte first. */
  lemma HeaderBytes(n: nat)
    requires n < 0x1_0000_0000
    ensures var h := Header(n);
            n == h[0] as nat + 256 * (h[1] as nat) + 65536 * (h[2] as nat) + 16777216 * (h[3] as nat)
  {
    Digits256(n);
  }

  function After(h: Host, ev: Event): Host
    requires Enabled(h, ev)
  {
    match ev
    case Data(chunk) => h.(buffered := h.buffered + chunk, tasks := h.tasks + 1, received := h.received + chunk)
    case Turn => Turned(h)
    case Answered => h.(asking := [], replies := h.replies + [Answer(h.asking[0])])
  }

  predicate Legal(h: Host, evs: seq<Event>)
    decreases |evs|
  {
    evs == [] || (Enabled(h, evs[0]) && Legal(After(h, evs[0]), evs[1..]))
  }

  function RunFrom(h: Host, evs: seq<Event>): Host
    requires Legal(h, evs)
    decreases |evs|
  {
    if evs == [] then h else RunFrom(After(h, evs[0]), evs[1..])
  }

  function Started(): Host { Host([], 0, [], [], [], []) }

  predicate Idle(h: Host) { h.tasks == 0 && h.asking == [] }

  function Answers(ms: seq<seq<Byte>>): (r: seq<Reply>)
    ensures |r| == |ms| && forall i :: 0 <= i < |ms| ==> r[i] == Answer(ms[i])
  {
    seq(|ms|, i requires 0 <= i < |ms| => Answer(ms[i]))
  }

  // ------------------------------------------------------------ what is kept while nothing oversized arrives

  ghost predicate Refused(h: Host) { TooLarge in h.replies }

  ghost predicate Inv(h: Host) {
    && AllSmall(h.handled)
    && (!Refused(h) ==> AllSendable(h.handled) && h.received == Encode(h.handled) + h.buffered
                        && h.replies + Answers(h.asking) == Answers(h.handled))
    && |h.asking| <= 1
    && (h.asking != [] ==> h.tasks > 0)
    && (h.tasks == 0 ==> !HasFrame(h.buffered))
  }

  lemma EncodeFirst(m: seq<Byte>, ms: seq<seq<Byte>>)
    requires Sendable(m) && AllSendable(ms)
    ensures AllSendable([m] + ms) && Encode([m] + ms) == Frame(m) + Encode(ms)
  {
    assert ([m] + ms)[1..] == ms;
  }

  lemma Regroup(a: seq<Byte>, b: seq<Byte>, c: seq<Byte>)
    ensures a + b + c == a + (b + c)
  {
  }

  lemma {:induction false} EncodeAppend(ms: seq<seq<Byte>>, m: seq<Byte>)
    requires AllSendable(ms) && Sendable(m)
    ensures AllSendable(ms + [m]) && Encode(ms + [m]) == Encode(ms) + Frame(m)
  {
    if ms == [] {
      EncodeFirst(m, []);
      assert ms + [m] == [m] + [] && Frame(m) + [] == Frame(m) && [] + Frame(m) == Frame(m);
    } else {
      EncodeAppend(ms[1..], m);
      EncodeFirst(ms[0], ms[1..] + [m]);
      Regroup(Frame(ms[0]), Encode(ms[1..]), Frame(m));
      assert ms + [m] == [ms[0]] + (ms[1..] + [m]);
    }
  }

  lemma BytesOfLength(s: seq<Byte>)
    requires |s| >= 4
    ensures LengthAt(s) < TWO_32 && Header(LengthAt(s)) == s[..4]
  {
    BytesBack(s[0], s[1], s[2], s[3]);
  }

  lemma LowByte(a: nat, q: nat)
    requires a < 256
    ensures (a + 256 * q) % 256 == a && (a + 256 * q) / 256 == q
  {
  }

  lemma BytesBack(a: nat, b: nat, c: nat, d: nat)
    requires a < 256 && b < 256 && c < 256 && d < 256
    ensures var n := FromBytes(a, b, c, d);
            n < TWO_32 && n % 256 == a && n / 256 % 256 == b && n / 65536 % 256 == c && n / 16777216 == d
  {
    var n := FromBytes(a, b, c, d);
    var n1 := b + 256 * (c + 256 * d);
    assert n == a + 256 * n1;
    LowByte(a, n1);
    LowByte(b, c + 256 * d);
    LowByte(c, d);
    assert n / 65536 == n / 256 / 256 && n / 16777216 == n / 65536 / 256;
  }

  lemma FrameTaken(s: seq<Byte>)
    requires |s| >= 4 && LengthAt(s) <= MAX_MESSAGE && |s| >= 4 + LengthAt(s)
    ensures var end := 4 + LengthAt(s); Sendable(s[4..end]) && s == Frame(s[4..end]) + s[end..]
  {
    BytesOfLength(s);
    FrameIs(s[4..4 + LengthAt(s)], LengthAt(s), s[..4]);
    ThreeParts(s, 4 + LengthAt(s));
  }

  lemma FrameIs(m: seq<Byte>, n: nat, header: seq<Byte>)
    requires |m| == n < TWO_32 && Header(n) == header
    ensures Frame(m) == header + m
  {
  }

  lemma ThreeParts(s: seq<Byte>, end: nat)
    requires 4 <= end <= |s|
    ensures s == s[..4] + s[4..end] + s[end..]
  {
  }

  lemma AnswersAppend(ms: seq<seq<Byte>>, m: seq<Byte>)
    ensures Answers(ms + [m]) == Answers(ms) + [Answer(m)]
  {
  }

  lemma TurnKeepsInv(h: Host)
    requires Inv(h) && h.asking == [] && h.tasks > 0
    ensures Inv(Turned(h))
  {
    if HasFrame(h.buffered) && LengthAt(h.buffered) <= MAX_MESSAGE {
      FrameTaken(h.buffered);
      var raw := Turned(h).asking[0];
      assert |raw| == LengthAt(h.buffered);
      AnswersAppend(h.handled, raw);
      if !Refused(h) {
        EncodeAppend(h.handled, raw);
        assert h.replies + [] == h.replies;
        assert Answers([raw]) == [Answer(raw)];
        assert Encode(h.handled) + (Frame(raw) + Turned(h).buffered) ==
               Encode(h.handled) + Frame(raw) + Turned(h).buffered;
      }
    }
  }

  lemma StepKeepsInv(h: Host, ev: Event)
    requires Inv(h) && Enabled(h, ev)
    ensures Inv(After(h, ev))
  {
    match ev
    case Data(chunk) =>
      assert Encode([]) == [];
      assert (Encode(h.handled) + h.buffered) + chunk == Encode(h.handled) + (h.buffered + chunk);
    case Turn => TurnKeepsInv(h);
    case Answered =>
      assert h.asking == [h.asking[0]] && Answers(h.asking) == [Answer(h.asking[0])];
      assert After(h, ev).replies + Answers([]) == h.replies + Answers(h.asking);
  }

  lemma {:induction false} RunKeepsInv(h: Host, evs: seq<Event>)
    requires Inv(h) && Legal(h, evs)
    ensures Inv(RunFrom(h, evs))
    decreases |evs|
  {
    if evs != [] {
      StepKeepsInv(h, evs[0]);
      RunKeepsInv(After(h, evs[0]), evs[1..]);
    }
  }

  // ------------------------------------------------------------ exactly the messages that were sent

  lemma SameHeader(m: seq<Byte>, x: seq<Byte>, n: seq<Byte>, y: seq<Byte>)
    requires Sendable(m) && Sendable(n) && Frame(m) + x <= Frame(n) + y
    ensures m == n && x <= y
  {
    var a, b := Frame(m) + x, Frame(n) + y;
    assert a == Header(|m|) + (m + x) && b == Header(|n|) + (n + y);
    assert a[..4] == Header(|m|) && b[..4] == Header(|n|) && a[..4] == b[..4];
    LengthOfHeader(|m|, []);
    LengthOfHeader(|n|, []);
    assert Header(|m|) + [] == Header(|m|) && Header(|n|) + [] == Header(|n|);
    assert a[4..] == m + x && b[4..] == n + y;
    assert a[4..][..|m|] == m && b[4..][..|n|] == n && a[4..][..|m|] == b[4..][..|m|];
    assert a[4..][|m|..] == x && b[4..][|n|..] == y;
  }

  /** Reading the start of an encoded list can only give its messages, in order. */
  lemma {:induction false} ReadsPrefix(hs: seq<seq<Byte>>, rest: seq<Byte>, ms: seq<seq<Byte>>)
    requires AllSendable(hs) && AllSendable(ms) && Encode(hs) + rest <= Encode(ms)
    ensures |hs| <= |ms| && hs == ms[..|hs|] && rest <= Encode(ms[|hs|..])
  {
    if hs == [] {
      assert [] + rest == rest && ms[0..] == ms;
    } else {
      assert Encode(hs) + rest == Frame(hs[0]) + (Encode(hs[1..]) + rest);
      assert |Encode([])| == 0;
      SameHeader(hs[0], Encode(hs[1..]) + rest, ms[0], Encode(ms[1..]));
      ReadsPrefix(hs[1..], rest, ms[1..]);
      assert hs == [hs[0]] + hs[1..] && ms[..|hs|] == [ms[0]] + ms[1..][..|hs| - 1];
      assert ms[1..][|hs| - 1..] == ms[|hs|..];
    }
  }

  /** At a frame boundary of small messages no length is too large. */
  lemma NextIsSmall(s: seq<Byte>, ms: seq<seq<Byte>>)
    requires AllSendable(ms) && AllSmall(ms) && s <= Encode(ms) && |s| >= 4
    ensures LengthAt(s) <= MAX_MESSAGE
  {
    assert ms != [];
    var n, t := |ms[0]|, ms[0] + Encode(ms[1..]);
    assert Encode(ms) == Header(n) + t;
    LengthOfHeader(n, t);
    SameStart(s, Header(n) + t);
  }

  lemma SameStart(s: seq<Byte>, e: seq<Byte>)
    requires s <= e && |s| >= 4
    ensures LengthAt(s) == LengthAt(e)
  {
  }

  lemma {:induction false} ReceivedGrows(h: Host, evs: seq<Event>)
    requires Legal(h, evs)
    ensures h.received <= RunFrom(h, evs).received
    decreases |evs|
  {
    if evs != [] { ReceivedGrows(After(h, evs[0]), evs[1..]); }
  }

  lemma TurnAccepts(h: Host, ms: seq<seq<Byte>>)
    requires Inv(h) && !Refused(h) && h.asking == [] && h.tasks > 0
    requires AllSendable(ms) && AllSmall(ms) && h.received <= Encode(ms)
    ensures !Refused(Turned(h))
  {
    ReadsPrefix(h.handled, h.buffered, ms);
    if |h.buffered| >= 4 { NextIsSmall(h.buffered, ms[|h.handled|..]); }
  }

  lemma {:induction false} NeverRefuses(h: Host, evs: seq<Event>, ms: seq<seq<Byte>>)
    requires Inv(h) && !Refused(h) && Legal(h, evs)
    requires AllSendable(ms) && AllSmall(ms) && RunFrom(h, evs).received <= Encode(ms)
    ensures !Refused(RunFrom(h, evs))
    decreases |evs|
  {
    if evs != [] {
      ReceivedGrows(h, evs);
      if evs[0].Turn? { TurnAccepts(h, ms); }
      StepKeepsInv(h, evs[0]);
      NeverRefuses(After(h, evs[0]), evs[1..], ms);
    }
  }

  /** For messages of at most 1 MiB, however the bytes are cut up and whenever they arrive: what has been handled is at
      every moment the first so many messages, each answered once and in order. */
  lemma HandlesInOrder(evs: seq<Event>, ms: seq<seq<Byte>>)
    requires Legal(Started(), evs) && AllSendable(ms) && AllSmall(ms) && RunFrom(Started(), evs).received <= Encode(ms)
    ensures var h := RunFrom(Started(), evs);
            && |h.handled| <= |ms| && h.handled == ms[..|h.handled|]
            && h.replies + Answers(h.asking) == Answers(h.handled)
  {
    StartedInv();
    RunKeepsInv(Started(), evs);
    NeverRefuses(Started(), evs, ms);
    var h := RunFrom(Started(), evs);
    ReadsPrefix(h.handled, h.buffered, ms);
  }

  lemma StartedInv()
    ensures Inv(Started()) && !Refused(Started())
  {
    assert Answers([]) == [];
  }

  /** Once every byte is in and the host is idle, exactly the messages sent have been handled and answered, one reply
      each, if and only if none of them exceeds 1 MiB. */
  lemma HandlesExactlyIff(evs: seq<Event>, ms: seq<seq<Byte>>)
    requires Legal(Started(), evs) && AllSendable(ms)
    requires RunFrom(Started(), evs).received == Encode(ms) && Idle(RunFrom(Started(), evs))
    ensures var h := RunFrom(Started(), evs); h.handled == ms && h.replies == Answers(ms) <==> AllSmall(ms)
  {
    StartedInv();
    RunKeepsInv(Started(), evs);
    var h := RunFrom(Started(), evs);
    if AllSmall(ms) {
      HandlesInOrder(evs, ms);
      NeverRefuses(Started(), evs, ms);
      ReadsPrefix(h.handled, h.buffered, ms);
      AllConsumed(h, ms);
      assert h.replies + Answers([]) == h.replies;
    }
  }

  lemma CancelPrefix(a: seq<Byte>, b: seq<Byte>, c: seq<Byte>)
    requires a + b == a + c
    ensures b == c
  {
    assert (a + b)[|a|..] == b && (a + c)[|a|..] == c;
  }

  lemma FrameInFront(ms: seq<seq<Byte>>)
    requires AllSendable(ms) && AllSmall(ms) && ms != []
    ensures HasFrame(Encode(ms))
  {
    var rest := ms[0] + Encode(ms[1..]);
    LengthOfHeader(|ms[0]|, rest);
    assert Encode(ms) == Header(|ms[0]|) + rest;
  }

  lemma AllConsumed(h: Host, ms: seq<seq<Byte>>)
    requires AllSendable(ms) && AllSmall(ms) && AllSendable(h.handled) && !HasFrame(h.buffered)
    requires Encode(h.handled) + h.buffered == Encode(ms)
    requires |h.handled| <= |ms| && h.handled == ms[..|h.handled|]
    ensures h.handled == ms
  {
    var rest := ms[|h.handled|..];
    assert ms == h.handled + rest;
    EncodeSplit(h.handled, rest);
    CancelPrefix(Encode(h.handled), h.buffered, Encode(rest));
    if rest != [] { FrameInFront(rest); }
  }

  lemma Associative(a: seq<Byte>, b: seq<Byte>, c: seq<Byte>)
    ensures a + b + c == a + (b + c)
  {
  }

  lemma {:induction false} EncodeSplit(a: seq<seq<Byte>>, b: seq<seq<Byte>>)
    requires AllSendable(a) && AllSendable(b)
    ensures AllSendable(a + b) && Encode(a + b) == Encode(a) + Encode(b)
  {
    if a == [] {
      assert a + b == b;
      assert [] + Encode(b) == Encode(b);
    } else {
      EncodeSplit(a[1..], b);
      assert (a + b)[1..] == a[1..] + b && (a + b)[0] == a[0];
      Associative(Frame(a[0]), Encode(a[1..]), Encode(b));
    }
  }

  // ------------------------------------------------------------ the data handler

  ghost predicate Reached(h: Host, evs: seq<Event>, v: Host) { Legal(h, evs) && RunFrom(h, evs) == v }

  lemma {:induction false} Append(h: Host, evs: seq<Event>, ev: Event)
    requires Legal(h, evs) && Enabled(RunFrom(h, evs), ev)
    ensures Legal(h, evs + [ev]) && RunFrom(h, evs + [ev]) == After(RunFrom(h, evs), ev)
    decreases |evs|
  {
    if evs == [] {
      assert evs + [ev] == [ev] && [ev][1..] == [];
    } else {
      Append(After(h, evs[0]), evs[1..], ev);
      assert (evs + [ev])[1..] == evs[1..] + [ev];
    }
  }

  lemma Then(h: Host, past: seq<Event>, u: Host, ev: Event) returns (evs: seq<Event>, v: Host)
    requires Reached(h, past, u) && Enabled(u, ev)
    ensures Reached(h, evs, v) && v == After(u, ev)
  {
    Append(h, past, ev);
    evs, v := past + [ev], After(u, ev);
  }

  class CompanionHost {
    var buffered: seq<Byte>
    /** What was written to the output, in order, and the requests that were handled. */
    var replies: seq<Reply>
    var handled: seq<seq<Byte>>

    constructor ()
      ensures buffered == [] && replies == [] && handled == [] && In(Started())
    {
      buffered, replies, handled := [], [], [];
    }

    ghost predicate In(h: Host)
      reads this
    {
      h.buffered == buffered && h.replies == replies && h.handled == handled && Idle(h)
    }

    /** The data listener, when every answer is ready before more data arrives. */
    method OnData(chunk: seq<Byte>, ghost h: Host) returns (ghost evs: seq<Event>, ghost v: Host)
      requires In(h)
      modifies this
      ensures Reached(h, evs, v) && In(v)
      ensures v.received == h.received + chunk
      ensures |buffered| >= 4 ==>
                var n: nat := buffered[0] as nat + 256 * (buffered[1] as nat) + 65536 * (buffered[2] as nat)
                              + 16777216 * (buffered[3] as nat);
                n <= 1024 * 1024 && |buffered| < 4 + n
    {
      buffered := buffered + chunk;
      evs, v := Then(h, [], h, Data(chunk));
      var reading := true;
      while reading
        invariant v.buffered == buffered && v.replies == replies && v.handled == handled && v.asking == []
        invariant v.tasks == if reading then 1 else 0
        invariant Reached(h, evs, v) && v.received == h.received + chunk
        invariant reading || !HasFrame(buffered)
        decreases reading, |buffered|
      {
        if |buffered| < 4 {
          reading := false;
          evs, v := Then(h, evs, v, Turn);
        } else {
          var messageLength := LengthAt(buffered);
          if messageLength > MAX_MESSAGE {
            replies := replies + [TooLarge];
            buffered := [];
            reading := false;
            evs, v := Then(h, evs, v, Turn);
          } else if |buffered| < 4 + messageLength {
            reading := false;
            evs, v := Then(h, evs, v, Turn);
          } else {
            var raw := buffered[4..4 + messageLength];
            buffered := buffered[4 + messageLength..];
            handled := handled + [raw];
            replies := replies + [Answer(raw)];
            evs, v := Then(h, evs, v, Turn);
            evs, v := Then(h, evs, v, Answered);
          }
        }
      }
    }
  }
}
