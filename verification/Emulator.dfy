/** The TPM emulator's protocol over a socket: the handshake, power-on over the platform port, and
    one framed reply for each framed request. */
module Emulator {
  import opened Bytes
  import opened Transport

  const REMOTE_SIGNAL_POWER_ON_CMD: uint32 := 1
  const REMOTE_SEND_COMMAND: uint32 := 8
  const REMOTE_SIGNAL_NV_ON_CMD: uint32 := 11
  const REMOTE_HANDSHAKE_CMD: uint32 := 15
  const REMOTE_SESSION_END_CMD: uint32 := 20
  const CLIENT_VERSION: uint32 := 1
  const LOCALITY: byte := 0

  // ----- The protocol as a function of the connection's state

  datatype Link = Link(inbox: Inbox, accepts: seq<int>, sent: seq<byte>)

  /** A protocol step that completed with a value, or gave up, and the connection after it. */
  datatype Step<+T> = Done(value: T, link: Link) | Stop(link: Link) {
    predicate IsFailure() { Stop? }
    function PropagateFailure<U>(): Step<U>
      requires Stop?
    {
      Stop(link)
    }
    function Extract(): (T, Link)
      requires Done?
    {
      (value, link)
    }
  }

  type Message = s: seq<byte> | |s| < 0x1_0000_0000

  function SendBytes(l: Link, bytes: Message): Step<()> {
    if bytes == [] then Stop(l)
    else
      var t := SendAll(|bytes|, l.accepts);
      var l1 := l.(accepts := t.accepts, sent := l.sent + bytes[..t.taken]);
      if SendSucceeds(|bytes|, l.accepts) then Done((), l1) else Stop(l1)
  }

  function SendWord(l: Link, x: uint32): Step<()> {
    SendBytes(l, BE(4, x))
  }

  function ReadBytes(l: Link, n: uint32): Step<seq<byte>> {
    var d := ReadOnce(l.inbox, n);
    if d.ok then Done(d.bytes, l.(inbox := d.inbox)) else Stop(l.(inbox := d.inbox))
  }

  function ReadWord(l: Link): Step<uint32> {
    var (bytes, l1) :- ReadBytes(l, 4);
    Widths();
    ReadConserves(l.inbox, 4);
    Done(FromBE(bytes), l1)
  }

  /** A word that must have the given value. */
  function Require(l: Link, x: uint32): Step<()> {
    var (y, l1) :- ReadWord(l);
    if y == x then Done((), l1) else Stop(l1)
  }

  function SendHead(l: Link, cmd: Message): Step<()> {
    var (_, l1) :- SendWord(l, REMOTE_SEND_COMMAND);
    var (_, l2) :- SendBytes(l1, [LOCALITY]);
    SendWord(l2, |cmd|)
  }

  function SendRequest(l: Link, cmd: Message): Step<()> {
    var (_, l1) :- SendHead(l, cmd);
    SendBytes(l1, cmd)
  }

  function ReadReply(l: Link, capacity: uint32): Step<seq<byte>> {
    var (n, l1) :- ReadWord(l);
    if n > capacity then Stop(l1)
    else
      var (payload, l2) :- ReadBytes(l1, n);
      var (_, l3) :- Require(l2, 0);
      Done(payload, l3)
  }

  function Submit(l: Link, cmd: Message, capacity: uint32): Step<seq<byte>> {
    var (_, l1) :- SendRequest(l, cmd);
    ReadReply(l1, capacity)
  }

  function Handshake(l: Link): Step<uint32> {
    var (_, l1) :- SendWord(l, REMOTE_HANDSHAKE_CMD);
    var (_, l2) :- SendWord(l1, CLIENT_VERSION);
    ReadWelcome(l2)
  }

  /** The answer to the two words of the handshake. */
  function ReadWelcome(l: Link): Step<uint32> {
    var (_, l1) :- Require(l, CLIENT_VERSION);
    var (info, l2) :- ReadWord(l1);
    var (_, l3) :- Require(l2, 0);
    Done(info, l3)
  }

  function PowerOn(l: Link): Step<()> {
    var (_, l1) :- SendWord(l, REMOTE_SIGNAL_POWER_ON_CMD);
    var (_, l2) :- Require(l1, 0);
    var (_, l3) :- SendWord(l2, REMOTE_SIGNAL_NV_ON_CMD);
    Require(l3, 0)
  }

  // ----- Frames

  function RequestHead(cmd: seq<byte>): seq<byte> {
    BE(4, REMOTE_SEND_COMMAND) + [LOCALITY] + BE(4, |cmd|)
  }

  function RequestFrame(cmd: seq<byte>): seq<byte> {
    RequestHead(cmd) + cmd
  }

  function ReplyFrame(payload: seq<byte>): seq<byte> {
    BE(4, |payload|) + payload + BE(4, 0)
  }

  function Requests(cmds: seq<seq<byte>>): seq<byte> {
    if cmds == [] then [] else Requests(cmds[..|cmds| - 1]) + RequestFrame(cmds[|cmds| - 1])
  }

  function Replies(payloads: seq<seq<byte>>): seq<byte> {
    if payloads == [] then [] else Replies(payloads[..|payloads| - 1]) + ReplyFrame(payloads[|payloads| - 1])
  }

  /** Whether `a` continues `b` only by appending to what was sent and taking from what arrives. */
  predicate Moved(b: Link, a: Link, sent: seq<byte>, received: seq<byte>) {
    a.sent == b.sent + sent && b.inbox.Pending() == received + a.inbox.Pending()
  }

  /** Steps compose. */
  lemma Then(a: Link, b: Link, c: Link, s1: seq<byte>, r1: seq<byte>, s2: seq<byte>, r2: seq<byte>)
    requires Moved(a, b, s1, r1) && Moved(b, c, s2, r2)
    ensures Moved(a, c, s1 + s2, r1 + r2)
  {
    assert a.sent + (s1 + s2) == (a.sent + s1) + s2;
    assert (r1 + r2) + c.inbox.Pending() == r1 + (r2 + c.inbox.Pending());
  }

  lemma ThenExactly(a: Link, b: Link, c: Link, s1: seq<byte>, s2: seq<byte>)
    requires Moved(a, b, s1, [])
    ensures Moved(a, c, s1 + s2, []) <==> Moved(b, c, s2, [])
  {
    assert a.sent + (s1 + s2) == b.sent + s2;
    assert b.inbox.Pending() == a.inbox.Pending();
  }

  /** The wire has received a prefix of `bytes`, and nothing was read. */
  predicate Partial(b: Link, a: Link, bytes: seq<byte>) {
    a.inbox == b.inbox && exists k :: 0 <= k <= |bytes| && a.sent == b.sent + bytes[..k]
  }

  lemma PartialStop(a: Link, b: Link, first: seq<byte>, rest: seq<byte>)
    requires Partial(a, b, first)
    ensures Partial(a, b, first + rest)
  {
    var k :| 0 <= k <= |first| && b.sent == a.sent + first[..k];
    assert (first + rest)[..k] == first[..k];
  }

  lemma PartialThen(a: Link, b: Link, c: Link, first: seq<byte>, rest: seq<byte>)
    requires a.inbox == b.inbox && b.sent == a.sent + first && Partial(b, c, rest)
    ensures Partial(a, c, first + rest)
  {
    var k :| 0 <= k <= |rest| && c.sent == b.sent + rest[..k];
    assert (first + rest)[..|first| + k] == first + rest[..k];
    assert c.sent == a.sent + (first + rest)[..|first| + k];
  }

  /** A send that succeeded put all of its bytes on the wire exactly when their number is a C int;
      one that failed put a prefix of them there. */
  lemma SendBytesMoves(l: Link, bytes: Message)
    ensures var s := SendBytes(l, bytes);
            && s.link.inbox == l.inbox
            && Partial(l, s.link, bytes)
            && (s.Done? ==> bytes != [] && (Moved(l, s.link, bytes, []) <==> |bytes| < INT32_LIMIT))
  {
    assert bytes[..0] == [] && l.sent + [] == l.sent;
    if bytes != [] && SendSucceeds(|bytes|, l.accepts) {
      SuccessMeansSent(|bytes|, l.accepts);
      assert |bytes| == SendAll(|bytes|, l.accepts).taken ==> bytes[..|bytes|] == bytes;
    }
  }

  lemma ReadWordMoves(l: Link)
    ensures var s := ReadWord(l);
            && s.link.sent == l.sent && s.link.accepts == l.accepts
            && Moved(l, s.link, [], if s.Done? then BE(4, s.value) else [])
  {
    ReadConserves(l.inbox, 4);
    EncodeDecode(ReadOnce(l.inbox, 4).bytes);
  }

  lemma RequireMoves(l: Link, x: uint32)
    ensures var s := Require(l, x); s.Done? ==> Moved(l, s.link, [], BE(4, x))
    ensures Require(l, x).link.sent == l.sent
  {
    ReadWordMoves(l);
  }

  lemma HeadMoves(l: Link, cmd: Message)
    ensures var s := SendHead(l, cmd);
            && Partial(l, s.link, RequestHead(cmd))
            && (s.Done? ==> Moved(l, s.link, RequestHead(cmd), []))
  {
    var a, b, c := BE(4, REMOTE_SEND_COMMAND), [LOCALITY], BE(4, |cmd|);
    var s := SendHead(l, cmd);
    var s1 := SendWord(l, REMOTE_SEND_COMMAND);
    SendBytesMoves(l, a);
    PartialStop(l, s1.link, a, b);
    PartialStop(l, s1.link, a + b, c);
    if s1.Done? {
      var s2 := SendBytes(s1.link, b);
      SendBytesMoves(s1.link, b);
      PartialThen(l, s1.link, s2.link, a, b);
      PartialStop(l, s2.link, a + b, c);
      if s2.Done? {
        SendBytesMoves(s2.link, c);
        Then(l, s1.link, s2.link, a, [], b, []);
        PartialThen(l, s2.link, s.link, a + b, c);
        if s.Done? {
          Then(l, s2.link, s.link, a + b, [], c, []);
        }
      }
    }
  }

  /** Whatever becomes of a request, the wire has received a prefix of its frame; and a request that
      succeeded was sent in full exactly when its length is a positive C int. */
  lemma RequestSendsFrame(l: Link, cmd: Message)
    ensures var s := SendRequest(l, cmd);
            && Partial(l, s.link, RequestFrame(cmd))
            && (s.Done? ==> cmd != [] && (Moved(l, s.link, RequestFrame(cmd), []) <==> |cmd| < INT32_LIMIT))
  {
    RequestIsPartial(l, cmd);
    if SendRequest(l, cmd).Done? {
      RequestInFull(l, cmd);
    }
  }

  lemma RequestIsPartial(l: Link, cmd: Message)
    ensures Partial(l, SendRequest(l, cmd).link, RequestFrame(cmd))
  {
    var s1 := SendHead(l, cmd);
    HeadMoves(l, cmd);
    PartialStop(l, s1.link, RequestHead(cmd), cmd);
    if s1.Done? {
      SendBytesMoves(s1.link, cmd);
      PartialThen(l, s1.link, SendRequest(l, cmd).link, RequestHead(cmd), cmd);
    }
  }

  lemma RequestInFull(l: Link, cmd: Message)
    requires SendRequest(l, cmd).Done?
    ensures cmd != [] && (Moved(l, SendRequest(l, cmd).link, RequestFrame(cmd), []) <==> |cmd| < INT32_LIMIT)
  {
    var s, s1 := SendRequest(l, cmd), SendHead(l, cmd);
    HeadMoves(l, cmd);
    SendBytesMoves(s1.link, cmd);
    ThenExactly(l, s1.link, s.link, RequestHead(cmd), cmd);
  }

  /** A successful reply consumes exactly its frame; the payload is never empty and never exceeds
      the caller's capacity. */
  lemma ReplyConsumesFrame(l: Link, capacity: uint32)
    ensures var s := ReadReply(l, capacity);
            && s.link.sent == l.sent
            && (s.Done? ==> Moved(l, s.link, [], ReplyFrame(s.value)) && 0 < |s.value| <= capacity)
  {
    var s := ReadReply(l, capacity);
    var s1 := ReadWord(l);
    ReadWordMoves(l);
    if s1.Done? && s1.value <= capacity {
      var s2 := ReadBytes(s1.link, s1.value);
      ReadConserves(s1.link.inbox, s1.value);
      if s2.Done? {
        RequireMoves(s2.link, 0);
        if s.Done? {
          Then(l, s1.link, s2.link, [], BE(4, s1.value), [], s2.value);
          Then(l, s2.link, s.link, [], BE(4, s1.value) + s2.value, [], BE(4, 0));
        }
      }
    }
  }

  /** One exchange in step: one request frame out, one reply frame in, and its payload returned. */
  lemma SubmitInStep(l: Link, cmd: Message, capacity: uint32)
    requires Submit(l, cmd, capacity).Done?
    ensures var s := Submit(l, cmd, capacity);
            && 0 < |s.value| <= capacity
            && (Moved(l, s.link, RequestFrame(cmd), ReplyFrame(s.value)) <==> |cmd| < INT32_LIMIT)
  {
    RequestSendsFrame(l, cmd);
    ReplyConsumesFrame(SendRequest(l, cmd).link, capacity);
  }

  datatype Call = Call(cmd: Message, capacity: uint32)

  /** Calls one after another up to the first failure. */
  function SubmitAll(l: Link, calls: seq<Call>): Step<seq<seq<byte>>>
    decreases |calls|
  {
    if calls == [] then Done([], l)
    else
      var last := calls[|calls| - 1];
      var (replies, l1) :- SubmitAll(l, calls[..|calls| - 1]);
      var (reply, l2) :- Submit(l1, last.cmd, last.capacity);
      Done(replies + [reply], l2)
  }

  function Commands(calls: seq<Call>): (cmds: seq<seq<byte>>)
    ensures |cmds| == |calls|
  {
    seq(|calls|, i requires 0 <= i < |calls| => calls[i].cmd)
  }

  lemma OneMoreRequest(calls: seq<Call>)
    requires calls != []
    ensures var k := |calls| - 1;
            Requests(Commands(calls)) == Requests(Commands(calls[..k])) + RequestFrame(calls[k].cmd)
  {
    assert Commands(calls)[..|calls| - 1] == Commands(calls[..|calls| - 1]);
  }

  lemma OneMoreExchange(replies: seq<seq<byte>>, reply: seq<byte>)
    ensures Replies(replies + [reply]) == Replies(replies) + ReplyFrame(reply)
  {
    assert (replies + [reply])[..|replies|] == replies;
  }

  /** Lockstep over whole runs, for any fragmentation of what arrives: k successful calls put exactly
      k request frames on the wire and consume exactly k reply frames, and call i returned the
      payload of frame i. */
  lemma {:induction false} RunsInLockstep(l: Link, calls: seq<Call>)
    requires SubmitAll(l, calls).Done? && forall i :: 0 <= i < |calls| ==> |calls[i].cmd| < INT32_LIMIT
    ensures var s := SubmitAll(l, calls);
            |s.value| == |calls| && Moved(l, s.link, Requests(Commands(calls)), Replies(s.value))
    decreases |calls|
  {
    if calls != [] {
      var k := |calls| - 1;
      RunsInLockstep(l, calls[..k]);
      var s := SubmitAll(l, calls[..k]);
      var t := Submit(s.link, calls[k].cmd, calls[k].capacity);
      SubmitInStep(s.link, calls[k].cmd, calls[k].capacity);
      OneMoreExchange(s.value, t.value);
      OneMoreRequest(calls);
      Then(l, s.link, t.link, Requests(Commands(calls[..k])), Replies(s.value),
           RequestFrame(calls[k].cmd), ReplyFrame(t.value));
    }
  }

  // ----- Which replies are read, by how their bytes arrive

  /** How many arrivals are taken by the time the length, the payload of `n` bytes and the
      acknowledgement of a reply have been read. */
  function AfterLength(inbox: Inbox): nat {
    Taken(inbox, 0, 4)
  }

  function AfterPayload(inbox: Inbox, n: nat): nat {
    Taken(inbox, AfterLength(inbox), 4 + n)
  }

  function AfterAck(inbox: Inbox, n: nat): nat {
    Taken(inbox, AfterPayload(inbox, n), 8 + n)
  }

  predicate LengthInTime(inbox: Inbox) {
    Enough(inbox, AfterLength(inbox), 4)
  }

  predicate PayloadInTime(inbox: Inbox, n: nat) {
    Enough(inbox, AfterPayload(inbox, n), 4 + n)
  }

  predicate AckInTime(inbox: Inbox, n: nat) {
    Enough(inbox, AfterAck(inbox, n), 8 + n)
  }

  /** Each of the three parts of a reply of `n` bytes is complete with at most one arrival more than the
      parts before it took. */
  predicate Timely(inbox: Inbox, n: nat) {
    LengthInTime(inbox) && PayloadInTime(inbox, n) && AckInTime(inbox, n)
  }

  lemma LengthStage(l: Link)
    ensures var s, p := ReadWord(l), l.inbox.Pending();
            && (s.Done? <==> LengthInTime(l.inbox))
            && (s.Done? ==> |p| >= 4 && s == Done(FromBE(p[..4]), l.(inbox := Stage(l.inbox, AfterLength(l.inbox), 4)))
                            && s.link.inbox.Pending() == p[4..])
            && (s.Stop? ==> s.link.inbox.Pending() == p)
  {
    assert Gathered(l.inbox, 0) == l.inbox.buffered && l.inbox.arrivals[0..] == l.inbox.arrivals;
    assert Stage(l.inbox, 0, 0) == l.inbox;
    StageRead(l.inbox, 0, 0, 4);
    ReadConserves(l.inbox, 4);
    if LengthInTime(l.inbox) {
      StagePending(l.inbox, AfterLength(l.inbox), 4);
    }
  }

  lemma PayloadStage(l: Link, n: uint32)
    requires LengthInTime(l.inbox) && n > 0
    ensures var p := l.inbox.Pending();
            var s := ReadBytes(l.(inbox := Stage(l.inbox, AfterLength(l.inbox), 4)), n);
            && (s.Done? <==> PayloadInTime(l.inbox, n))
            && (s.Done? ==>
                  && |p| >= 4 + n
                  && s == Done(p[4..4 + n], l.(inbox := Stage(l.inbox, AfterPayload(l.inbox, n), 4 + n)))
                            && s.link.inbox.Pending() == p[4 + n..])
            && (s.Stop? ==> |p| >= 4 && s.link.inbox.Pending() == p[4..])
  {
    StageRead(l.inbox, AfterLength(l.inbox), 4, n);
    StagePending(l.inbox, AfterLength(l.inbox), 4);
    ReadConserves(Stage(l.inbox, AfterLength(l.inbox), 4), n);
    if PayloadInTime(l.inbox, n) {
      StagePending(l.inbox, AfterPayload(l.inbox, n), 4 + n);
    }
  }

  lemma AckStage(l: Link, n: uint32)
    requires PayloadInTime(l.inbox, n)
    ensures var p := l.inbox.Pending();
            var s := Require(l.(inbox := Stage(l.inbox, AfterPayload(l.inbox, n), 4 + n)), 0);
            && (AckInTime(l.inbox, n) ==> |p| >= 8 + n && (s.Done? <==> p[4 + n..8 + n] == BE(4, 0))
                                          && s.link.inbox.Pending() == p[8 + n..])
            && (!AckInTime(l.inbox, n) ==> s.Stop? && |p| >= 4 + n && s.link.inbox.Pending() == p[4 + n..])
  {
    var at := Stage(l.inbox, AfterPayload(l.inbox, n), 4 + n);
    StageRead(l.inbox, AfterPayload(l.inbox, n), 4 + n, 4);
    StagePending(l.inbox, AfterPayload(l.inbox, n), 4 + n);
    ReadConserves(at, 4);
    if AckInTime(l.inbox, n) {
      StagePending(l.inbox, AfterAck(l.inbox, n), 8 + n);
      EncodeDecode(l.inbox.Pending()[4 + n..8 + n]);
      Widths();
      DecodeEncode(4, 0);
    }
  }

  /** How many of the pending bytes a call takes, whether it succeeds or not. */
  function Consumed(inbox: Inbox, capacity: uint32): nat {
    var p := inbox.Pending();
    if !LengthInTime(inbox) || |p| < 4 then 0
    else
      var n := FromBE(p[..4]);
      if !(0 < n <= capacity && PayloadInTime(inbox, n)) then 4
      else if !AckInTime(inbox, n) then 4 + n
      else 8 + n
  }

  /** A reply for every state of the connection: what is consumed, whether or not the call succeeds; and
      the call succeeds exactly if the length is positive and within the capacity, the three parts
      arrive in time, and the acknowledgement is zero. */
  lemma ReplyByStages(l: Link, capacity: uint32)
    ensures var s, p, c := ReadReply(l, capacity), l.inbox.Pending(), Consumed(l.inbox, capacity);
            && c <= |p| && s.link == l.(inbox := s.link.inbox) && s.link.inbox.Pending() == p[c..]
            && (s.Done? <==> c >= 8 && c == 8 + FromBE(p[..4]) && p[c - 4..c] == BE(4, 0))
            && (s.Done? ==> s.value == p[4..c - 4])
  {
    LengthStage(l);
    if LengthInTime(l.inbox) {
      Widths();
      var n := FromBE(l.inbox.Pending()[..4]);
      if 0 < n <= capacity {
        PayloadStage(l, n);
        if PayloadInTime(l.inbox, n) {
          AckStage(l, n);
        }
      }
    }
  }

  /** A pending reply frame is returned exactly if its payload is not empty, fits the capacity and
      arrives in time; and whatever follows the frame stays pending. */
  lemma ReplySucceedsIff(l: Link, capacity: uint32, payload: Message, more: seq<byte>)
    requires l.inbox.Pending() == ReplyFrame(payload) + more
    ensures var s := ReadReply(l, capacity);
            && (s.Done? <==> 0 < |payload| <= capacity && Timely(l.inbox, |payload|))
            && (s.Done? ==> s.value == payload && s.link.sent == l.sent && s.link.inbox.Pending() == more)
  {
    ReplyByStages(l, capacity);
    FrameParts(payload, 0, more);
  }

  lemma Slices(a: seq<byte>, b: seq<byte>, c: seq<byte>, d: seq<byte>)
    ensures var p, i, j := a + b + c + d, |a| + |b|, |a| + |b| + |c|;
            && p[..|a|] == a && p[|a|..] == b + c + d && p[|a|..i] == b && p[i..] == c + d
            && p[i..j] == c && p[j..] == d
  {
    assert a + b + c + d == a + (b + c + d) == (a + b) + (c + d);
  }

  lemma FrameParts(payload: Message, ack: uint32, more: seq<byte>)
    ensures var p, n := BE(4, |payload|) + payload + BE(4, ack) + more, |payload|;
            && FromBE(p[..4]) == n && p[4..4 + n] == payload && p[4..] == payload + BE(4, ack) + more
            && p[4 + n..8 + n] == BE(4, ack) && p[4 + n..] == BE(4, ack) + more && p[8 + n..] == more
  {
    Widths();
    DecodeEncode(4, |payload|);
    Slices(BE(4, |payload|), payload, BE(4, ack), more);
  }

  /** The shape of a reply on the wire, with any acknowledgement. */
  function Reply(payload: Message, ack: uint32): seq<byte> {
    BE(4, |payload|) + payload + BE(4, ack)
  }

  /** Where a call that fails leaves the input: before the reply if its length did not arrive in time;
      after it if only the acknowledgement was wrong; and otherwise inside it, so that the next call
      takes payload, or the acknowledgement, for a length. */
  lemma FailedReplyLeaves(l: Link, capacity: uint32, payload: Message, ack: uint32, more: seq<byte>)
    requires l.inbox.Pending() == Reply(payload, ack) + more && ReadReply(l, capacity).Stop?
    ensures ReadReply(l, capacity).link.inbox.Pending()
            == if !LengthInTime(l.inbox) then Reply(payload, ack) + more
               else if !(0 < |payload| <= capacity && PayloadInTime(l.inbox, |payload|)) then
                 payload + BE(4, ack) + more
               else if !AckInTime(l.inbox, |payload|) then BE(4, ack) + more
               else more
    ensures Timely(l.inbox, |payload|) && 0 < |payload| <= capacity ==> ack != 0
  {
    ReplyByStages(l, capacity);
    FrameParts(payload, ack, more);
  }

  /** A reply that is too long for the caller is not drained: its payload is what the next call will
      take for a length. */
  lemma OversizedReplyIsNotDrained(l: Link, capacity: uint32)
    requires ReadWord(l).Done? && ReadWord(l).value > capacity
    ensures ReadReply(l, capacity).Stop?
    ensures l.inbox.Pending() == BE(4, ReadWord(l).value) + ReadReply(l, capacity).link.inbox.Pending()
  {
    ReadWordMoves(l);
  }

  /** From an empty buffer a reply of more than 2044 bytes can never be read: its length and its
      payload are looked for in one `recv` of at most 1024 bytes each. */
  lemma LongReplyFails(l: Link, capacity: uint32)
    requires l.inbox.buffered == [] && Bounded(l.inbox.arrivals)
    requires ReadWord(l).Done? && ReadWord(l).value > 2044
    ensures ReadReply(l, capacity).Stop?
  {
    var l1 := ReadWord(l).link;
    ReadSucceedsIff(l.inbox, 4);
    assert |l1.inbox.buffered| <= MAX_DATA_RECV - 4 && Bounded(l1.inbox.arrivals);
    ReadSucceedsIff(l1.inbox, ReadWord(l).value);
  }

  /** With the default buffer of `recv`, some way for a reply to arrive lets it be read exactly if it has
      at most 2044 bytes: its length and its payload are looked for in one `recv` each. */
  lemma LongestReply(l: Link, capacity: uint32, payload: Message)
    ensures (exists arrivals: seq<Arrival> :: Delivers(l, arrivals, payload, capacity))
            <==> 0 < |payload| <= capacity && |payload| <= 2044
  {
    forall arrivals: seq<Arrival> | Delivers(l, arrivals, payload, capacity)
      ensures 0 < |payload| <= capacity && |payload| <= 2 * MAX_DATA_RECV - 4
    {
      DeliveredIsShort(l, arrivals, payload, capacity);
    }
    if 0 < |payload| <= capacity && |payload| <= 2 * MAX_DATA_RECV - 4 {
      ShortIsDelivered(l, payload, capacity);
      assert Delivers(l, InPieces(ReplyFrame(payload)), payload, capacity);
    }
  }

  /** From an empty buffer, `arrivals` are the frame of `payload`, and reading it yields the payload. */
  predicate Delivers(l: Link, arrivals: seq<Arrival>, payload: Message, capacity: uint32) {
    && Bounded(arrivals) && Incoming(arrivals) == ReplyFrame(payload)
    && ReadReply(l.(inbox := Inbox([], arrivals)), capacity).Done?
  }

  lemma DeliveredIsShort(l: Link, arrivals: seq<Arrival>, payload: Message, capacity: uint32)
    requires Delivers(l, arrivals, payload, capacity)
    ensures 0 < |payload| <= capacity && |payload| <= 2 * MAX_DATA_RECV - 4
  {
    var inbox := Inbox([], arrivals);
    assert inbox.Pending() == ReplyFrame(payload) + [];
    ReplySucceedsIff(l.(inbox := inbox), capacity, payload, []);
    var k := AfterPayload(inbox, |payload|);
    assert k <= 2;
    BoundedGathered(inbox, k);
  }

  lemma {:induction false} BoundedGathered(inbox: Inbox, k: nat)
    requires k <= |inbox.arrivals| && Bounded(inbox.arrivals)
    ensures |Gathered(inbox, k)| <= |inbox.buffered| + k * MAX_DATA_RECV
  {
    if k > 0 {
      GatheredGrows(inbox, k - 1);
      BoundedGathered(inbox, k - 1);
    }
  }

  /** A frame in pieces as large as `recv` allows. */
  function InPieces(frame: seq<byte>): (arrivals: seq<Arrival>)
    ensures Bounded(arrivals) && Incoming(arrivals) == frame
    decreases |frame|
  {
    if |frame| <= MAX_DATA_RECV then
      assert Incoming([Data(frame)]) == frame by { assert [Data(frame)][1..] == []; }
      [Data(frame)]
    else
      var rest := InPieces(frame[MAX_DATA_RECV..]);
      assert ([Data(frame[..MAX_DATA_RECV])] + rest)[1..] == rest;
      [Data(frame[..MAX_DATA_RECV])] + rest
  }

  lemma {:induction false} PiecesBring(frame: seq<byte>, k: nat)
    requires k > 0 && (k > 1 ==> |frame| > (k - 1) * MAX_DATA_RECV)
    ensures var a := InPieces(frame);
            && k <= |a| && (forall i :: 0 <= i < k ==> a[i].Data?)
            && |Incoming(a[..k])| == if |frame| < k * MAX_DATA_RECV then |frame| else k * MAX_DATA_RECV
    decreases k
  {
    var a := InPieces(frame);
    if k == 1 {
      assert a[..1] == [a[0]] && [a[0]][1..] == [];
    } else {
      var rest := InPieces(frame[MAX_DATA_RECV..]);
      PiecesBring(frame[MAX_DATA_RECV..], k - 1);
      assert a[..k][1..] == rest[..k - 1];
    }
  }

  lemma PiecesReach(frame: seq<byte>, k: nat, need: nat)
    requires k > 0 && (k > 1 ==> |frame| > (k - 1) * MAX_DATA_RECV)
    ensures Enough(Inbox([], InPieces(frame)), k, need) <==> need <= |frame| && need <= k * MAX_DATA_RECV
  {
    PiecesBring(frame, k);
    EnoughFromEmpty(InPieces(frame), k, need);
  }

  lemma EnoughFromEmpty(arrivals: seq<Arrival>, k: nat, need: nat)
    requires k <= |arrivals| && forall i :: 0 <= i < k ==> arrivals[i].Data?
    ensures Enough(Inbox([], arrivals), k, need) <==> need <= |Incoming(arrivals[..k])|
  {
    assert [] + Incoming(arrivals[..k]) == Incoming(arrivals[..k]);
  }

  /** One piece brings the length, a second the payload, and a third, if it takes that, the rest. */
  lemma PiecesAreTimely(frame: seq<byte>)
    requires 8 < |frame| <= 2 * MAX_DATA_RECV + 4
    ensures Timely(Inbox([], InPieces(frame)), |frame| - 8)
  {
    var inbox, f := Inbox([], InPieces(frame)), |frame|;
    assert Gathered(inbox, 0) == [];
    PiecesReach(frame, 1, 4);
    assert AfterLength(inbox) == 1;
    PiecesReach(frame, 1, f - 4);
    var k := if f - 4 <= MAX_DATA_RECV then 1 else 2;
    PiecesReach(frame, k, f - 4);
    assert AfterPayload(inbox, f - 8) == k;
    PiecesReach(frame, k, f);
    if f > k * MAX_DATA_RECV {
      PiecesReach(frame, k + 1, f);
    }
  }

  lemma ShortIsDelivered(l: Link, payload: Message, capacity: uint32)
    requires 0 < |payload| <= capacity && |payload| <= 2 * MAX_DATA_RECV - 4
    ensures Delivers(l, InPieces(ReplyFrame(payload)), payload, capacity)
  {
    var frame := ReplyFrame(payload);
    var inbox := Inbox([], InPieces(frame));
    assert inbox.Pending() == frame + [];
    PiecesAreTimely(frame);
    ReplySucceedsIff(l.(inbox := inbox), capacity, payload, []);
  }

  /** A reply whose frame is complete with the next arrival, whatever follows it, is returned. */
  lemma WholeReplySucceeds(l: Link, capacity: uint32, payload: Message, more: seq<byte>)
    requires l.inbox.Pending() == ReplyFrame(payload) + more && 0 < |payload| <= capacity
    requires l.inbox.arrivals != [] && l.inbox.arrivals[0].Data?
    requires |l.inbox.buffered| + |l.inbox.arrivals[0].bytes| >= |payload| + 8
    ensures ReadReply(l, capacity).Done? && ReadReply(l, capacity).value == payload
  {
    GatheredGrows(l.inbox, 0);
    assert Gathered(l.inbox, 0) == l.inbox.buffered;
    ReplySucceedsIff(l, capacity, payload, more);
  }

  /** The handshake and power-on exchange exactly these words. */
  lemma SetupExchanges(l: Link)
    ensures var s := Handshake(l);
            s.Done? ==> Moved(l, s.link, BE(4, REMOTE_HANDSHAKE_CMD) + BE(4, CLIENT_VERSION),
                              BE(4, CLIENT_VERSION) + BE(4, s.value) + BE(4, 0))
    ensures var s := PowerOn(l);
            s.Done? ==> Moved(l, s.link, BE(4, REMOTE_SIGNAL_POWER_ON_CMD) + BE(4, REMOTE_SIGNAL_NV_ON_CMD),
                              BE(4, 0) + BE(4, 0))
  {
    if Handshake(l).Done? {
      HandshakeExchanges(l);
    }
    if PowerOn(l).Done? {
      PowerOnExchanges(l);
    }
  }

  lemma HandshakeExchanges(l: Link)
    requires Handshake(l).Done?
    ensures var s := Handshake(l);
            Moved(l, s.link, BE(4, REMOTE_HANDSHAKE_CMD) + BE(4, CLIENT_VERSION),
                  BE(4, CLIENT_VERSION) + BE(4, s.value) + BE(4, 0))
  {
    var hello, version := BE(4, REMOTE_HANDSHAKE_CMD), BE(4, CLIENT_VERSION);
    SendBytesMoves(l, hello);
    var l1 := SendWord(l, REMOTE_HANDSHAKE_CMD).link;
    SendBytesMoves(l1, version);
    var l2 := SendWord(l1, CLIENT_VERSION).link;
    Then(l, l1, l2, hello, [], version, []);
    RequireMoves(l2, CLIENT_VERSION);
    var l3 := Require(l2, CLIENT_VERSION).link;
    Then(l, l2, l3, hello + version, [], [], version);
    ReadWordMoves(l3);
    var s := ReadWord(l3);
    Then(l, l3, s.link, hello + version, version, [], BE(4, s.value));
    RequireMoves(s.link, 0);
    Then(l, s.link, Require(s.link, 0).link, hello + version, version + BE(4, s.value), [], BE(4, 0));
  }

  lemma PowerOnExchanges(l: Link)
    requires PowerOn(l).Done?
    ensures Moved(l, PowerOn(l).link, BE(4, REMOTE_SIGNAL_POWER_ON_CMD) + BE(4, REMOTE_SIGNAL_NV_ON_CMD),
                  BE(4, 0) + BE(4, 0))
  {
    var on, nv, ack := BE(4, REMOTE_SIGNAL_POWER_ON_CMD), BE(4, REMOTE_SIGNAL_NV_ON_CMD), BE(4, 0);
    SendBytesMoves(l, on);
    var l1 := SendWord(l, REMOTE_SIGNAL_POWER_ON_CMD).link;
    RequireMoves(l1, 0);
    var l2 := Require(l1, 0).link;
    Then(l, l1, l2, on, [], [], ack);
    SendBytesMoves(l2, nv);
    var l3 := SendWord(l2, REMOTE_SIGNAL_NV_ON_CMD).link;
    Then(l, l2, l3, on, ack, nv, []);
    RequireMoves(l3, 0);
    Then(l, l3, Require(l3, 0).link, on + nv, ack, [], ack);
  }

  // ----- When a request is taken, and what a failed one leaves

  /** Whether the peer takes the next `n` bytes but `i` sends in one piece. */
  predicate Whole(accepts: seq<int>, i: nat, n: nat) {
    i < |accepts| && accepts[i] >= n
  }

  /** What a send leaves that is not taken in one piece: a prefix is on the wire, of the length at which
      the loop ended. */
  ghost predicate Cut(l: Link, bytes: seq<byte>, link: Link) {
    exists t, calls ::
      && Ended(|bytes|, l.accepts, t, calls) && t.taken <= |bytes|
      && link == Link(l.inbox, t.accepts, l.sent + bytes[..t.taken])
  }

  /** A send succeeds exactly if its bytes are taken in one piece, or are too many for an int and then
      not sent at all. */
  lemma SendBytesExactly(l: Link, bytes: Message)
    ensures var s := SendBytes(l, bytes);
            && (s.Done? <==> bytes != [] && (|bytes| >= 0x8000_0000 || Whole(l.accepts, 0, |bytes|)))
            && s.link.inbox == l.inbox
            && (bytes == [] || |bytes| >= 0x8000_0000 ==> s.link == l)
            && (s.Done? && |bytes| < 0x8000_0000 ==> s.link == Link(l.inbox, l.accepts[1..], l.sent + bytes))
            && (s.Stop? && bytes != [] ==> Cut(l, bytes, s.link))
  {
    assert bytes[..0] == [] && l.sent + [] == l.sent;
    if 0 < |bytes| < 0x8000_0000 {
      var t := SendAll(|bytes|, l.accepts);
      SendSucceedsIff(|bytes|, l.accepts);
      SendExactly(|bytes|, 0, l.accepts);
      assert SendBytes(l, bytes).link == Link(l.inbox, t.accepts, l.sent + bytes[..t.taken]);
      if Accepted(l.accepts, |bytes|) == |bytes| {
        assert t == Transfer(|bytes|, |bytes|, l.accepts[1..]) && bytes[..|bytes|] == bytes;
      }
    }
  }

  /** The connection with `n` more sends taken whole, which put `bytes` on the wire. */
  function Took(l: Link, n: nat, bytes: seq<byte>): Link
    requires n <= |l.accepts|
  {
    Link(l.inbox, l.accepts[n..], l.sent + bytes)
  }

  lemma TookMore(l: Link, n: nat, a: seq<byte>, b: seq<byte>)
    requires n < |l.accepts|
    ensures Took(Took(l, n, a), 1, b) == Took(l, n + 1, a + b)
    ensures Took(l, n, a).accepts == l.accepts[n..]
    ensures forall k: nat :: Whole(Took(l, n, a).accepts, 0, k) <==> Whole(l.accepts, n, k)
  {
    assert l.accepts[n..][1..] == l.accepts[n + 1..] && l.sent + a + b == l.sent + (a + b);
  }

  lemma SmallWords()
    ensures BE(4, 1) == [0, 0, 0, 1] && BE(4, 8) == [0, 0, 0, 8] && BE(4, 11) == [0, 0, 0, 11]
    ensures BE(4, 15) == [0, 0, 0, 15] && BE(4, 20) == [0, 0, 0, 20] && BE(4, 0) == [0, 0, 0, 0]
  {
    forall x: nat | x < 256 ensures BE(4, x) == [0, 0, 0, x] {
      FourBytes(x);
    }
  }

  /** Whether the head of a request is taken: three sends, of the command word 8, the locality 0 and the
      length. */
  predicate HeadTaken(accepts: seq<int>) {
    Whole(accepts, 0, 4) && Whole(accepts, 1, 1) && Whole(accepts, 2, 4)
  }

  lemma HeadExactly(l: Link, cmd: Message)
    ensures var s := SendHead(l, cmd);
            && (s.Done? <==> HeadTaken(l.accepts))
            && (s.Done? ==> s.link == Took(l, 3, [0, 0, 0, 8] + [0] + BE(4, |cmd|)))
            && (s.Stop? ==>
                  if !Whole(l.accepts, 0, 4) then Cut(l, [0, 0, 0, 8], s.link)
                  else if !Whole(l.accepts, 1, 1) then Cut(Took(l, 1, [0, 0, 0, 8]), [0], s.link)
                  else Cut(Took(l, 2, [0, 0, 0, 8] + [0]), BE(4, |cmd|), s.link))
  {
    SmallWords();
    SendBytesExactly(l, [0, 0, 0, 8]);
    if Whole(l.accepts, 0, 4) {
      var l1 := Took(l, 1, [0, 0, 0, 8]);
      assert SendWord(l, REMOTE_SEND_COMMAND) == Done((), l1);
      SendBytesExactly(l1, [0]);
      assert Whole(l1.accepts, 0, 1) <==> Whole(l.accepts, 1, 1);
      if Whole(l.accepts, 1, 1) {
        TookMore(l, 1, [0, 0, 0, 8], [0]);
        var l2 := Took(l, 2, [0, 0, 0, 8] + [0]);
        assert SendBytes(l1, [LOCALITY]) == Done((), l2);
        SendBytesExactly(l2, BE(4, |cmd|));
        assert Whole(l2.accepts, 0, 4) <==> Whole(l.accepts, 2, 4);
        if Whole(l.accepts, 2, 4) {
          TookMore(l, 2, [0, 0, 0, 8] + [0], BE(4, |cmd|));
        }
      }
    }
  }

  /** Whether a request is taken: its head, and then the command in one piece, unless it is too long to be
      sent. */
  predicate RequestTaken(accepts: seq<int>, n: nat) {
    HeadTaken(accepts) && n > 0 && (n >= 0x8000_0000 || Whole(accepts, 3, n))
  }

  /** A request succeeds exactly if it is taken; and what exactly it leaves, in every case. */
  lemma RequestExactly(l: Link, cmd: Message)
    ensures var s, head := SendRequest(l, cmd), [0, 0, 0, 8] + [0] + BE(4, |cmd|);
            && (s.Done? <==> RequestTaken(l.accepts, |cmd|))
            && s.link.inbox == l.inbox
            && (s.Done? ==>
                  s.link == if |cmd| < 0x8000_0000 then Took(l, 4, head + cmd) else Took(l, 3, head))
            && (s.Stop? ==>
                  if !HeadTaken(l.accepts) then s.link == SendHead(l, cmd).link
                  else if cmd == [] then s.link == Took(l, 3, head)
                  else Cut(Took(l, 3, head), cmd, s.link))
  {
    HeadExactly(l, cmd);
    if HeadTaken(l.accepts) {
      var head := [0, 0, 0, 8] + [0] + BE(4, |cmd|);
      SendBytesExactly(Took(l, 3, head), cmd);
      assert Whole(Took(l, 3, head).accepts, 0, |cmd|) <==> Whole(l.accepts, 3, |cmd|);
      if Whole(l.accepts, 3, |cmd|) {
        TookMore(l, 3, head, cmd);
      }
    }
  }

  /** The frame of a request in numbers. */
  lemma FrameInNumbers(cmd: seq<byte>)
    ensures RequestFrame(cmd) == [0, 0, 0, 8] + [0] + BE(4, |cmd|) + cmd
  {
    SmallWords();
  }

  /** Whether the bytes pending are a reply that can be read: a positive length within the capacity, that
      many bytes and a zero word, each complete in time. */
  predicate ReplyArrives(inbox: Inbox, capacity: uint32) {
    var p := inbox.Pending();
    && LengthInTime(inbox) && |p| >= 4
    && var n := FromBE(p[..4]);
    && 0 < n <= capacity && PayloadInTime(inbox, n) && AckInTime(inbox, n)
    && |p| >= 8 + n && p[4 + n..8 + n] == [0, 0, 0, 0]
  }

  /** A submission succeeds exactly if the peer takes the request and the reply arrives, and it then returns
      the bytes behind the length. */
  lemma SubmitSucceedsIff(l: Link, cmd: Message, capacity: uint32)
    ensures var s, p := Submit(l, cmd, capacity), l.inbox.Pending();
            && (s.Done? <==> RequestTaken(l.accepts, |cmd|) && ReplyArrives(l.inbox, capacity))
            && (s.Done? ==> |p| >= 4 && |p| >= 8 + FromBE(p[..4]) && s.value == p[4..4 + FromBE(p[..4])]
                            && s.link.inbox.Pending() == p[8 + FromBE(p[..4])..])
  {
    RequestExactly(l, cmd);
    if RequestTaken(l.accepts, |cmd|) {
      ReplyByStages(SendRequest(l, cmd).link, capacity);
      SmallWords();
    }
  }

  /** Exactly which inbox a reply leaves, whether or not the call succeeds. */
  lemma ReplyExactly(l: Link, capacity: uint32)
    ensures var x, p := l.inbox, l.inbox.Pending();
            ReadReply(l, capacity).link
            == l.(inbox := if !LengthInTime(x) || |p| < 4 then Missed(x)
                           else
                             var n := FromBE(p[..4]);
                             if !(0 < n <= capacity) then Stage(x, AfterLength(x), 4)
                             else if !PayloadInTime(x, n) then Missed(Stage(x, AfterLength(x), 4))
                             else if !AckInTime(x, n) then Missed(Stage(x, AfterPayload(x, n), 4 + n))
                             else Stage(x, AfterAck(x, n), 8 + n))
  {
    LengthStage(l);
    ReadExactly(l.inbox, 4);
    if LengthInTime(l.inbox) {
      Widths();
      var n := FromBE(l.inbox.Pending()[..4]);
      if 0 < n <= capacity {
        PayloadStage(l, n);
        ReadExactly(Stage(l.inbox, AfterLength(l.inbox), 4), n);
        if PayloadInTime(l.inbox, n) {
          AckLeaves(l, n);
        }
      }
    }
  }

  lemma AckLeaves(l: Link, n: uint32)
    requires PayloadInTime(l.inbox, n)
    ensures var x := Stage(l.inbox, AfterPayload(l.inbox, n), 4 + n);
            Require(l.(inbox := x), 0).link
            == l.(inbox := if AckInTime(l.inbox, n) then Stage(l.inbox, AfterAck(l.inbox, n), 8 + n) else Missed(x))
  {
    var x := Stage(l.inbox, AfterPayload(l.inbox, n), 4 + n);
    StageRead(l.inbox, AfterPayload(l.inbox, n), 4 + n, 4);
    ReadExactly(x, 4);
  }

  /** What the caller's length becomes: the length of the reply, as soon as it is read and within the
      capacity. */
  function SeenLength(inbox: Inbox, capacity: uint32): (n: uint32)
    ensures n <= capacity
  {
    var p := inbox.Pending();
    if LengthInTime(inbox) && |p| >= 4 && FromBE(p[..4]) <= capacity then FromBE(p[..4]) else capacity
  }

  /** What the caller's buffer becomes: the payload is in it as soon as it is read, whatever comes after. */
  function Filled(inbox: Inbox, capacity: uint32, before: seq<byte>): (after: seq<byte>)
    requires capacity <= |before|
    ensures |after| == |before|
  {
    var p := inbox.Pending();
    if !LengthInTime(inbox) || |p| < 4 then before
    else
      var n := FromBE(p[..4]);
      if 0 < n <= capacity && PayloadInTime(inbox, n) && |p| >= 4 + n then p[4..4 + n] + before[n..] else before
  }

  // ----- When setting up succeeds

  /** How many arrivals are taken by the time `j` words have been read. */
  function TakenWords(inbox: Inbox, j: nat): nat {
    if j == 0 then 0 else Taken(inbox, TakenWords(inbox, j - 1), 4 * j)
  }

  /** Each of the first `j` words is complete in time. */
  predicate WordsInTime(inbox: Inbox, j: nat) {
    j == 0 || (WordsInTime(inbox, j - 1) && Enough(inbox, TakenWords(inbox, j), 4 * j))
  }

  lemma WordsAreEnough(inbox: Inbox, j: nat)
    requires WordsInTime(inbox, j)
    ensures Enough(inbox, TakenWords(inbox, j), 4 * j) && |inbox.Pending()| >= 4 * j
  {
    assert Gathered(inbox, 0) == inbox.buffered;
    GatheredIsPrefix(inbox, TakenWords(inbox, j));
  }

  /** The inbox after `j` words. */
  function AfterWords(inbox: Inbox, j: nat): Inbox
    requires WordsInTime(inbox, j)
  {
    WordsAreEnough(inbox, j);
    Stage(inbox, TakenWords(inbox, j), 4 * j)
  }

  lemma NextWord(l: Link, inbox: Inbox, j: nat)
    requires WordsInTime(inbox, j) && l.inbox == AfterWords(inbox, j)
    ensures var s, p := ReadWord(l), inbox.Pending();
            && (s.Done? <==> WordsInTime(inbox, j + 1))
            && (s.Done? ==> |p| >= 4 * j + 4 && s.value == FromBE(p[4 * j..4 * j + 4]))
            && s.link == l.(inbox := if WordsInTime(inbox, j + 1) then AfterWords(inbox, j + 1) else Missed(l.inbox))
  {
    WordsAreEnough(inbox, j);
    StageRead(inbox, TakenWords(inbox, j), 4 * j, 4);
    ReadExactly(l.inbox, 4);
  }

  /** A word of the stream, if it is there. */
  predicate WordIs(p: seq<byte>, j: nat, x: uint32) {
    |p| >= 4 * j + 4 && FromBE(p[4 * j..4 * j + 4]) == x
  }

  lemma RequireRead(l: Link, x: uint32)
    ensures var s, r := ReadWord(l), Require(l, x);
            r.link == s.link && (r.Done? <==> s.Done? && s.value == x)
  {
  }

  lemma RequireWord(l: Link, inbox: Inbox, j: nat, x: uint32)
    requires WordsInTime(inbox, j) && l.inbox == AfterWords(inbox, j)
    ensures var s := Require(l, x);
            && (s.Done? <==> WordsInTime(inbox, j + 1) && WordIs(inbox.Pending(), j, x))
            && s.link == l.(inbox := if WordsInTime(inbox, j + 1) then AfterWords(inbox, j + 1) else Missed(l.inbox))
  {
    RequireRead(l, x);
    NextWord(l, inbox, j);
  }

  /** The peer takes the words 15 and 1 and answers 1, anything and 0, each in time. */
  predicate Greets(l: Link) {
    && Whole(l.accepts, 0, 4) && Whole(l.accepts, 1, 4) && WordsInTime(l.inbox, 3)
    && WordIs(l.inbox.Pending(), 0, 1) && WordIs(l.inbox.Pending(), 2, 0)
  }

  lemma BytesSent(l: Link, at: Link, n: nat, before: seq<byte>, f: seq<byte>)
    requires n <= |l.accepts| && at.accepts == l.accepts[n..] && at.sent == l.sent + before && 0 < |f| < 0x8000_0000
    ensures var s := SendBytes(at, f);
            && (s.Done? <==> Whole(l.accepts, n, |f|))
            && (s.Done? ==> s.link == Link(at.inbox, l.accepts[n + 1..], l.sent + (before + f)))
            && (s.Stop? ==> Cut(at, f, s.link))
  {
    if n < |l.accepts| {
      assert at.accepts[0] == l.accepts[n] && at.accepts[1..] == l.accepts[n + 1..];
    }
    Associate(l.sent, before, f);
    SendBytesExactly(at, f);
  }

  lemma WordSent(l: Link, n: nat, before: seq<byte>, x: uint32, inbox: Inbox)
    requires n <= |l.accepts|
    ensures var s := SendWord(Took(l, n, before).(inbox := inbox), x);
            && (s.Done? <==> Whole(l.accepts, n, 4))
            && (s.Done? ==> s.link == Took(l, n + 1, before + BE(4, x)).(inbox := inbox))
            && (s.Stop? ==> Cut(Took(l, n, before).(inbox := inbox), BE(4, x), s.link))
  {
    BytesSent(l, Took(l, n, before).(inbox := inbox), n, before, BE(4, x));
  }

  lemma NothingTaken(l: Link)
    ensures Took(l, 0, []) == l && AfterWords(l.inbox, 0) == l.inbox
  {
    assert l.accepts[0..] == l.accepts && l.sent + [] == l.sent && l.inbox.arrivals[0..] == l.inbox.arrivals;
    assert Gathered(l.inbox, 0) == l.inbox.buffered;
  }

  lemma WelcomeReads(l: Link, a: Step<uint32>, b: Step<uint32>, c: Step<uint32>)
    requires a == ReadWord(l) && (a.Done? ==> b == ReadWord(a.link)) && (a.Done? && b.Done? ==> c == ReadWord(b.link))
    ensures ReadWelcome(l)
            == if a.Stop? || a.value != CLIENT_VERSION then Stop(a.link)
               else if b.Stop? then Stop(b.link)
               else if c.Stop? || c.value != 0 then Stop(c.link)
               else Done(b.value, c.link)
  {
    RequireRead(l, CLIENT_VERSION);
    if a.Done? && b.Done? {
      RequireRead(b.link, 0);
    }
  }

  /** The three words of the answer as they are read. */
  lemma WelcomeSteps(l: Link) returns (a: Step<uint32>, b: Step<uint32>, c: Step<uint32>)
    ensures var x, p := l.inbox, l.inbox.Pending();
            && (a.Done? <==> WordsInTime(x, 1))
            && a.link == l.(inbox := if WordsInTime(x, 1) then AfterWords(x, 1) else Missed(x))
            && (a.Done? ==>
                  && |p| >= 4 && a.value == FromBE(p[0..4]) && (b.Done? <==> WordsInTime(x, 2))
                  && b.link == l.(inbox := if WordsInTime(x, 2) then AfterWords(x, 2) else Missed(AfterWords(x, 1))))
            && (a.Done? && b.Done? ==>
                  && |p| >= 8 && b.value == FromBE(p[4..8]) && (c.Done? <==> WordsInTime(x, 3))
                  && c.link == l.(inbox := if WordsInTime(x, 3) then AfterWords(x, 3) else Missed(AfterWords(x, 2)))
                  && (c.Done? ==> |p| >= 12 && c.value == FromBE(p[8..12])))
    ensures ReadWelcome(l)
            == if a.Stop? || a.value != CLIENT_VERSION then Stop(a.link)
               else if b.Stop? then Stop(b.link)
               else if c.Stop? || c.value != 0 then Stop(c.link)
               else Done(b.value, c.link)
  {
    NothingTaken(l);
    NextWord(l, l.inbox, 0);
    a := ReadWord(l);
    b, c := a, a;
    if a.Done? {
      NextWord(a.link, l.inbox, 1);
      b := ReadWord(a.link);
      if b.Done? {
        NextWord(b.link, l.inbox, 2);
        c := ReadWord(b.link);
      }
    }
    WelcomeReads(l, a, b, c);
  }

  /** Exactly which answer is accepted, and what it leaves in any case. */
  lemma WelcomeExactly(l: Link)
    ensures var s, x := ReadWelcome(l), l.inbox;
            && (s.Done? <==> WordsInTime(x, 3) && WordIs(x.Pending(), 0, 1) && WordIs(x.Pending(), 2, 0))
            && (s.Done? ==> |x.Pending()| >= 12 && s.value == FromBE(x.Pending()[4..8]))
            && s.link == l.(inbox := if !WordsInTime(x, 1) then Missed(x)
                                     else if !WordIs(x.Pending(), 0, 1) then AfterWords(x, 1)
                                     else if !WordsInTime(x, 2) then Missed(AfterWords(x, 1))
                                     else if !WordsInTime(x, 3) then Missed(AfterWords(x, 2))
                                     else AfterWords(x, 3))
  {
    var a, b, c := WelcomeSteps(l);
  }

  /** The handshake succeeds exactly if the peer greets. */
  lemma HandshakeSucceedsIff(l: Link)
    ensures Handshake(l).Done? <==> Greets(l)
    ensures Greets(l) ==> |l.inbox.Pending()| >= 12 && Handshake(l).value == FromBE(l.inbox.Pending()[4..8])
  {
    HelloExactly(l);
    if Whole(l.accepts, 0, 4) && Whole(l.accepts, 1, 4) {
      WelcomeExactly(Took(l, 2, [0, 0, 0, 15] + [0, 0, 0, 1]));
    }
  }

  /** What becomes of the two words of the handshake. */
  lemma HelloExactly(l: Link)
    ensures var s := Handshake(l);
            if !Whole(l.accepts, 0, 4) then s.Stop? && Cut(l, [0, 0, 0, 15], s.link)
            else if !Whole(l.accepts, 1, 4) then s.Stop? && Cut(Took(l, 1, [0, 0, 0, 15]), [0, 0, 0, 1], s.link)
            else s == ReadWelcome(Took(l, 2, [0, 0, 0, 15] + [0, 0, 0, 1]))
  {
    SmallWords();
    NothingTaken(l);
    WordSent(l, 0, [], 15, l.inbox);
    assert [] + [0, 0, 0, 15] == [0, 0, 0, 15];
    if Whole(l.accepts, 0, 4) {
      WordSent(l, 1, [0, 0, 0, 15], 1, l.inbox);
    }
  }

  /** Exactly what a handshake leaves, by the step at which it ends. */
  lemma HandshakeExactly(l: Link)
    ensures var s, x := Handshake(l).link, l.inbox;
            if !Whole(l.accepts, 0, 4) then Cut(l, [0, 0, 0, 15], s)
            else if !Whole(l.accepts, 1, 4) then Cut(Took(l, 1, [0, 0, 0, 15]), [0, 0, 0, 1], s)
            else
              s == Took(l, 2, [0, 0, 0, 15] + [0, 0, 0, 1])
                   .(inbox := if !WordsInTime(x, 1) then Missed(x)
                              else if !WordIs(x.Pending(), 0, 1) then AfterWords(x, 1)
                              else if !WordsInTime(x, 2) then Missed(AfterWords(x, 1))
                              else if !WordsInTime(x, 3) then Missed(AfterWords(x, 2))
                              else AfterWords(x, 3))
  {
    HelloExactly(l);
    if Whole(l.accepts, 0, 4) && Whole(l.accepts, 1, 4) {
      WelcomeExactly(Took(l, 2, [0, 0, 0, 15] + [0, 0, 0, 1]));
    }
  }

  /** The platform takes the word 1, answers 0, takes the word 11 and answers 0, each in time. */
  predicate PowersOn(l: Link) {
    && Whole(l.accepts, 0, 4) && Whole(l.accepts, 1, 4) && WordsInTime(l.inbox, 2)
    && WordIs(l.inbox.Pending(), 0, 0) && WordIs(l.inbox.Pending(), 1, 0)
  }

  /** Power-on succeeds exactly then. */
  lemma PowerOnSucceedsIff(l: Link)
    ensures PowerOn(l).Done? <==> PowersOn(l)
  {
    NothingTaken(l);
    WordSent(l, 0, [], 1, l.inbox);
    if Whole(l.accepts, 0, 4) {
      RequireWord(Took(l, 1, [] + BE(4, 1)), l.inbox, 0, 0);
      if WordsInTime(l.inbox, 1) {
        var x := AfterWords(l.inbox, 1);
        WordSent(l, 1, [] + BE(4, 1), 11, x);
        if Whole(l.accepts, 1, 4) {
          RequireWord(Took(l, 2, [] + BE(4, 1) + BE(4, 11)).(inbox := x), l.inbox, 1, 0);
        }
      }
    }
  }

  /** Exactly what a power-on leaves, by the step at which it ends. */
  lemma PowerOnExactly(l: Link)
    ensures var s, x := PowerOn(l).link, l.inbox;
            if !Whole(l.accepts, 0, 4) then Cut(l, [0, 0, 0, 1], s)
            else if !WordsInTime(x, 1) then s == Took(l, 1, [0, 0, 0, 1]).(inbox := Missed(x))
            else if !WordIs(x.Pending(), 0, 0) then s == Took(l, 1, [0, 0, 0, 1]).(inbox := AfterWords(x, 1))
            else if !Whole(l.accepts, 1, 4) then
              Cut(Took(l, 1, [0, 0, 0, 1]).(inbox := AfterWords(x, 1)), [0, 0, 0, 11], s)
            else
              s == Took(l, 2, [0, 0, 0, 1] + [0, 0, 0, 11])
                   .(inbox := if WordsInTime(x, 2) then AfterWords(x, 2) else Missed(AfterWords(x, 1)))
  {
    SmallWords();
    NothingTaken(l);
    WordSent(l, 0, [], 1, l.inbox);
    assert [] + BE(4, 1) == [0, 0, 0, 1];
    if Whole(l.accepts, 0, 4) {
      RequireWord(Took(l, 1, [0, 0, 0, 1]), l.inbox, 0, 0);
      if WordsInTime(l.inbox, 1) {
        var x := AfterWords(l.inbox, 1);
        WordSent(l, 1, [0, 0, 0, 1], 11, x);
        if Whole(l.accepts, 1, 4) {
          RequireWord(Took(l, 2, [0, 0, 0, 1] + [0, 0, 0, 11]).(inbox := x), l.inbox, 1, 0);
        }
      }
    }
  }

  // ----- The methods

  ghost function LinkOf(s: Socket): Link
    reads s, s.net, s.recvBytes
  {
    Link(s.In(), s.net.accepts, s.net.sent)
  }

  /** A connection that nothing has been read from. */
  ghost function Connected(net: Network): Link
    reads net
  {
    Link(Inbox([], net.arrivals), net.accepts, net.sent)
  }

  /** Whether a step on a socket went as `step` says. */
  twostate predicate Follows<T>(s: Socket, result: int, step: Step<T>)
    reads s, s.net, s.recvBytes
  {
    && s.Valid() && (result == 0 <==> step.Done?) && LinkOf(s) == step.link
    && (s.recvBytes == null || s.recvBytes == old(s.recvBytes) || fresh(s.recvBytes))
  }

  /** send_sync_bytes. */
  method SendSyncBytes(s: Socket, bytes: array?<byte>, byteLen: uint32) returns (result: int)
    requires s.Valid() && (bytes != null ==> byteLen <= bytes.Length)
    modifies s.net
    ensures bytes != null ==> Follows(s, result, SendBytes(old(LinkOf(s)), bytes[..byteLen]))
    ensures bytes == null ==> s.Valid() && result != 0 && LinkOf(s) == old(LinkOf(s))
  {
    result := s.Send(bytes, byteLen);
    if bytes != null && byteLen > 0 {
      var taken := SendAll(byteLen, old(s.net.accepts)).taken;
      assert bytes[..taken] == bytes[..byteLen][..taken];
    }
  }

  /** send_sync_cmd. */
  method SendSyncCmd(s: Socket, x: uint32) returns (result: int)
    requires s.Valid()
    modifies s.net
    ensures Follows(s, result, SendWord(old(LinkOf(s)), x))
  {
    var netBytes := new byte[4];
    Uint32ToByteArray(x, netBytes, 0);
    assert netBytes[..4] == BE(4, x);
    result := SendSyncBytes(s, netBytes, 4);
  }

  /** read_sync_bytes. */
  method ReadSyncBytes(s: Socket, target: array<byte>, n: uint32) returns (result: int)
    requires s.Valid() && n <= target.Length && target != s.recvBytes
    modifies s, s.net, target
    ensures Follows(s, result, ReadBytes(old(LinkOf(s)), n))
    ensures target[..] == (if result == 0 then ReadBytes(old(LinkOf(s)), n).value + old(target[n..])
                           else old(target[..]))
    ensures result == 0 ==> |ReadBytes(old(LinkOf(s)), n).value| == n
  {
    ReadConserves(LinkOf(s).inbox, n);
    result := s.Read(target, n);
  }

  /** read_sync_cmd. */
  method ReadSyncCmd(s: Socket) returns (result: int, x: uint32)
    requires s.Valid()
    modifies s, s.net
    ensures Follows(s, result, ReadWord(old(LinkOf(s))))
    ensures result == 0 ==> x == ReadWord(old(LinkOf(s))).value
  {
    x := 0;
    var word := new byte[4];
    result := ReadSyncBytes(s, word, 4);
    if result == 0 {
      x := ByteArrayToUint32(word, 0);
      assert word[0..4] == ReadBytes(old(LinkOf(s)), 4).value;
    }
  }

  /** is_ack_ok, for any expected word. */
  method ReadExpected(s: Socket, expected: uint32) returns (result: int)
    requires s.Valid()
    modifies s, s.net
    ensures Follows(s, result, Require(old(LinkOf(s)), expected))
  {
    var x;
    result, x := ReadSyncCmd(s);
    if result == 0 && x != expected {
      result := MU_FAILURE;
    }
  }

  /** power_on_simulator, on the connection to the platform port if there is one. */
  method PowerOnSimulator(platform: Network?) returns (result: int)
    requires platform != null ==> platform.Valid()
    modifies if platform == null then {} else {platform}
    ensures platform == null ==> result != 0
    ensures platform != null ==>
              var s := PowerOn(old(Connected(platform)));
              (result == 0 <==> s.Done?) && platform.sent == s.link.sent && platform.arrivals == s.link.inbox.arrivals
  {
    if platform == null { return MU_FAILURE; }
    var s := new Socket(platform);
    result := SendSyncCmd(s, REMOTE_SIGNAL_POWER_ON_CMD);
    if result != 0 { return; }
    result := ReadExpected(s, 0);
    if result != 0 { return; }
    result := SendSyncCmd(s, REMOTE_SIGNAL_NV_ON_CMD);
    if result != 0 { return; }
    result := ReadExpected(s, 0);
  }

  /** The part of execute_simulator_setup that uses the command port. */
  method ExchangeHandshake(s: Socket) returns (result: int, info: uint32)
    requires s.Valid()
    modifies s, s.net
    ensures Follows(s, result, Handshake(old(LinkOf(s))))
    ensures result == 0 ==> info == Handshake(old(LinkOf(s))).value
  {
    info := 0;
    result := SendSyncCmd(s, REMOTE_HANDSHAKE_CMD);
    if result != 0 { return; }
    result := SendSyncCmd(s, CLIENT_VERSION);
    if result != 0 { return; }
    result := ReadExpected(s, CLIENT_VERSION);
    if result != 0 { return; }
    result, info := ReadSyncCmd(s);
    if result != 0 { return; }
    result := ReadExpected(s, 0);
  }

  /** What a caller sees of one submission: the status, the new length and the response buffer. */
  ghost predicate Exchanged(result: int, newLen: uint32, s: Step<seq<byte>>, link: Link, respLen: uint32,
                            before: seq<byte>, after: seq<byte>)
  {
    && (result == 0 <==> s.Done?) && link == s.link
    && newLen <= respLen && |after| == |before| >= respLen && after[newLen..] == before[newLen..]
    && (s.Done? ==> |s.value| == newLen && after[..newLen] == s.value)
  }

  function Hello(): seq<byte> {
    BE(4, REMOTE_HANDSHAKE_CMD) + BE(4, CLIENT_VERSION)
  }

  function Welcome(info: uint32): seq<byte> {
    BE(4, CLIENT_VERSION) + BE(4, info) + BE(4, 0)
  }

  /** Everything exchanged since connecting: the handshake, then as many reply frames as request
      frames, each in order. */
  predicate InLockstep(start: Link, link: Link, info: uint32, requests: seq<seq<byte>>, replies: seq<seq<byte>>) {
    && |requests| == |replies|
    && Moved(start, link, Hello() + Requests(requests), Welcome(info) + Replies(replies))
  }

  /** TPM_COMM_INFO, with the history of its successful calls. `inStep` is lost by the first call
      that fails, and is never regained. */
  class Comm {
    const socket: Socket
    ghost const start: Link
    ghost var info: uint32
    ghost var requests: seq<seq<byte>>
    ghost var replies: seq<seq<byte>>
    ghost var inStep: bool

    ghost predicate Valid()
      reads this, socket, socket.net, socket.recvBytes
    {
      && socket.Valid() && |requests| == |replies|
      && (inStep ==> InLockstep(start, LinkOf(socket), info, requests, replies))
    }

    constructor (net: Network)
      requires net.Valid()
      ensures socket.Valid() && fresh(socket) && socket.net == net && socket.recvBytes == null
      ensures LinkOf(socket) == start == Connected(net)
      ensures requests == [] && replies == [] && !inStep && Valid()
    {
      socket := new Socket(net);
      start := Connected(net);
      info, requests, replies, inStep := 0, [], [], false;
    }

    /** execute_simulator_setup. */
    method ExecuteSetup(platform: Network?) returns (result: int)
      requires Valid() && LinkOf(socket) == start && requests == [] && replies == [] && !inStep
      requires platform != null ==> platform.Valid() && platform != socket.net
      modifies this, socket, socket.net, if platform == null then {} else {platform}
      ensures Valid() && requests == [] && (result == 0 <==> inStep)
      ensures socket.recvBytes == null || socket.recvBytes == old(socket.recvBytes) || fresh(socket.recvBytes)
      ensures result == 0 <==>
                && platform != null && Handshake(start).Done?
                && PowerOn(old(Connected(platform))).Done?
    {
      var platformInfo;
      result, platformInfo := ExchangeHandshake(socket);
      if result == 0 {
        RecordHandshake(start);
        ghost var after := LinkOf(socket);
        assert InLockstep(start, after, platformInfo, [], []);
        result := PowerOnSimulator(platform);
        assert LinkOf(socket) == after;
        if result == 0 {
          Begin(platformInfo);
        }
      }
    }

    ghost method Begin(answer: uint32)
      requires socket.Valid() && InLockstep(start, LinkOf(socket), answer, requests, replies)
      modifies this
      ensures Valid() && inStep && requests == old(requests)
    {
      ghost var after := LinkOf(socket);
      info, inStep := answer, true;
      assert LinkOf(socket) == after;
    }

    /** tpm_comm_submit_command. */
    method SubmitCommand(cmd: array?<byte>, bytesLen: uint32, response: array?<byte>, respLen: uint32)
      returns (result: int, newLen: uint32)
      requires Valid() && (cmd != null ==> bytesLen <= cmd.Length)
      requires response != null ==> respLen <= response.Length && response != socket.recvBytes && response != cmd
      modifies this, socket, socket.net, if response == null then {} else {response}
      ensures Valid()
      ensures cmd == null || response == null ==>
                result != 0 && newLen == respLen && LinkOf(socket) == old(LinkOf(socket))
      ensures socket.recvBytes == null || socket.recvBytes == old(socket.recvBytes) || fresh(socket.recvBytes)
      ensures cmd != null && response != null ==>
                Exchanged(result, newLen, Submit(old(LinkOf(socket)), cmd[..bytesLen], respLen), LinkOf(socket),
                          respLen, old(response[..]), response[..])
      ensures cmd != null && response != null ==>
                (result == 0 <==> RequestTaken(old(socket.net.accepts), bytesLen)
                                  && ReplyArrives(old(LinkOf(socket)).inbox, respLen))
      ensures cmd != null && response != null ==>
                var taken, x := RequestTaken(old(socket.net.accepts), bytesLen), old(LinkOf(socket)).inbox;
                && newLen == (if taken then SeenLength(x, respLen) else respLen)
                && response[..] == (if taken then Filled(x, respLen, old(response[..])) else old(response[..]))
      ensures inStep <==> old(inStep) && result == 0 && bytesLen < INT32_LIMIT
      ensures requests == old(requests) + (if result == 0 then [cmd[..bytesLen]] else [])
      ensures replies == old(replies) + (if result == 0 then [response[..newLen]] else [])
    {
      newLen := respLen;
      if cmd == null || response == null {
        result := MU_FAILURE;
        inStep := false;
      } else {
        ghost var before := LinkOf(socket);
        SubmitSucceedsIff(before, cmd[..bytesLen], respLen);
        result, newLen := Exchange(cmd, bytesLen, response, respLen);
        Record(before, cmd[..bytesLen], respLen, result, response[..newLen]);
      }
    }

    ghost method Record(before: Link, cmd: Message, capacity: uint32, result: int, reply: seq<byte>)
      requires socket.Valid() && |requests| == |replies|
      requires inStep ==> InLockstep(start, before, info, requests, replies)
      requires var s := Submit(before, cmd, capacity);
               if result == 0 then s == Done(reply, LinkOf(socket)) else s == Stop(LinkOf(socket))
      modifies this
      ensures Valid()
      ensures inStep <==> old(inStep) && result == 0 && |cmd| < INT32_LIMIT
      ensures requests == old(requests) + (if result == 0 then [cmd] else [])
      ensures replies == old(replies) + (if result == 0 then [reply] else [])
    {
      ghost var after, keeps := LinkOf(socket), inStep && result == 0 && |cmd| < INT32_LIMIT;
      if keeps {
        RecordExchange(start, before, after, info, requests, replies, cmd, capacity, reply);
      }
      ghost var asked, answered := requests + [cmd], replies + [reply];
      if result == 0 {
        requests, replies := asked, answered;
      }
      inStep := keeps;
      assert LinkOf(socket) == after;
    }

    method Exchange(cmd: array<byte>, bytesLen: uint32, response: array<byte>, respLen: uint32)
      returns (result: int, newLen: uint32)
      requires socket.Valid() && bytesLen <= cmd.Length
      requires respLen <= response.Length && response != socket.recvBytes && response != cmd
      modifies socket, socket.net, response
      ensures Follows(socket, result, Submit(old(LinkOf(socket)), cmd[..bytesLen], respLen))
      ensures Exchanged(result, newLen, Submit(old(LinkOf(socket)), cmd[..bytesLen], respLen), LinkOf(socket), respLen,
                        old(response[..]), response[..])
      ensures var taken, x := RequestTaken(old(socket.net.accepts), bytesLen), old(LinkOf(socket)).inbox;
              && newLen == (if taken then SeenLength(x, respLen) else respLen)
              && response[..] == (if taken then Filled(x, respLen, old(response[..])) else old(response[..]))
    {
      newLen := respLen;
      RequestExactly(LinkOf(socket), cmd[..bytesLen]);
      result := SendCommandFrame(cmd, bytesLen);
      if result != 0 { return; }
      result, newLen := ReceiveReply(response, respLen);
    }

    method SendCommandFrame(cmd: array<byte>, bytesLen: uint32) returns (result: int)
      requires socket.Valid() && bytesLen <= cmd.Length
      modifies socket.net
      ensures Follows(socket, result, SendRequest(old(LinkOf(socket)), cmd[..bytesLen]))
    {
      result := SendFrameHead(bytesLen, cmd[..bytesLen]);
      if result != 0 { return; }
      result := SendSyncBytes(socket, cmd, bytesLen);
    }

    method SendFrameHead(bytesLen: uint32, ghost cmd: Message) returns (result: int)
      requires socket.Valid() && bytesLen == |cmd|
      modifies socket.net
      ensures Follows(socket, result, SendHead(old(LinkOf(socket)), cmd))
    {
      var locality := new byte[1](_ => LOCALITY);
      result := SendSyncCmd(socket, REMOTE_SEND_COMMAND);
      if result != 0 { return; }
      assert locality[..1] == [LOCALITY];
      result := SendSyncBytes(socket, locality, 1);
      if result != 0 { return; }
      result := SendSyncCmd(socket, bytesLen);
    }

    method ReceiveReply(response: array<byte>, respLen: uint32) returns (result: int, newLen: uint32)
      requires socket.Valid() && respLen <= response.Length && response != socket.recvBytes
      modifies socket, socket.net, response
      ensures Follows(socket, result, ReadReply(old(LinkOf(socket)), respLen))
      ensures newLen <= respLen && response[newLen..] == old(response[..])[newLen..]
      ensures result == 0 ==> var s := ReadReply(old(LinkOf(socket)), respLen);
                              |s.value| == newLen && response[..newLen] == s.value
      ensures newLen == SeenLength(old(LinkOf(socket)).inbox, respLen)
      ensures response[..] == Filled(old(LinkOf(socket)).inbox, respLen, old(response[..]))
    {
      newLen := respLen;
      ghost var l := LinkOf(socket);
      LengthStage(l);
      var lengthByte;
      result, lengthByte := ReadSyncCmd(socket);
      if result != 0 { return; }
      if lengthByte > respLen { return MU_FAILURE, newLen; }
      newLen := lengthByte;
      if lengthByte > 0 { PayloadStage(l, lengthByte); }
      result := ReadSyncBytes(socket, response, lengthByte);
      if result != 0 { return; }
      result := ReadExpected(socket, 0);
    }

    /** close_simulator, from tpm_comm_destroy. */
    method CloseSimulator()
      requires Valid()
      modifies this, socket.net
      ensures socket.Valid() && !inStep
      ensures LinkOf(socket) == SendWord(old(LinkOf(socket)), REMOTE_SESSION_END_CMD).link
      ensures Whole(old(socket.net.accepts), 0, 4) ==> socket.net.sent == old(socket.net.sent) + [0, 0, 0, 20]
    {
      SmallWords();
      SendBytesExactly(LinkOf(socket), BE(4, 20));
      inStep := false;
      var _ := SendSyncCmd(socket, REMOTE_SESSION_END_CMD);
    }
  }

  lemma RecordHandshake(start: Link)
    requires Handshake(start).Done?
    ensures InLockstep(start, Handshake(start).link, Handshake(start).value, [], [])
  {
    SetupExchanges(start);
    assert Hello() + Requests([]) == Hello();
    assert Welcome(Handshake(start).value) + Replies([]) == Welcome(Handshake(start).value);
  }

  lemma RecordExchange(start: Link, b: Link, a: Link, info: uint32, requests: seq<seq<byte>>, replies: seq<seq<byte>>,
                       cmd: Message, capacity: uint32, reply: seq<byte>)
    requires InLockstep(start, b, info, requests, replies)
    requires Submit(b, cmd, capacity) == Done(reply, a) && |cmd| < INT32_LIMIT
    ensures InLockstep(start, a, info, requests + [cmd], replies + [reply])
  {
    SubmitInStep(b, cmd, capacity);
    Then(start, b, a, Hello() + Requests(requests), Welcome(info) + Replies(replies),
         RequestFrame(cmd), ReplyFrame(reply));
    assert (requests + [cmd])[..|requests|] == requests;
    OneMoreExchange(replies, reply);
    Associate(Hello(), Requests(requests), RequestFrame(cmd));
    Associate(Welcome(info), Replies(replies), ReplyFrame(reply));
  }

  lemma Associate(a: seq<byte>, b: seq<byte>, c: seq<byte>)
    ensures a + b + c == a + (b + c)
  {
  }

  /** tpm_comm_create, given what connecting to the two ports led to. */
  method CreateComm(conn: Network?, platform: Network?) returns (comm: Comm?)
    requires conn != null ==> conn.Valid() && conn != platform
    requires platform != null ==> platform.Valid()
    modifies if conn == null then {} else {conn}, if platform == null then {} else {platform}
    ensures comm != null ==>
              && conn != null && fresh(comm) && fresh(comm.socket) && comm.Valid() && comm.inStep && comm.requests == []
              && comm.socket.net == conn && (comm.socket.recvBytes == null || fresh(comm.socket.recvBytes))
              && comm.start == old(Connected(conn))
    ensures comm != null <==>
              && conn != null && platform != null
              && Greets(old(Connected(conn))) && PowersOn(old(Connected(platform)))
  {
    comm := null;
    if conn != null { HandshakeSucceedsIff(Connected(conn)); }
    if platform != null { PowerOnSucceedsIff(Connected(platform)); }
    if conn != null {
      var c := new Comm(conn);
      var result := c.ExecuteSetup(platform);
      if result == 0 { comm := c; }
    }
  }
}
