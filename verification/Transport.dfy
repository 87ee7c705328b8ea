/** The socket: sends that the peer may take piecemeal, and a receive buffer over arbitrarily
    fragmented input. */
module Transport {
  import opened Bytes

  const MAX_DATA_RECV := 1024
  const MU_FAILURE := 1
  const INT32_LIMIT := 0x8000_0000

  // ----- The environment

  /** The outcome of one `recv`: some bytes, or -1. */
  datatype Arrival = Data(bytes: seq<byte>) | Failed

  /** A connection: everything `recv` will report, everything `send` will accept, and what has been
      put on the wire so far. */
  class Network {
    var arrivals: seq<Arrival>
    var accepts: seq<int>
    var sent: seq<byte>

    predicate Valid()
      reads this
    {
      Bounded(arrivals)
    }

    method Recv() returns (length: int, bytes: seq<byte>)
      requires Valid()
      modifies this
      ensures Valid() && accepts == old(accepts) && sent == old(sent)
      ensures arrivals == if old(arrivals) == [] then [] else old(arrivals[1..])
      ensures if old(arrivals) == [] || old(arrivals[0]).Failed? then length == -1 && bytes == []
              else length == |bytes| <= MAX_DATA_RECV && bytes == old(arrivals[0].bytes)
    {
      length, bytes := -1, [];
      if arrivals != [] {
        if arrivals[0].Data? {
          bytes := arrivals[0].bytes;
          length := |bytes|;
        }
        arrivals := arrivals[1..];
      }
    }

    method Send(data: seq<byte>) returns (count: int)
      requires Valid() && data != []
      modifies this
      ensures Valid() && arrivals == old(arrivals)
      ensures count == Accepted(old(accepts), |data|)
      ensures accepts == Later(old(accepts))
      ensures sent == old(sent) + if count > 0 then data[..count] else []
    {
      count := Accepted(accepts, |data|);
      accepts := Later(accepts);
      if count > 0 {
        sent := sent + data[..count];
      }
    }
  }

  function Later(accepts: seq<int>): seq<int> {
    if accepts == [] then [] else accepts[1..]
  }

  predicate Bounded(arrivals: seq<Arrival>) {
    forall i :: 0 <= i < |arrivals| && arrivals[i].Data? ==> |arrivals[i].bytes| <= MAX_DATA_RECV
  }

  /** What `send` returns for `length` bytes: an error, or a count of at most `length`. */
  function Accepted(accepts: seq<int>, length: nat): (count: int)
    ensures count <= length
  {
    if accepts == [] then -1 else if accepts[0] > length then length else accepts[0]
  }

  /** All bytes that will arrive, whatever their fragmentation. */
  function Incoming(arrivals: seq<Arrival>): seq<byte> {
    if arrivals == [] then []
    else (if arrivals[0].Data? then arrivals[0].bytes else []) + Incoming(arrivals[1..])
  }

  // ----- Receiving, as a function of the buffer and the arrivals

  datatype Inbox = Inbox(buffered: seq<byte>, arrivals: seq<Arrival>) {
    /** Every byte not yet delivered, in order. */
    function Pending(): seq<byte> {
      buffered + Incoming(arrivals)
    }

    /** One `recv` into the buffer, and whether it succeeded. */
    function Receive(): (bool, Inbox) {
      if arrivals == [] then (false, this)
      else if arrivals[0].Failed? then (false, Inbox(buffered, arrivals[1..]))
      else (true, Inbox(buffered + arrivals[0].bytes, arrivals[1..]))
    }
  }

  datatype Delivery = Delivery(ok: bool, bytes: seq<byte>, inbox: Inbox)

  function Deliver(inbox: Inbox, n: nat): Delivery
    requires n <= |inbox.buffered|
  {
    Delivery(true, inbox.buffered[..n], inbox.(buffered := inbox.buffered[n..]))
  }

  /** One read of `n` bytes: at most two rounds, and what the second `recv` brings is not looked at. */
  function ReadOnce(inbox: Inbox, n: nat): Delivery {
    if n == 0 then Delivery(false, [], inbox)
    else if |inbox.buffered| >= n then Deliver(inbox, n)
    else
      var (ok, first) := inbox.Receive();
      if !ok then Delivery(false, [], first)
      else if |first.buffered| >= n then Deliver(first, n)
      else Delivery(false, [], first.Receive().1)
  }

  lemma ReceiveConserves(inbox: Inbox)
    ensures inbox.Receive().1.Pending() == inbox.Pending()
  {
  }

  /** No byte is lost, duplicated or reordered; a failed read only moves bytes into the buffer. */
  lemma ReadConserves(inbox: Inbox, n: nat)
    ensures var d := ReadOnce(inbox, n);
            && inbox.Pending() == d.bytes + d.inbox.Pending()
            && (if d.ok then |d.bytes| == n else d.bytes == [])
            && (!d.ok ==> inbox.buffered <= d.inbox.buffered)
  {
    if n > 0 && |inbox.buffered| < n {
      var (ok, first) := inbox.Receive();
      ReceiveConserves(inbox);
      ReceiveConserves(first);
      if ok && |first.buffered| >= n {
        DeliverConserves(first, n);
      }
    } else if n > 0 {
      DeliverConserves(inbox, n);
    }
  }

  lemma DeliverConserves(inbox: Inbox, n: nat)
    requires n <= |inbox.buffered|
    ensures inbox.Pending() == Deliver(inbox, n).bytes + Deliver(inbox, n).inbox.Pending()
  {
    assert inbox.buffered == inbox.buffered[..n] + inbox.buffered[n..];
  }

  /** A read succeeds exactly when its bytes are buffered already or the next arrival completes
      them, however many bytes later arrivals hold. */
  lemma ReadSucceedsIff(inbox: Inbox, n: nat)
    requires n > 0
    ensures ReadOnce(inbox, n).ok
            <==> || |inbox.buffered| >= n
                 || (inbox.arrivals != [] && inbox.arrivals[0].Data?
                     && |inbox.buffered| + |inbox.arrivals[0].bytes| >= n)
  {
  }

  /** A message whose second fragment completes it is refused on the first read and delivered by the
      next, whatever follows. */
  lemma SplitMessageNeedsRetry(a: seq<byte>, b: seq<byte>, n: nat, rest: seq<Arrival>)
    requires |a| < n <= |a| + |b|
    ensures var first := ReadOnce(Inbox([], [Data(a), Data(b)] + rest), n);
            var second := ReadOnce(first.inbox, n);
            !first.ok && second.ok && second.bytes == (a + b)[..n]
  {
    var arrivals := [Data(a), Data(b)] + rest;
    assert arrivals[1..] == [Data(b)] + rest && ([Data(b)] + rest)[1..] == rest;
    assert [] + a == a;
    assert Inbox([], arrivals).Receive() == (true, Inbox(a, [Data(b)] + rest));
    assert Inbox(a, [Data(b)] + rest).Receive() == (true, Inbox(a + b, rest));
    assert ReadOnce(Inbox([], arrivals), n).inbox == Inbox(a + b, rest);
  }

  // ----- Consecutive reads, by how much the first arrivals hold

  /** The buffered bytes and those of the first `k` arrivals. */
  function Gathered(inbox: Inbox, k: nat): seq<byte>
    requires k <= |inbox.arrivals|
  {
    inbox.buffered + Incoming(inbox.arrivals[..k])
  }

  /** Whether the first `k` arrivals bring the bytes gathered to at least `need`. */
  predicate Enough(inbox: Inbox, k: nat, need: nat) {
    && k <= |inbox.arrivals| && (forall i :: 0 <= i < k ==> inbox.arrivals[i].Data?)
    && |Gathered(inbox, k)| >= need
  }

  /** How many arrivals reading up to byte `need` takes, after `k`: a read takes one more only if it
      has to, and never two. */
  function Taken(inbox: Inbox, k: nat, need: nat): nat {
    if Enough(inbox, k, need) then k else k + 1
  }

  /** The inbox after `k` arrivals were taken and the first `done` bytes read. */
  function Stage(inbox: Inbox, k: nat, done: nat): Inbox
    requires Enough(inbox, k, done)
  {
    Inbox(Gathered(inbox, k)[done..], inbox.arrivals[k..])
  }

  /** How many arrivals a read that fails has taken: two, if there are two and the first did not fail. */
  function Looked(arrivals: seq<Arrival>): (m: nat)
    ensures m <= |arrivals|
  {
    if arrivals == [] then 0 else if |arrivals| == 1 || arrivals[0].Failed? then 1 else 2
  }

  /** The inbox after a read that failed. */
  function Missed(inbox: Inbox): Inbox {
    var m := Looked(inbox.arrivals);
    Inbox(Gathered(inbox, m), inbox.arrivals[m..])
  }

  /** Exactly what a read does: it takes nothing from the network if the bytes are buffered, one arrival if
      that completes them, and otherwise fails after two, which stay buffered. */
  lemma ReadExactly(inbox: Inbox, n: nat)
    ensures ReadOnce(inbox, n)
            == if n == 0 then Delivery(false, [], inbox)
               else if |inbox.buffered| >= n then
                 Delivery(true, inbox.buffered[..n], Inbox(inbox.buffered[n..], inbox.arrivals))
               else if Enough(inbox, 1, n) then
                 Delivery(true, Gathered(inbox, 1)[..n], Inbox(Gathered(inbox, 1)[n..], inbox.arrivals[1..]))
               else Delivery(false, [], Missed(inbox))
  {
    var arrivals := inbox.arrivals;
    assert Gathered(inbox, 0) == inbox.buffered;
    if arrivals != [] {
      GatheredGrows(inbox, 0);
      if |arrivals| > 1 {
        GatheredGrows(inbox, 1);
      }
    }
  }

  lemma {:induction false} IncomingSplits(arrivals: seq<Arrival>, k: nat)
    requires k <= |arrivals|
    ensures Incoming(arrivals) == Incoming(arrivals[..k]) + Incoming(arrivals[k..])
    decreases k
  {
    if k == 0 {
      assert arrivals[0..] == arrivals;
    } else {
      IncomingSplits(arrivals[1..], k - 1);
      assert arrivals[..k][1..] == arrivals[1..][..k - 1] && arrivals[k..] == arrivals[1..][k - 1..];
    }
  }

  lemma GatheredGrows(inbox: Inbox, k: nat)
    requires k < |inbox.arrivals|
    ensures Gathered(inbox, k + 1)
            == Gathered(inbox, k) + if inbox.arrivals[k].Data? then inbox.arrivals[k].bytes else []
  {
    var front := inbox.arrivals[..k + 1];
    IncomingSplits(front, k);
    assert front[..k] == inbox.arrivals[..k] && front[k..] == [inbox.arrivals[k]];
    assert [inbox.arrivals[k]][1..] == [];
  }

  lemma GatheredIsPrefix(inbox: Inbox, k: nat)
    requires k <= |inbox.arrivals|
    ensures Gathered(inbox, k) <= inbox.Pending()
  {
    IncomingSplits(inbox.arrivals, k);
    assert inbox.Pending() == Gathered(inbox, k) + Incoming(inbox.arrivals[k..]);
  }

  lemma StageReceive(inbox: Inbox, k: nat, done: nat)
    requires Enough(inbox, k, done) && k < |inbox.arrivals| && inbox.arrivals[k].Data?
    ensures Enough(inbox, k + 1, done) && Stage(inbox, k, done).Receive() == (true, Stage(inbox, k + 1, done))
  {
    var left, g := inbox.arrivals[k..], Gathered(inbox, k);
    GatheredGrows(inbox, k);
    assert left[0] == inbox.arrivals[k] && left[1..] == inbox.arrivals[k + 1..];
    assert g[done..] + left[0].bytes == (g + left[0].bytes)[done..];
  }

  lemma StageDeliver(inbox: Inbox, k: nat, done: nat, n: nat)
    requires Enough(inbox, k, done + n)
    ensures done + n <= |inbox.Pending()| && Enough(inbox, k, done)
    ensures Deliver(Stage(inbox, k, done), n)
            == Delivery(true, inbox.Pending()[done..done + n], Stage(inbox, k, done + n))
  {
    var g := Gathered(inbox, k);
    GatheredIsPrefix(inbox, k);
    assert g[done..][..n] == g[done..done + n] == inbox.Pending()[done..done + n];
    assert g[done..][n..] == g[done + n..];
  }

  lemma StagePending(inbox: Inbox, k: nat, done: nat)
    requires Enough(inbox, k, done)
    ensures done <= |inbox.Pending()| && Stage(inbox, k, done).Pending() == inbox.Pending()[done..]
  {
    IncomingSplits(inbox.arrivals, k);
    assert inbox.Pending() == Gathered(inbox, k) + Incoming(inbox.arrivals[k..]);
  }

  /** The next read of a run succeeds exactly if the bytes gathered reach far enough with the arrivals
      taken so far or one more, and it then delivers the next bytes of the stream. */
  lemma StageRead(inbox: Inbox, k: nat, done: nat, n: nat)
    requires Enough(inbox, k, done) && n > 0
    ensures var d, next := ReadOnce(Stage(inbox, k, done), n), Taken(inbox, k, done + n);
            && (d.ok <==> Enough(inbox, next, done + n))
            && (d.ok ==> d.inbox == Stage(inbox, next, done + n))
            && (d.ok ==> done + n <= |inbox.Pending()| && d.bytes == inbox.Pending()[done..done + n])
  {
    if Enough(inbox, k, done + n) {
      StageDeliver(inbox, k, done, n);
    } else if k < |inbox.arrivals| && inbox.arrivals[k].Data? {
      StageReceive(inbox, k, done);
      if Enough(inbox, k + 1, done + n) {
        StageDeliver(inbox, k + 1, done, n);
      }
    }
  }

  /** Reads of the given lengths, one after another: all bytes delivered, and the final inbox. */
  function ReadMany(inbox: Inbox, lengths: seq<nat>): (seq<byte>, Inbox)
    decreases |lengths|
  {
    if lengths == [] then ([], inbox)
    else
      var d := ReadOnce(inbox, lengths[0]);
      var (more, last) := ReadMany(d.inbox, lengths[1..]);
      (d.bytes + more, last)
  }

  /** Over any run of reads, successful or not: delivered, then buffered, then still to arrive, is
      the original stream. */
  lemma {:induction false} RunsAreFifo(inbox: Inbox, lengths: seq<nat>)
    ensures var (delivered, last) := ReadMany(inbox, lengths);
            inbox.Pending() == delivered + last.Pending()
    decreases |lengths|
  {
    if lengths != [] {
      var d := ReadOnce(inbox, lengths[0]);
      ReadConserves(inbox, lengths[0]);
      RunsAreFifo(d.inbox, lengths[1..]);
    }
  }

  /** The same read, repeated until it succeeds or the tries are used up. */
  function Retry(inbox: Inbox, n: nat, tries: nat): Delivery
    decreases tries
  {
    var d := ReadOnce(inbox, n);
    if d.ok || tries == 0 then d else Retry(d.inbox, n, tries - 1)
  }

  /** However a message is fragmented, repeating the read delivers exactly its bytes: each failure
      moves two arrivals nearer to it. */
  lemma {:induction false} RetriesDeliver(inbox: Inbox, n: nat)
    requires 0 < n <= |inbox.Pending()| && forall i :: 0 <= i < |inbox.arrivals| ==> inbox.arrivals[i].Data?
    ensures var d := Retry(inbox, n, |inbox.arrivals|); d.ok && d.bytes == inbox.Pending()[..n]
    decreases |inbox.arrivals|
  {
    var d := ReadOnce(inbox, n);
    ReadConserves(inbox, n);
    if d.ok {
      assert inbox.Pending()[..n] == d.bytes;
    } else {
      var first := inbox.Receive().1;
      ReceiveConserves(inbox);
      assert first.arrivals != [] && d.inbox == first.Receive().1;
      RetriesDeliver(d.inbox, n);
      MoreTries(d.inbox, n, |d.inbox.arrivals|, |inbox.arrivals| - 1);
    }
  }

  lemma {:induction false} MoreTries(inbox: Inbox, n: nat, tries: nat, more: nat)
    requires tries <= more && Retry(inbox, n, tries).ok
    ensures Retry(inbox, n, more) == Retry(inbox, n, tries)
    decreases tries
  {
    var d := ReadOnce(inbox, n);
    if !d.ok {
      MoreTries(d.inbox, n, tries - 1, more - 1);
    }
  }

  // ----- Sending, as a function of what the peer accepts

  datatype Transfer = Transfer(taken: nat, last: int, accepts: seq<int>)

  /** The send loop with `amount` bytes to go: bytes taken, the last count and the peer's remaining
      answers. */
  function SendLoop(amount: nat, last: int, accepts: seq<int>): (t: Transfer)
    ensures t.taken <= amount
    decreases amount
  {
    if amount == 0 then Transfer(0, last, accepts)
    else
      var count := Accepted(accepts, amount);
      var rest := Later(accepts);
      if count <= 0 then Transfer(0, count, rest)
      else
        var t := SendLoop(amount - count, count, rest);
        Transfer(count + t.taken, t.last, t.accepts)
  }

  /** The C cast to int. */
  function ToInt32(n: uint32): int {
    if n < INT32_LIMIT then n else n - 0x1_0000_0000
  }

  /** How many bytes the loop sets out to send. */
  function ToSend(byteLen: uint32): nat {
    if byteLen < INT32_LIMIT then byteLen else 0
  }

  function SendAll(byteLen: uint32, accepts: seq<int>): Transfer {
    SendLoop(ToSend(byteLen), 0, accepts)
  }

  predicate SendSucceeds(byteLen: uint32, accepts: seq<int>) {
    SendAll(byteLen, accepts).last >= ToInt32(byteLen)
  }

  lemma {:induction false} LastIsBounded(amount: nat, last: int, accepts: seq<int>)
    requires amount > 0
    ensures var t := SendLoop(amount, last, accepts);
            t.last <= amount && (t.last == amount <==> Accepted(accepts, amount) == amount)
    decreases amount
  {
    var count := Accepted(accepts, amount);
    var rest := Later(accepts);
    if 0 < count < amount {
      LastIsBounded(amount - count, count, rest);
    }
  }

  function Sum(counts: seq<int>): int {
    if counts == [] then 0 else counts[0] + Sum(counts[1..])
  }

  /** How the loop ends after `calls` sends: all but the last took some bytes, together fewer than all; the last
      took what was left, or nothing. */
  predicate Ended(amount: nat, accepts: seq<int>, t: Transfer, calls: nat) {
    && 1 <= calls <= |accepts| + 1
    && (forall i :: 0 <= i < calls - 1 ==> accepts[i] > 0)
    && var before := Sum(accepts[..calls - 1]);
    && 0 <= before < amount
    && t.last == Accepted(accepts[calls - 1..], amount - before)
    && t.taken == before + (if t.last > 0 then t.last else 0)
    && (t.last > 0 ==> t.taken == amount)
    && t.accepts == accepts[if calls <= |accepts| then calls else |accepts|..]
  }

  /** Exactly what the loop does, whatever the peer takes. */
  lemma {:induction false} SendExactly(amount: nat, last: int, accepts: seq<int>)
    requires amount > 0
    ensures exists calls :: Ended(amount, accepts, SendLoop(amount, last, accepts), calls)
    decreases amount
  {
    var count := Accepted(accepts, amount);
    var t := SendLoop(amount, last, accepts);
    assert accepts[..0] == [] && accepts[0..] == accepts;
    if 0 < count < amount {
      var rest := accepts[1..];
      SendExactly(amount - count, count, rest);
      var u := SendLoop(amount - count, count, rest);
      var k :| Ended(amount - count, rest, u, k);
      EndedLater(amount, accepts, u, t, k);
    } else {
      assert count == amount ==> SendLoop(0, count, Later(accepts)).taken == 0;
      assert Ended(amount, accepts, t, 1);
    }
  }

  lemma EndedLater(amount: nat, accepts: seq<int>, u: Transfer, t: Transfer, k: nat)
    requires accepts != [] && 0 < accepts[0] < amount && Ended(amount - accepts[0], accepts[1..], u, k)
    requires t == Transfer(accepts[0] + u.taken, u.last, u.accepts)
    ensures Ended(amount, accepts, t, k + 1)
  {
    assert accepts[..k][1..] == accepts[1..][..k - 1] && accepts[k..] == accepts[1..][k - 1..];
    forall i | 0 <= i < k ensures accepts[i] > 0 {
      if i > 0 {
        assert accepts[i] == accepts[1..][i - 1];
      }
    }
  }

  /** The loop compares only the last count with the total, so success is reported exactly when one
      `send` took everything, or the length is no positive int. */
  lemma SendSucceedsIff(byteLen: uint32, accepts: seq<int>)
    ensures SendSucceeds(byteLen, accepts)
            <==> || byteLen == 0 || byteLen >= INT32_LIMIT
                 || Accepted(accepts, byteLen) == byteLen
  {
    if 0 < byteLen < INT32_LIMIT {
      LastIsBounded(byteLen, 0, accepts);
    }
  }

  /** Reported success means that all bytes were taken, exactly for lengths that are an int. */
  lemma SuccessMeansSent(byteLen: uint32, accepts: seq<int>)
    requires SendSucceeds(byteLen, accepts)
    ensures SendAll(byteLen, accepts).taken == byteLen <==> byteLen < INT32_LIMIT
  {
    SendSucceedsIff(byteLen, accepts);
  }

  /** A peer that takes a message in two parts gets all of it, and the caller is told it failed. */
  lemma PartialSendReportsFailure(byteLen: uint32, part: int, accepts: seq<int>)
    requires 0 < part < byteLen < INT32_LIMIT && |accepts| >= 2
    requires accepts[0] == part && accepts[1] >= byteLen - part
    ensures SendAll(byteLen, accepts).taken == byteLen && !SendSucceeds(byteLen, accepts)
  {
    SendSucceedsIff(byteLen, accepts);
    var t := SendLoop(byteLen - part, part, accepts[1..]);
    assert Accepted(accepts[1..], byteLen - part) == byteLen - part;
    assert t.taken == byteLen - part;
  }

  /** What the wire, the last count and the peer's answers will be at the end of the loop. */
  function Goal(sent: seq<byte>, rest: seq<byte>, t: Transfer): (seq<byte>, int, seq<int>)
    requires t.taken <= |rest|
  {
    (sent + rest[..t.taken], t.last, t.accepts)
  }

  lemma GoalStep(sent: seq<byte>, rest: seq<byte>, last: int, accepts: seq<int>)
    requires rest != []
    ensures var count := Accepted(accepts, |rest|);
            Goal(sent, rest, SendLoop(|rest|, last, accepts))
            == if count <= 0 then (sent, count, Later(accepts))
               else Goal(sent + rest[..count], rest[count..], SendLoop(|rest| - count, count, Later(accepts)))
  {
    var count := Accepted(accepts, |rest|);
    if count > 0 {
      var t := SendLoop(|rest| - count, count, Later(accepts));
      assert rest[..count] + rest[count..][..t.taken] == rest[..count + t.taken];
      assert sent + rest[..count + t.taken] == sent + rest[..count] + rest[count..][..t.taken];
    } else {
      assert sent + rest[..0] == sent;
    }
  }

  // ----- The socket object

  class Socket {
    const net: Network
    var recvBytes: array?<byte>
    var recvLength: nat

    predicate Valid()
      reads this, net
    {
      net.Valid() && recvLength == if recvBytes == null then 0 else recvBytes.Length
    }

    ghost function Buffered(): seq<byte>
      reads this, recvBytes
    {
      if recvBytes == null then [] else recvBytes[..]
    }

    ghost function In(): Inbox
      reads this, net, recvBytes
    {
      Inbox(Buffered(), net.arrivals)
    }

    constructor (net: Network)
      requires net.Valid()
      ensures Valid() && this.net == net && In() == Inbox([], net.arrivals) && recvBytes == null
    {
      this.net := net;
      recvBytes := null;
      recvLength := 0;
    }

    /** add_to_buffer, with allocation assumed to succeed. */
    method AddToBuffer(bytes: seq<byte>)
      requires Valid()
      modifies this
      ensures Valid() && fresh(recvBytes) && Buffered() == old(Buffered()) + bytes
    {
      ghost var whole := Buffered() + bytes;
      var newBuff := new byte[recvLength + |bytes|];
      forall i | 0 <= i < recvLength {
        newBuff[i] := recvBytes[i];
      }
      forall i | recvLength <= i < newBuff.Length {
        newBuff[i] := bytes[i - recvLength];
      }
      assert newBuff[..] == whole;
      recvBytes := newBuff;
      recvLength := recvLength + |bytes|;
    }

    method RemoveFromBuffer(length: nat)
      requires Valid() && 0 < length <= recvLength
      modifies this
      ensures Valid() && (recvBytes == null || fresh(recvBytes)) && Buffered() == old(Buffered())[length..]
    {
      if recvLength == length {
        recvBytes := null;
        recvLength := 0;
      } else {
        var mallocSize := recvLength - length;
        var newBuff := new byte[mallocSize];
        forall i | 0 <= i < mallocSize {
          newBuff[i] := recvBytes[length + i];
        }
        assert newBuff[..] == recvBytes[length..];
        recvBytes := newBuff;
        recvLength := mallocSize;
      }
    }

    method ReadSocketBytes() returns (result: int)
      requires Valid()
      modifies this, net
      ensures Valid() && net.accepts == old(net.accepts) && net.sent == old(net.sent)
      ensures recvBytes == old(recvBytes) || fresh(recvBytes)
      ensures (result == 0, In()) == old(In()).Receive()
    {
      var length, bytes := net.Recv();
      if length == -1 {
        result := MU_FAILURE;
      } else {
        AddToBuffer(bytes);
        result := 0;
      }
    }

    /** tpm_socket_read. */
    method Read(tpmBytes: array?<byte>, n: uint32) returns (result: int)
      requires Valid() && (tpmBytes != null ==> n <= tpmBytes.Length && tpmBytes != recvBytes)
      modifies this, net, if tpmBytes == null then {} else {tpmBytes}
      ensures Valid() && net.accepts == old(net.accepts) && net.sent == old(net.sent)
      ensures recvBytes == null || recvBytes == old(recvBytes) || fresh(recvBytes)
      ensures tpmBytes == null ==> result != 0 && In() == old(In())
      ensures tpmBytes != null ==>
                var d := ReadOnce(old(In()), n);
                && (result == 0 <==> d.ok) && In() == d.inbox
                && tpmBytes[..] == d.bytes + old(tpmBytes[..])[|d.bytes|..]
    {
      result := MU_FAILURE;
      if tpmBytes == null || n == 0 { return; }
      var index := 0;
      while index < 2
        invariant Valid() && 0 <= index <= 2 && result != 0
        invariant net.accepts == old(net.accepts) && net.sent == old(net.sent)
        invariant recvBytes == old(recvBytes) || fresh(recvBytes)
        invariant tpmBytes[..] == old(tpmBytes[..])
        invariant index == 0 ==> In() == old(In())
        invariant index > 0 ==> |old(In()).buffered| < n && old(In()).Receive().0
        invariant index == 1 ==> In() == old(In()).Receive().1
        invariant index == 2 ==> |old(In()).Receive().1.buffered| < n && In() == old(In()).Receive().1.Receive().1
      {
        if recvLength >= n {
          forall i | 0 <= i < n {
            tpmBytes[i] := recvBytes[i];
          }
          RemoveFromBuffer(n);
          result := 0;
          break;
        } else {
          var rc := ReadSocketBytes();
          if rc != 0 {
            result := MU_FAILURE;
            break;
          }
        }
        index := index + 1;
      }
    }

    /** send_socket_bytes. */
    method SendSocketBytes(cmd: array<byte>, byteLen: uint32) returns (result: int)
      requires Valid() && byteLen <= cmd.Length
      modifies net
      ensures Valid() && net.arrivals == old(net.arrivals)
      ensures var t := SendAll(byteLen, old(net.accepts));
              && net.sent == old(net.sent) + cmd[..t.taken] && net.accepts == t.accepts
              && (result == 0 <==> SendSucceeds(byteLen, old(net.accepts)))
    {
      var sentBytes := SendRemaining(cmd[..ToSend(byteLen)]);
      result := if sentBytes < ToInt32(byteLen) then MU_FAILURE else 0;
    }

    /** Its loop, over the bytes from the pointer on. */
    method SendRemaining(bytes: seq<byte>) returns (sentBytes: int)
      requires Valid()
      modifies net
      ensures Valid() && net.arrivals == old(net.arrivals)
      ensures var t := SendLoop(|bytes|, 0, old(net.accepts));
              net.sent == old(net.sent) + bytes[..t.taken] && net.accepts == t.accepts && sentBytes == t.last
    {
      sentBytes := 0;
      var rest := bytes;
      ghost var goal := Goal(net.sent, bytes, SendLoop(|bytes|, 0, net.accepts));
      while rest != []
        invariant Valid() && net.arrivals == old(net.arrivals)
        invariant goal == Goal(net.sent, rest, SendLoop(|rest|, sentBytes, net.accepts))
      {
        GoalStep(net.sent, rest, sentBytes, net.accepts);
        sentBytes := net.Send(rest);
        if sentBytes <= 0 { break; }
        rest := rest[sentBytes..];
      }
    }

    /** tpm_socket_send. */
    method Send(tpmBytes: array?<byte>, n: uint32) returns (result: int)
      requires Valid() && (tpmBytes != null ==> n <= tpmBytes.Length)
      modifies net
      ensures Valid() && net.arrivals == old(net.arrivals)
      ensures tpmBytes == null || n == 0 ==> result != 0 && net.sent == old(net.sent) && net.accepts == old(net.accepts)
      ensures tpmBytes != null && n > 0 ==>
                var t := SendAll(n, old(net.accepts));
                && net.sent == old(net.sent) + tpmBytes[..t.taken] && net.accepts == t.accepts
                && (result == 0 <==> SendSucceeds(n, old(net.accepts)))
    {
      if tpmBytes == null || n == 0 {
        result := MU_FAILURE;
      } else {
        result := SendSocketBytes(tpmBytes, n);
      }
    }
  }
}
