/** TPM2_ReadPublic, from the typed request to the typed reply: command bytes, frames on the wire,
    response header and unmarshalled public area together. */
module ReadPublic {
  import opened Bytes
  import opened Wire
  import opened Blobs
  import opened PublicArea
  import opened PublicCodec
  import opened Auth
  import opened Command
  import opened Transport
  import opened Emulator
  import opened Response
  import opened Codec
  import opened Grammar
  import opened PublicGrammar

  datatype PublicReply = PublicReply(outPublic: Public2B, name: Blob, qualifiedName: Blob)

  predicate ReplyOk(x: PublicReply) {
    Public2BOk(x.outPublic, true) && |x.name| <= SIZEOF_TPMU_NAME && |x.qualifiedName| <= SIZEOF_TPMU_NAME
  }

  function ReplyFields(x: PublicReply): seq<Field> {
    Public2BFields(x.outPublic) + BlobFields(x.name) + BlobFields(x.qualifiedName)
  }

  function ParseReply(s: seq<byte>): (p: Parsed<PublicReply>)
    ensures p.Ok? ==> ReplyOk(p.value) && s == PutAll(ReplyFields(p.value), p.rest)
    ensures p.Err? ==> p.code != TPM_RC_SUCCESS
  {
    var (outPublic, s1) :- ParsePublic2B(s, true);
    var (name, s2) :- ParseBlob(s1, SIZEOF_TPMU_NAME);
    var (qualifiedName, s3) :- ParseBlob(s2, SIZEOF_TPMU_NAME);
    Put3(Public2BFields(outPublic), BlobFields(name), BlobFields(qualifiedName), s3);
    Ok(PublicReply(outPublic, name, qualifiedName), s3)
  }

  lemma ReplyRoundTrip(x: PublicReply, rest: seq<byte>)
    requires ReplyOk(x)
    ensures ParseReply(PutAll(ReplyFields(x), rest)) == Ok(x, rest)
  {
    var s2 := PutAll(BlobFields(x.qualifiedName), rest);
    var s1 := PutAll(BlobFields(x.name), s2);
    Put3(Public2BFields(x.outPublic), BlobFields(x.name), BlobFields(x.qualifiedName), rest);
    Public2BRoundTrip(x.outPublic, true, s1);
    BlobRoundTrip(x.name, SIZEOF_TPMU_NAME, s2);
    BlobRoundTrip(x.qualifiedName, SIZEOF_TPMU_NAME, rest);
  }

  lemma ReplySize(x: PublicReply)
    requires ReplyOk(x)
    ensures |PutAll(ReplyFields(x), [])| <= 492
  {
    var p, n, q := Public2BFields(x.outPublic), BlobFields(x.name), BlobFields(x.qualifiedName);
    SizeOfPut(ReplyFields(x), []);
    SizeAppend(p + n, q);
    SizeAppend(p, n);
    SizeAppend([BE(2, x.outPublic.size)], PublicFields(x.outPublic.body));
    EmitOne(NoBuffer, BE(2, x.outPublic.size));
    PublicSize(x.outPublic.body, true);
    BlobSize(x.name);
    BlobSize(x.qualifiedName);
  }

  /** What TPM2_ReadPublic makes of a response: any field of the reply that cannot be unmarshalled is
      reported as TPM_RC_INSUFFICIENT. Bytes after the reply are not looked at. */
  function InterpretReadPublic(s: seq<byte>): Parsed<PublicReply> {
    var d := Interpret(s, TPM_CC_READ_PUBLIC);
    if d.rc != TPM_RC_SUCCESS then Err(d.rc)
    else
      match ParseReply(d.left)
      case Err(_) => Err(TPM_RC_INSUFFICIENT)
      case Ok(x, rest) => Ok(x, rest)
  }

  // ----- What becomes of any answer, by its bytes

  /** Where the reply starts in an answer, or the code that the answer gives: a failure gives its cleaned
      code, unless cleaning leaves nothing of it; a success under the sessions tag has a size first. */
  function AnswerAt(r: seq<byte>): Verdict {
    if |r| < 10 || Num(r, 0, 2) !in {0x8001, 0x8002} then Bad(0x9A)
    else if Num(r, 2, 4) != |r| then Bad(0x142)
    else
      Widths();
      var raw := Num(r, 6, 4);
      if raw != 0 then (if Cleaned(raw) != 0 then Bad(Cleaned(raw)) else At(10))
      else if Num(r, 0, 2) == 0x8002 then Skip(r, 10, 4)
      else At(10)
  }

  /** Whether the bytes start with the encoding of a well-formed reply. */
  ghost predicate StartsWith(b: seq<byte>, x: PublicReply) {
    ReplyOk(x) && PutAll(ReplyFields(x), []) <= b
  }

  /** What a call must return: exactly the reply that the answer starts with, where it starts; otherwise the
      code of the answer, or that its contents are insufficient. */
  ghost predicate Returned(s: Step<seq<byte>>, rc: uint32, target: PublicReply) {
    match s
    case Stop(_) => rc == 0x143
    case Done(r, _) =>
      match AnswerAt(r)
      case Bad(code) => rc == code
      case At(at) =>
        at <= |r| &&
        if exists x :: StartsWith(r[at..], x) then rc == 0 && StartsWith(r[at..], target) else rc == 0x9A
  }

  lemma ReplyIsParsed(b: seq<byte>, x: PublicReply)
    ensures StartsWith(b, x) <==> ParseReply(b).Ok? && ParseReply(b).value == x
  {
    ReplyInverse();
    ReadsPrefix(ParseReply, ReplyFields, ReplyOk, b, x);
  }

  lemma ReplyInverse()
    ensures Inverse(ParseReply, ReplyFields, ReplyOk)
  {
    forall x: PublicReply, rest: seq<byte> | ReplyOk(x)
      ensures ParseReply(PutAll(ReplyFields(x), rest)) == Ok(x, rest)
    {
      ReplyRoundTrip(x, rest);
    }
  }

  /** No code that is given instead of a reply is success. */
  lemma RefusalsAreFailures(r: seq<byte>)
    ensures AnswerAt(r).Bad? ==> AnswerAt(r).code != TPM_RC_SUCCESS
  {
  }

  lemma AnswerInNumbers(r: seq<byte>)
    ensures var d := Interpret(r, TPM_CC_READ_PUBLIC);
            match AnswerAt(r)
            case Bad(code) => d.rc == code
            case At(at) => d.rc == TPM_RC_SUCCESS && at <= |r| && d.left == r[at..]
  {
    InterpretInNumbers(r, TPM_CC_READ_PUBLIC);
  }

  /** For every answer the interpretation is what must be returned. */
  lemma ReadPublicExactly(s: Step<seq<byte>>, rc: uint32, target: PublicReply)
    requires Concludes(s, rc, target)
    ensures Returned(s, rc, target)
  {
    if s.Done? {
      AnswerInNumbers(s.value);
      RefusalsAreFailures(s.value);
      var at := AnswerAt(s.value);
      if at.At? {
        var b := s.value[at.pos..];
        ReplyIsParsed(b, target);
        if ParseReply(b).Ok? {
          assert StartsWith(b, target);
        } else {
          forall x ensures !StartsWith(b, x) { ReplyIsParsed(b, x); }
        }
      }
    }
  }

  function Request(handle: uint32): CommandData {
    CommandData(TPM_ST_NO_SESSIONS, TPM_CC_READ_PUBLIC, [handle], [], [])
  }

  function RequestBytes(handle: uint32): (s: seq<byte>)
    ensures |s| == 14
  {
    ClaimIsTrue(Request(handle));
    CommandBytes(Request(handle))
  }

  lemma OneHandle(c: CommandData, handle: uint32, size: nat)
    requires c.handles == [handle] && c.sessions == [] && c.params == [] && size == 14
    ensures CommandBytes(c) == BE(2, c.tag) + BE(4, size) + BE(4, c.code) + BE(4, handle)
  {
    CommandInBytes(c);
    assert WordsBytes([handle]) == BE(4, handle) by {
      assert [handle][1..] == [];
    }
    InARow(BE(2, c.tag), BE(4, size), BE(4, c.code), BE(4, handle));
  }

  lemma InARow(a: seq<byte>, b: seq<byte>, c: seq<byte>, d: seq<byte>)
    ensures a + (b + (c + (d + ([] + [])))) == a + b + c + d
  {
  }

  lemma HeadInNumbers(tag: uint16, size: uint32, code: uint32)
    requires tag == 0x8001 && size == 14 && code == 0x173
    ensures BE(2, tag) + BE(4, size) + BE(4, code) == [0x80, 0x01, 0, 0, 0, 0x0E, 0, 0, 0x01, 0x73]
  {
    TwoBytes(tag);
    FourBytes(size);
    FourBytes(code);
  }

  /** The request in numbers: fourteen bytes, of which the last four are the handle. */
  lemma RequestInNumbers(handle: uint32)
    ensures RequestBytes(handle) == [0x80, 0x01, 0, 0, 0, 0x0E, 0, 0, 0x01, 0x73] + BE(4, handle)
  {
    var c, size := Request(handle), |RequestBytes(handle)|;
    OneHandle(c, handle, size);
    HeadInNumbers(c.tag, size, c.code);
  }

  function ReplyBytes(x: PublicReply): seq<byte>
    requires ReplyOk(x)
  {
    ReplySize(x);
    SuccessBytes(Success(TPM_ST_NO_SESSIONS, TPM_RH_UNASSIGNED, 0, PutAll(ReplyFields(x), [])), TPM_CC_READ_PUBLIC)
  }

  /** A TPM's answer that encodes a well-formed public area and its names yields exactly these. */
  lemma AnswerIsUnderstood(x: PublicReply)
    requires ReplyOk(x)
    ensures InterpretReadPublic(ReplyBytes(x)) == Ok(x, [])
    ensures |ReplyBytes(x)| <= 502
  {
    ReplySize(x);
    ReplyRoundTrip(x, []);
    SuccessIsUnderstood(Success(TPM_ST_NO_SESSIONS, TPM_RH_UNASSIGNED, 0, PutAll(ReplyFields(x), [])),
                        TPM_CC_READ_PUBLIC);
  }

  /** The whole path, for any fragmentation and whatever follows: if what is pending starts with the
      framed answer `x`, the call succeeds exactly if the request is accepted and the answer arrives in
      time; and then the wire has received exactly the framed command, which parses as the request, the
      caller gets `x`, and what follows the answer stays pending. */
  lemma PathIsFaithful(l: Link, handle: uint32, x: PublicReply, more: seq<byte>)
    requires ReplyOk(x) && l.inbox.Pending() == ReplyFrame(ReplyBytes(x)) + more
    ensures var s := Submit(l, RequestBytes(handle), 4096);
            && (s.Done? <==> SendRequest(l, RequestBytes(handle)).Done? && Timely(l.inbox, |ReplyBytes(x)|))
            && (s.Done? ==>
                  && s.value == ReplyBytes(x) && InterpretReadPublic(s.value) == Ok(x, [])
                  && s.link.sent == l.sent + RequestFrame(RequestBytes(handle)) && s.link.inbox.Pending() == more)
    ensures ParseCommand(RequestBytes(handle), 1) == Ok(Request(handle), [])
  {
    RequestSendsFrame(l, RequestBytes(handle));
    AnswerIsUnderstood(x);
    ReplySucceedsIff(SendRequest(l, RequestBytes(handle)).link, 4096, ReplyBytes(x), more);
    CommandRoundTrip(Request(handle));
  }

  method UnmarshalReply(buffer: Cursor, size: Budget) returns (rc: uint32, target: PublicReply)
    requires Readable(buffer, size)
    modifies buffer, size
    ensures Read(buffer, size, ParseReply(old(Rest(buffer, size))), rc, target)
  {
    target := PublicReply(Sized(0, NO_PUBLIC), [], []);
    var outPublic, name, qualifiedName;
    rc, outPublic := UnmarshalPublic2B(buffer, size, true);
    if rc != TPM_RC_SUCCESS { return; }
    rc, name := UnmarshalBlob(buffer, size, SIZEOF_TPMU_NAME);
    if rc != TPM_RC_SUCCESS { return; }
    rc, qualifiedName := UnmarshalBlob(buffer, size, SIZEOF_TPMU_NAME);
    target := PublicReply(outPublic, name, qualifiedName);
  }

  method DispatchReadPublic(tpm: Device, objectHandle: uint32, ctx: CmdContext) returns (rc: uint32)
    requires tpm.comm.Valid() && ctx.Valid() && ctx.paramSize == 0
    requires ctx.respBuffer != tpm.comm.socket.recvBytes && ctx.cmdBuffer != tpm.comm.socket.recvBytes
    modifies tpm`lastRawResponse, ctx, ctx.cmdBuffer, ctx.respBuffer, ctx.respPtr, ctx.respLeft,
             tpm.comm, tpm.comm.socket, tpm.comm.socket.net
    ensures tpm.comm.Valid()
    ensures Answered(tpm, ctx, TPM_CC_READ_PUBLIC, rc,
                     Submit(old(LinkOf(tpm.comm.socket)), RequestBytes(objectHandle), 4096),
                     old(tpm.lastRawResponse))
  {
    var handles := new uint32[1](_ => objectHandle);
    assert handles[..1] == [objectHandle];
    assert Outgoing(TPM_CC_READ_PUBLIC, handles, 1, null, 0, ctx) == RequestBytes(objectHandle);
    rc := DispatchCmd(tpm, TPM_CC_READ_PUBLIC, handles, 1, null, 0, ctx);
  }

  /** What TPM2_ReadPublic returns, by what became of its submission. */
  predicate Concludes(s: Step<seq<byte>>, rc: uint32, target: PublicReply) {
    match s
    case Stop(_) => rc == TPM_RC_COMMAND_CODE
    case Done(reply, _) =>
      match InterpretReadPublic(reply)
      case Err(code) => rc == code
      case Ok(x, _) => rc == TPM_RC_SUCCESS && target == x
  }

  /** TPM2_ReadPublic. */
  method ReadPublic(tpm: Device, objectHandle: uint32) returns (rc: uint32, target: PublicReply)
    requires tpm.comm.Valid()
    modifies tpm`lastRawResponse, tpm.comm, tpm.comm.socket, tpm.comm.socket.net
    ensures tpm.comm.Valid()
    ensures var s := Submit(old(LinkOf(tpm.comm.socket)), RequestBytes(objectHandle), 4096);
            LinkOf(tpm.comm.socket) == s.link && Concludes(s, rc, target) && Returned(s, rc, target)
  {
    ghost var s := Submit(LinkOf(tpm.comm.socket), RequestBytes(objectHandle), 4096);
    var ctx := new CmdContext();
    rc := DispatchReadPublic(tpm, objectHandle, ctx);
    ghost var after := LinkOf(tpm.comm.socket);
    rc, target := Conclude(rc, ctx.respPtr, ctx.respLeft, s);
    assert LinkOf(tpm.comm.socket) == after;
  }

  /** The part of TPM2_ReadPublic after the dispatch. */
  method Conclude(code: uint32, buffer: Cursor, size: Budget, ghost s: Step<seq<byte>>)
    returns (rc: uint32, target: PublicReply)
    requires s.Stop? ==> code == TPM_RC_COMMAND_CODE
    requires s.Done? ==>
               var d := Interpret(s.value, TPM_CC_READ_PUBLIC);
               code == d.rc && (code == TPM_RC_SUCCESS ==> Readable(buffer, size) && Rest(buffer, size) == d.left)
    modifies buffer, size
    ensures Concludes(s, rc, target) && Returned(s, rc, target)
  {
    rc, target := code, PublicReply(Sized(0, NO_PUBLIC), [], []);
    if code == TPM_RC_SUCCESS {
      var result, x := UnmarshalReply(buffer, size);
      if result != TPM_RC_SUCCESS { rc := TPM_RC_INSUFFICIENT; } else { target := x; }
    }
    ReadPublicExactly(s, rc, target);
  }
}
