/** TSS_DispatchCmd: send a built command, then walk the response's header, handle and parameter
    size, leaving the cursor at the response parameters. */
module Response {
  import opened Bytes
  import opened Wire
  import opened Blobs
  import opened Auth
  import opened Command
  import opened Transport
  import opened Emulator
  import opened ResponseCodes
  import opened Grammar

  const MAX_COMMAND_BUFFER := 4096
  const MAX_RESPONSE_BUFFER := 4096
  const NOT_USED: uint32 := 0x97F
  const TPM_RC_COMMAND_CODE: uint32 := 0x143
  const TPM_RH_UNASSIGNED: uint32 := 0x4000_0008

  const TPM_CC_CREATE_PRIMARY: uint32 := 0x131
  const TPM_CC_LOAD: uint32 := 0x157
  const TPM_CC_HMAC_START: uint32 := 0x15B
  const TPM_CC_CONTEXT_LOAD: uint32 := 0x161
  const TPM_CC_LOAD_EXTERNAL: uint32 := 0x167
  const TPM_CC_READ_PUBLIC: uint32 := 0x173
  const TPM_CC_START_AUTH_SESSION: uint32 := 0x176
  const TPM_CC_HASH_SEQUENCE_START: uint32 := 0x186
  const TPM_CC_CREATE_LOADED: uint32 := 0x191

  predicate ReturnsHandle(code: uint32) {
    || code == TPM_CC_CREATE_PRIMARY || code == TPM_CC_LOAD || code == TPM_CC_HMAC_START
    || code == TPM_CC_CONTEXT_LOAD || code == TPM_CC_LOAD_EXTERNAL || code == TPM_CC_START_AUTH_SESSION
    || code == TPM_CC_HASH_SEQUENCE_START || code == TPM_CC_CREATE_LOADED
  }

  function Cleaned(raw: uint32): uint32 {
    CleanResponseCode(raw as bv32) as uint32
  }

  // ----- The response as a value

  datatype Header = Header(tag: uint16, size: uint32, raw: uint32)

  function HeaderFields(h: Header): seq<Field> {
    [BE(2, h.tag)] + [BE(4, h.size)] + [BE(4, h.raw)]
  }

  function ParseHeader(s: seq<byte>): (p: Parsed<Header>)
    ensures p.Ok? ==> p.value.tag == TPM_ST_NO_SESSIONS || p.value.tag == TPM_ST_SESSIONS
    ensures p.Ok? ==> s == PutAll(HeaderFields(p.value), p.rest)
    ensures p.Err? ==> p.code != TPM_RC_SUCCESS
  {
    var (tag, s1) :- ParseUint16(s);
    if tag != TPM_ST_NO_SESSIONS && tag != TPM_ST_SESSIONS then Err(TPM_RC_BAD_TAG)
    else
      var (size, s2) :- ParseUint32(s1);
      var (raw, s3) :- ParseUint32(s2);
      Put3([BE(2, tag)], [BE(4, size)], [BE(4, raw)], s3);
      Ok(Header(tag, size, raw), s3)
  }

  lemma HeaderRoundTrip(h: Header, rest: seq<byte>)
    requires h.tag == TPM_ST_NO_SESSIONS || h.tag == TPM_ST_SESSIONS
    ensures ParseHeader(PutAll(HeaderFields(h), rest)) == Ok(h, rest)
    ensures |PutAll(HeaderFields(h), rest)| == 10 + |rest|
  {
    Put3([BE(2, h.tag)], [BE(4, h.size)], [BE(4, h.raw)], rest);
    PutOne();
    WordRoundTrips();
    OtherUintRoundTrips();
  }

  /** What a dispatch reports: the result, the raw response code, the handle and the parameter size
      it found, and the bytes it left for the caller to unmarshal. */
  datatype Dispatched = Dispatched(rc: uint32, raw: uint32, retHandle: uint32, paramSize: uint32, left: seq<byte>)

  function Failed(rc: uint32, raw: uint32, retHandle: uint32): Dispatched {
    Dispatched(rc, raw, retHandle, 0, [])
  }

  /** What TSS_DispatchCmd makes of the response `s` to a command with the given code. Every field
      that cannot be unmarshalled is reported as TPM_RC_INSUFFICIENT, whatever was wrong with it. */
  function Interpret(s: seq<byte>, code: uint32): Dispatched {
    match ParseHeader(s)
    case Err(_) => Failed(TPM_RC_INSUFFICIENT, NOT_USED, TPM_RH_UNASSIGNED)
    case Ok(h, s1) => InterpretAfter(h, |s|, s1, code)
  }

  /** The same from the end of the header `h` of a response of `n` bytes. */
  function InterpretAfter(h: Header, n: nat, s: seq<byte>, code: uint32): Dispatched {
    if h.size != n then Failed(TPM_RC_COMMAND_SIZE, h.raw, TPM_RH_UNASSIGNED)
    else if h.raw != TPM_RC_SUCCESS then Dispatched(Cleaned(h.raw), h.raw, TPM_RH_UNASSIGNED, 0, s)
    else InterpretBody(s, code, h.tag)
  }

  /** The same for a successful response. */
  function InterpretBody(s: seq<byte>, code: uint32, tag: uint16): (d: Dispatched)
    ensures d.raw == TPM_RC_SUCCESS
    ensures d.retHandle == TPM_RH_UNASSIGNED || ReturnsHandle(code)
  {
    if ReturnsHandle(code) then
      match ParseUint32(s)
      case Err(_) => Failed(TPM_RC_INSUFFICIENT, TPM_RC_SUCCESS, TPM_RH_UNASSIGNED)
      case Ok(handle, s1) =>
        if handle == 0 || handle == TPM_RH_UNASSIGNED then Failed(TPM_RC_COMMAND_CODE, TPM_RC_SUCCESS, handle)
        else InterpretParams(s1, handle, tag)
    else InterpretParams(s, TPM_RH_UNASSIGNED, tag)
  }

  function InterpretParams(s: seq<byte>, handle: uint32, tag: uint16): (d: Dispatched)
    ensures d.raw == TPM_RC_SUCCESS && d.retHandle == handle
  {
    if tag == TPM_ST_SESSIONS then
      match ParseUint32(s)
      case Err(_) => Failed(TPM_RC_INSUFFICIENT, TPM_RC_SUCCESS, handle)
      case Ok(paramSize, s1) => Dispatched(TPM_RC_SUCCESS, TPM_RC_SUCCESS, handle, paramSize, s1)
    else Dispatched(TPM_RC_SUCCESS, TPM_RC_SUCCESS, handle, 0, s)
  }

  // ----- The same in numbers and offsets

  /** Cleaning a number is cleaning its bits. */
  lemma CleanedIsClean(raw: uint32)
    ensures Cleaned(raw) as bv32 == CleanResponseCode(raw as bv32)
  {
  }

  /** The eight commands whose response starts with a handle. */
  predicate Handled(code: uint32) {
    code in {0x131, 0x157, 0x15B, 0x161, 0x167, 0x176, 0x186, 0x191}
  }

  /** What is made of the body of a success, at its offset: a handle that may not be zero or unassigned, and
      the size of the parameters under the sessions tag. */
  function BodyMeaning(s: seq<byte>, code: uint32, tag: nat): Dispatched
    requires |s| >= 10
  {
    if Handled(code) && |s| < 14 then Dispatched(0x9A, 0, 0x4000_0008, 0, [])
    else
      var handle: uint32 := if Handled(code) then (Widths(); Num(s, 10, 4)) else 0x4000_0008;
      var at := if Handled(code) then 14 else 10;
      if Handled(code) && (handle == 0 || handle == 0x4000_0008) then Dispatched(0x143, 0, handle, 0, [])
      else if tag != 0x8002 then Dispatched(0, 0, handle, 0, s[at..])
      else if |s| < at + 4 then Dispatched(0x9A, 0, handle, 0, [])
      else (Widths(); Dispatched(0, 0, handle, Num(s, at, 4), s[at + 4..]))
  }

  /** What is made of any response: its tag at 0, its size at 2, its code at 6. */
  function Meaning(s: seq<byte>, code: uint32): Dispatched {
    if |s| < 10 || Num(s, 0, 2) !in {0x8001, 0x8002} then Dispatched(0x9A, 0x97F, 0x4000_0008, 0, [])
    else
      Widths();
      var raw: uint32 := Num(s, 6, 4);
      if Num(s, 2, 4) != |s| then Dispatched(0x142, raw, 0x4000_0008, 0, [])
      else if raw != 0 then Dispatched(Cleaned(raw), raw, 0x4000_0008, 0, s[10..])
      else BodyMeaning(s, code, Num(s, 0, 2))
  }

  lemma HeaderInNumbers(s: seq<byte>)
    ensures ParseHeader(s).Ok? <==> |s| >= 10 && Num(s, 0, 2) in {0x8001, 0x8002}
    ensures ParseHeader(s).Ok? ==>
              ParseHeader(s) == Ok(Header(Num(s, 0, 2), Num(s, 2, 4), Num(s, 6, 4)), s[10..])
  {
    assert s[0..] == s;
    Uint16Agrees(s, 0);
    if |s| >= 2 {
      Uint32Agrees(s, 2);
      if |s| >= 6 {
        Uint32Agrees(s, 6);
      }
    }
  }

  lemma BodyInNumbers(s: seq<byte>, code: uint32, tag: uint16)
    requires |s| >= 10 && tag in {0x8001, 0x8002}
    ensures InterpretBody(s[10..], code, tag) == BodyMeaning(s, code, tag)
  {
    Uint32Agrees(s, 10);
    if |s| >= 14 {
      Uint32Agrees(s, 14);
    }
  }

  /** For every response and every command: result, raw code, handle, parameter size and remaining bytes. */
  lemma InterpretInNumbers(s: seq<byte>, code: uint32)
    ensures Interpret(s, code) == Meaning(s, code)
  {
    HeaderInNumbers(s);
    if ParseHeader(s).Ok? {
      BodyInNumbers(s, code, Num(s, 0, 2));
    }
  }

  // ----- What a TPM sends on success

  datatype Success = Success(tag: uint16, handle: uint32, paramSize: uint32, body: seq<byte>)

  function HandlePart(x: Success, code: uint32): seq<byte> {
    if ReturnsHandle(code) then BE(4, x.handle) else []
  }

  function SizePart(x: Success): seq<byte> {
    if x.tag == TPM_ST_SESSIONS then BE(4, x.paramSize) else []
  }

  function SuccessSize(x: Success, code: uint32): nat {
    10 + |HandlePart(x, code)| + |SizePart(x)| + |x.body|
  }

  function SuccessBytes(x: Success, code: uint32): seq<byte>
    requires SuccessSize(x, code) < 0x1_0000_0000
  {
    PutAll(HeaderFields(Header(x.tag, SuccessSize(x, code), TPM_RC_SUCCESS)),
           HandlePart(x, code) + (SizePart(x) + x.body))
  }

  /** Fields that are absent have the value the dispatcher gives them. */
  predicate SuccessOk(x: Success, code: uint32) {
    && (x.tag == TPM_ST_SESSIONS || (x.tag == TPM_ST_NO_SESSIONS && x.paramSize == 0))
    && (if ReturnsHandle(code) then x.handle != 0 && x.handle != TPM_RH_UNASSIGNED else x.handle == TPM_RH_UNASSIGNED)
    && SuccessSize(x, code) < 0x1_0000_0000
  }

  function Report(x: Success): Dispatched {
    Dispatched(TPM_RC_SUCCESS, TPM_RC_SUCCESS, x.handle, x.paramSize, x.body)
  }

  lemma BodyIsUnderstood(x: Success, code: uint32)
    requires SuccessOk(x, code)
    ensures InterpretBody(HandlePart(x, code) + (SizePart(x) + x.body), code, x.tag) == Report(x)
  {
    Widths();
    UintRoundTrip(4, x.handle, SizePart(x) + x.body);
    UintRoundTrip(4, x.paramSize, x.body);
    assert [] + (SizePart(x) + x.body) == SizePart(x) + x.body && [] + x.body == x.body;
  }

  /** Every success response is understood: the handle and the parameter size are found where they
      are, and RespBytesLeft is what remains after them. */
  lemma SuccessIsUnderstood(x: Success, code: uint32)
    requires SuccessOk(x, code)
    ensures Interpret(SuccessBytes(x, code), code) == Report(x)
    ensures |x.body| == |SuccessBytes(x, code)| - 10 - (if ReturnsHandle(code) then 4 else 0)
                        - (if x.tag == TPM_ST_SESSIONS then 4 else 0)
  {
    HeaderRoundTrip(Header(x.tag, SuccessSize(x, code), TPM_RC_SUCCESS), HandlePart(x, code) + (SizePart(x) + x.body));
    BodyIsUnderstood(x, code);
  }

  lemma OnlyBodyIsUnderstood(s: seq<byte>, code: uint32, tag: uint16)
    requires tag == TPM_ST_SESSIONS || tag == TPM_ST_NO_SESSIONS
    requires InterpretBody(s, code, tag).rc == TPM_RC_SUCCESS
    ensures var d := InterpretBody(s, code, tag);
            var x := Success(tag, d.retHandle, d.paramSize, d.left);
            && s == HandlePart(x, code) + (SizePart(x) + x.body)
            && (SuccessSize(x, code) < 0x1_0000_0000 ==> SuccessOk(x, code))
  {
    PutOne();
  }

  /** Nothing else is: a response reported as a success of the TPM is the encoding of what was
      reported. */
  lemma OnlySuccessIsUnderstood(s: seq<byte>, code: uint32)
    requires |s| < 0x1_0000_0000
    requires Interpret(s, code).rc == TPM_RC_SUCCESS && Interpret(s, code).raw == TPM_RC_SUCCESS
    ensures exists x: Success :: SuccessOk(x, code) && s == SuccessBytes(x, code) && Interpret(s, code) == Report(x)
  {
    var h := ParseHeader(s);
    var d := Interpret(s, code);
    var x := Success(h.value.tag, d.retHandle, d.paramSize, d.left);
    OnlyBodyIsUnderstood(h.rest, code, h.value.tag);
    SizeOfPut(HeaderFields(h.value), h.rest);
    HeaderRoundTrip(h.value, h.rest);
    assert SuccessOk(x, code) && s == SuccessBytes(x, code) && d == Report(x);
  }

  /** The result of a response that carries a failure code is the cleaned code, and no handle is
      looked for even if cleaning leaves nothing of it. */
  lemma FailureIsCleaned(tag: uint16, raw: uint32, code: uint32, rest: seq<byte>)
    requires (tag == TPM_ST_SESSIONS || tag == TPM_ST_NO_SESSIONS) && raw != TPM_RC_SUCCESS
    requires 10 + |rest| < 0x1_0000_0000
    ensures Interpret(PutAll(HeaderFields(Header(tag, 10 + |rest|, raw)), rest), code)
            == Dispatched(Cleaned(raw), raw, TPM_RH_UNASSIGNED, 0, rest)
  {
    HeaderRoundTrip(Header(tag, 10 + |rest|, raw), rest);
  }

  // ----- The methods

  /** TSS_DEVICE, connected. */
  class Device {
    const comm: Comm
    var lastRawResponse: uint32

    constructor (comm: Comm)
      ensures this.comm == comm
    {
      this.comm := comm;
      lastRawResponse := 0;
    }
  }

  /** TSS_CMD_CONTEXT; RespBufPtr and RespBytesLeft are the cursor and budget of the unmarshallers. */
  class CmdContext {
    const paramBuffer: array<byte>
    const cmdBuffer: array<byte>
    const respBuffer: array<byte>
    const respPtr: Cursor
    const respLeft: Budget
    var paramSize: uint32
    var cmdSize: uint32
    var respSize: uint32
    var retHandle: uint32
    var respParamSize: uint32

    predicate Valid()
      reads this
    {
      && paramBuffer.Length == cmdBuffer.Length == MAX_COMMAND_BUFFER && respBuffer.Length == MAX_RESPONSE_BUFFER
      && cmdBuffer != paramBuffer && respBuffer != cmdBuffer && respBuffer != paramBuffer
      && respPtr.data == respBuffer && paramSize <= MAX_COMMAND_BUFFER && respSize <= MAX_RESPONSE_BUFFER
    }

    constructor ()
      ensures Valid() && paramSize == 0
      ensures fresh(paramBuffer) && fresh(cmdBuffer) && fresh(respBuffer) && fresh(respPtr) && fresh(respLeft)
    {
      paramBuffer := new byte[MAX_COMMAND_BUFFER];
      cmdBuffer := new byte[MAX_COMMAND_BUFFER];
      var response := new byte[MAX_RESPONSE_BUFFER];
      respBuffer := response;
      respPtr := new Cursor(response, 0);
      respLeft := new Budget(0);
      paramSize, cmdSize, respSize, retHandle, respParamSize := 0, 0, 0, 0, 0;
    }

    method Reset()
      requires Valid()
      modifies `respParamSize, `retHandle, respPtr
      ensures Valid() && respPtr.pos == 0 && retHandle == TPM_RH_UNASSIGNED && respParamSize == 0
    {
      respPtr.pos := 0;
      respParamSize := 0;
      retHandle := TPM_RH_UNASSIGNED;
    }
  }

  /** The part of TSS_DispatchCmd after the response has arrived. */
  method ReadResponse(tpm: Device, cmdCode: uint32, ctx: CmdContext) returns (result: uint32)
    requires ctx.Valid() && ctx.respPtr.pos == 0 && ctx.retHandle == TPM_RH_UNASSIGNED && ctx.respParamSize == 0
    modifies tpm`lastRawResponse, ctx`retHandle, ctx`respParamSize, ctx.respPtr, ctx.respLeft
    ensures Reported(tpm, ctx, result, Interpret(ctx.respBuffer[..ctx.respSize], cmdCode))
  {
    ctx.respLeft.left := ctx.respSize;
    tpm.lastRawResponse := NOT_USED;
    assert Rest(ctx.respPtr, ctx.respLeft) == ctx.respBuffer[..ctx.respSize];
    var rc, header := UnmarshalHeader(ctx.respPtr, ctx.respLeft);
    if rc != TPM_RC_SUCCESS {
      result := TPM_RC_INSUFFICIENT;
    } else {
      result := ReadAfterHeader(tpm, cmdCode, ctx, header);
    }
  }

  method ReadAfterHeader(tpm: Device, cmdCode: uint32, ctx: CmdContext, header: Header) returns (result: uint32)
    requires Readable(ctx.respPtr, ctx.respLeft) && ctx.retHandle == TPM_RH_UNASSIGNED && ctx.respParamSize == 0
    modifies tpm`lastRawResponse, ctx`retHandle, ctx`respParamSize, ctx.respPtr, ctx.respLeft
    ensures Reported(tpm, ctx, result,
                     InterpretAfter(header, ctx.respSize, old(Rest(ctx.respPtr, ctx.respLeft)), cmdCode))
  {
    tpm.lastRawResponse := header.raw;
    if ctx.respSize != header.size {
      result := TPM_RC_COMMAND_SIZE;
    } else if tpm.lastRawResponse == TPM_RC_SUCCESS {
      result := ReadResponseBody(cmdCode, header.tag, ctx);
    } else {
      result := Cleaned(tpm.lastRawResponse);
    }
  }

  method UnmarshalHeader(buffer: Cursor, size: Budget) returns (rc: uint32, target: Header)
    requires Readable(buffer, size)
    modifies buffer, size
    ensures Read(buffer, size, ParseHeader(old(Rest(buffer, size))), rc, target)
  {
    target := Header(0, 0, 0);
    var tag, expectedSize, raw;
    rc, tag := UnmarshalUint16(buffer, size);
    if rc != TPM_RC_SUCCESS { return; }
    if tag != TPM_ST_NO_SESSIONS && tag != TPM_ST_SESSIONS { rc := TPM_RC_BAD_TAG; return; }
    rc, expectedSize := UnmarshalUint32(buffer, size);
    if rc != TPM_RC_SUCCESS { return; }
    rc, raw := UnmarshalUint32(buffer, size);
    target := Header(tag, expectedSize, raw);
  }

  method ReadResponseBody(cmdCode: uint32, tag: uint16, ctx: CmdContext) returns (result: uint32)
    requires Readable(ctx.respPtr, ctx.respLeft) && ctx.retHandle == TPM_RH_UNASSIGNED && ctx.respParamSize == 0
    modifies ctx`retHandle, ctx`respParamSize, ctx.respPtr, ctx.respLeft
    ensures var d := InterpretBody(old(Rest(ctx.respPtr, ctx.respLeft)), cmdCode, tag);
            && result == d.rc && ctx.retHandle == d.retHandle && ctx.respParamSize == d.paramSize
            && (result == TPM_RC_SUCCESS ==>
                  Readable(ctx.respPtr, ctx.respLeft) && Rest(ctx.respPtr, ctx.respLeft) == d.left)
  {
    var rc, x;
    if ReturnsHandle(cmdCode) {
      rc, x := UnmarshalUint32(ctx.respPtr, ctx.respLeft);
      if rc != TPM_RC_SUCCESS { return TPM_RC_INSUFFICIENT; }
      ctx.retHandle := x;
      if ctx.retHandle == 0 || ctx.retHandle == TPM_RH_UNASSIGNED { return TPM_RC_COMMAND_CODE; }
    }
    if tag == TPM_ST_SESSIONS {
      rc, x := UnmarshalUint32(ctx.respPtr, ctx.respLeft);
      if rc != TPM_RC_SUCCESS { return TPM_RC_INSUFFICIENT; }
      ctx.respParamSize := x;
    }
    result := TPM_RC_SUCCESS;
  }

  ghost predicate Reported(tpm: Device, ctx: CmdContext, result: uint32, d: Dispatched)
    reads tpm, ctx, ctx.respPtr, ctx.respLeft, ctx.respPtr.data
  {
    && result == d.rc && tpm.lastRawResponse == d.raw
    && ctx.retHandle == d.retHandle && ctx.respParamSize == d.paramSize
    && (result == TPM_RC_SUCCESS ==> Readable(ctx.respPtr, ctx.respLeft) && Rest(ctx.respPtr, ctx.respLeft) == d.left)
  }

  /** The bytes that TSS_DispatchCmd hands to the transport. */
  ghost function Outgoing(cmdCode: uint32, handles: array?<uint32>, numHandles: int, sessions: array?<AuthCommand>,
                          numSessions: int, ctx: CmdContext): seq<byte>
    requires ctx.Valid()
    requires handles != null ==> numHandles <= handles.Length
    requires sessions != null ==> numSessions <= sessions.Length
    reads ctx, ctx.paramBuffer, if handles == null then {} else {handles}, if sessions == null then {} else {sessions}
  {
    if Rejected(cmdCode, handles, numHandles, sessions, numSessions, ctx.paramBuffer, ctx.paramSize, ctx.cmdBuffer,
                MAX_COMMAND_BUFFER) then []
    else CommandBytes(Described(cmdCode, handles, numHandles, sessions, numSessions, ctx.paramBuffer, ctx.paramSize))
  }

  /** The memory that building needs: none beyond the buffer, unless the size of the authorization area
      is patched where there was no room for it. */
  ghost predicate Buildable(c: CommandData) {
    ClaimedSize(c) < 0x1_0000_0000
    && (Short(c, MAX_COMMAND_BUFFER) ==> AuthPlace(c, MAX_COMMAND_BUFFER) + 4 <= MAX_COMMAND_BUFFER)
  }

  /** What building leaves: the claimed size, also if that is more than the buffer holds, and what fitted. */
  ghost predicate Built(ctx: CmdContext, c: CommandData, mem: seq<byte>)
    reads ctx, ctx.cmdBuffer
  {
    var e := EmitAll(Buffer(mem, 0, Some(MAX_COMMAND_BUFFER)), CommandFields(c));
    && ctx.cmdSize == ClaimedSize(c)
    && e.Buffer? && ctx.cmdBuffer[..] == Stray(e, c, MAX_COMMAND_BUFFER).mem
  }

  lemma BuiltWhole(ctx: CmdContext, c: CommandData, mem: seq<byte>)
    requires Built(ctx, c, mem) && |CommandBytes(c)| <= MAX_COMMAND_BUFFER == |mem|
    ensures ctx.cmdSize <= |ctx.cmdBuffer[..]|
    ensures ctx.cmdBuffer[..ctx.cmdSize] == CommandBytes(c)
  {
    ClaimIsTrue(c);
    FittingCommand(mem, MAX_COMMAND_BUFFER, c);
  }

  lemma FittingIsBuildable(c: CommandData)
    requires |CommandBytes(c)| <= MAX_COMMAND_BUFFER
    ensures Buildable(c)
  {
    ClaimIsTrue(c);
    FittingCommand(seq(MAX_COMMAND_BUFFER, _ => 0), MAX_COMMAND_BUFFER, c);
  }

  /** Resets the context and builds the command in it. */
  method BuildInto(cmdCode: uint32, handles: array?<uint32>, numHandles: int, sessions: array?<AuthCommand>,
                   numSessions: int, ctx: CmdContext)
    requires ctx.Valid()
    requires handles != null ==> numHandles <= handles.Length
    requires sessions != null ==> numSessions <= sessions.Length
    requires sessions != null ==> forall i :: 0 <= i < numSessions ==> AuthSized(sessions[i])
    requires Rejected(cmdCode, handles, numHandles, sessions, numSessions, ctx.paramBuffer, ctx.paramSize,
                      ctx.cmdBuffer, MAX_COMMAND_BUFFER) ||
             Buildable(Described(cmdCode, handles, numHandles, sessions, numSessions, ctx.paramBuffer, ctx.paramSize))
    modifies ctx`cmdSize, ctx`respParamSize, ctx`retHandle, ctx.respPtr, ctx.cmdBuffer
    ensures ctx.Valid() && ctx.respPtr.pos == 0 && ctx.retHandle == TPM_RH_UNASSIGNED && ctx.respParamSize == 0
    ensures if old(Rejected(cmdCode, handles, numHandles, sessions, numSessions, ctx.paramBuffer, ctx.paramSize,
                            ctx.cmdBuffer, MAX_COMMAND_BUFFER)) then
              ctx.cmdSize == 0 && ctx.cmdBuffer[..] == old(ctx.cmdBuffer[..])
            else
              Built(ctx, old(Described(cmdCode, handles, numHandles, sessions, numSessions, ctx.paramBuffer,
                                       ctx.paramSize)), old(ctx.cmdBuffer[..]))
  {
    ctx.Reset();
    ctx.cmdSize := BuildCommand(cmdCode, handles, numHandles, sessions, numSessions, ctx.paramBuffer, ctx.paramSize,
                                ctx.cmdBuffer, MAX_COMMAND_BUFFER);
  }

  /** The same for a command that fits the buffer. */
  method BuildFitting(cmdCode: uint32, handles: array?<uint32>, numHandles: int, sessions: array?<AuthCommand>,
                      numSessions: int, ctx: CmdContext)
    requires ctx.Valid()
    requires handles != null ==> numHandles <= handles.Length
    requires sessions != null ==> numSessions <= sessions.Length
    requires sessions != null ==> forall i :: 0 <= i < numSessions ==> AuthSized(sessions[i])
    requires |Outgoing(cmdCode, handles, numHandles, sessions, numSessions, ctx)| <= MAX_COMMAND_BUFFER
    modifies ctx`cmdSize, ctx`respParamSize, ctx`retHandle, ctx.respPtr, ctx.cmdBuffer
    ensures ctx.Valid() && ctx.cmdSize <= MAX_COMMAND_BUFFER
    ensures ctx.respPtr.pos == 0 && ctx.retHandle == TPM_RH_UNASSIGNED && ctx.respParamSize == 0
    ensures ctx.cmdBuffer[..ctx.cmdSize] == old(Outgoing(cmdCode, handles, numHandles, sessions, numSessions, ctx))
  {
    ghost var rejected := Rejected(cmdCode, handles, numHandles, sessions, numSessions, ctx.paramBuffer,
                                   ctx.paramSize, ctx.cmdBuffer, MAX_COMMAND_BUFFER);
    ghost var c := Described(cmdCode, handles, numHandles, sessions, numSessions, ctx.paramBuffer, ctx.paramSize);
    ghost var mem := ctx.cmdBuffer[..];
    if !rejected { FittingIsBuildable(c); }
    BuildInto(cmdCode, handles, numHandles, sessions, numSessions, ctx);
    if !rejected { BuiltWhole(ctx, c, mem); }
  }

  /** TSS_SendCommand. */
  method SendCommand(tpm: Device, cmdBuffer: array<byte>, cmdSize: uint32, respBuffer: array<byte>, capacity: uint32)
    returns (result: int, respSize: uint32)
    requires tpm.comm.Valid() && cmdSize <= cmdBuffer.Length && capacity <= respBuffer.Length
    requires respBuffer != tpm.comm.socket.recvBytes && respBuffer != cmdBuffer
    modifies respBuffer, tpm.comm, tpm.comm.socket, tpm.comm.socket.net
    ensures tpm.comm.Valid() && respSize <= capacity
    ensures var s := Submit(old(LinkOf(tpm.comm.socket)), cmdBuffer[..cmdSize], capacity);
            && LinkOf(tpm.comm.socket) == s.link && (result == 0 <==> s.Done?)
            && (s.Done? ==> respBuffer[..respSize] == s.value)
  {
    result, respSize := tpm.comm.SubmitCommand(cmdBuffer, cmdSize, respBuffer, capacity);
  }

  /** TSS_DispatchCmd. */
  method DispatchCmd(tpm: Device, cmdCode: uint32, handles: array?<uint32>, numHandles: int,
                     sessions: array?<AuthCommand>, numSessions: int, ctx: CmdContext)
    returns (result: uint32)
    requires tpm.comm.Valid() && ctx.Valid()
    requires ctx.respBuffer != tpm.comm.socket.recvBytes && ctx.cmdBuffer != tpm.comm.socket.recvBytes
    requires handles != null ==> numHandles <= handles.Length
    requires sessions != null ==> numSessions <= sessions.Length
    requires sessions != null ==> forall i :: 0 <= i < numSessions ==> AuthSized(sessions[i])
    requires |Outgoing(cmdCode, handles, numHandles, sessions, numSessions, ctx)| <= 4096
    modifies tpm`lastRawResponse, ctx, ctx.cmdBuffer, ctx.respBuffer, ctx.respPtr, ctx.respLeft,
             tpm.comm, tpm.comm.socket, tpm.comm.socket.net
    ensures tpm.comm.Valid() && ctx.Valid()
    ensures var cmd := old(Outgoing(cmdCode, handles, numHandles, sessions, numSessions, ctx));
            Answered(tpm, ctx, cmdCode, result, Submit(old(LinkOf(tpm.comm.socket)), cmd, 4096),
                        old(tpm.lastRawResponse))
  {
    ghost var cmd := Outgoing(cmdCode, handles, numHandles, sessions, numSessions, ctx);
    ghost var s := Submit(LinkOf(tpm.comm.socket), cmd, 4096);
    var res := Transmit(tpm, cmdCode, handles, numHandles, sessions, numSessions, ctx);
    result := Receive(tpm, cmdCode, res, ctx, s);
  }

  /** The part of TSS_DispatchCmd after the submission. */
  method Receive(tpm: Device, cmdCode: uint32, res: int, ctx: CmdContext, ghost s: Step<seq<byte>>)
    returns (result: uint32)
    requires tpm.comm.Valid() && ctx.Valid()
    requires ctx.respPtr.pos == 0 && ctx.retHandle == TPM_RH_UNASSIGNED && ctx.respParamSize == 0
    requires LinkOf(tpm.comm.socket) == s.link && (res == 0 <==> s.Done?)
    requires s.Done? ==> ctx.respBuffer[..ctx.respSize] == s.value
    modifies tpm`lastRawResponse, ctx`retHandle, ctx`respParamSize, ctx.respPtr, ctx.respLeft
    ensures tpm.comm.Valid() && ctx.Valid()
    ensures Answered(tpm, ctx, cmdCode, result, s, old(tpm.lastRawResponse))
  {
    if res != 0 {
      result := TPM_RC_COMMAND_CODE;
    } else {
      result := ReadResponse(tpm, cmdCode, ctx);
    }
    assert LinkOf(tpm.comm.socket) == old(LinkOf(tpm.comm.socket));
  }

  /** The part of TSS_DispatchCmd up to the arrival of the response. */
  method Transmit(tpm: Device, cmdCode: uint32, handles: array?<uint32>, numHandles: int,
                  sessions: array?<AuthCommand>, numSessions: int, ctx: CmdContext)
    returns (res: int)
    requires tpm.comm.Valid() && ctx.Valid()
    requires ctx.respBuffer != tpm.comm.socket.recvBytes && ctx.cmdBuffer != tpm.comm.socket.recvBytes
    requires handles != null ==> numHandles <= handles.Length
    requires sessions != null ==> numSessions <= sessions.Length
    requires sessions != null ==> forall i :: 0 <= i < numSessions ==> AuthSized(sessions[i])
    requires |Outgoing(cmdCode, handles, numHandles, sessions, numSessions, ctx)| <= MAX_COMMAND_BUFFER
    modifies ctx, ctx.cmdBuffer, ctx.respBuffer, ctx.respPtr, tpm.comm, tpm.comm.socket, tpm.comm.socket.net
    ensures tpm.comm.Valid() && ctx.Valid()
    ensures ctx.respPtr.pos == 0 && ctx.retHandle == TPM_RH_UNASSIGNED && ctx.respParamSize == 0
    ensures var s := Submit(old(LinkOf(tpm.comm.socket)),
                            old(Outgoing(cmdCode, handles, numHandles, sessions, numSessions, ctx)),
                            MAX_RESPONSE_BUFFER);
            && LinkOf(tpm.comm.socket) == s.link && (res == 0 <==> s.Done?)
            && (s.Done? ==> ctx.respBuffer[..ctx.respSize] == s.value)
  {
    ghost var before := LinkOf(tpm.comm.socket);
    ghost var cmd := Outgoing(cmdCode, handles, numHandles, sessions, numSessions, ctx);
    BuildFitting(cmdCode, handles, numHandles, sessions, numSessions, ctx);
    assert LinkOf(tpm.comm.socket) == before && ctx.cmdBuffer[..ctx.cmdSize] == cmd;
    var respSize;
    res, respSize := SendCommand(tpm, ctx.cmdBuffer, ctx.cmdSize, ctx.respBuffer, MAX_RESPONSE_BUFFER);
    ghost var after := LinkOf(tpm.comm.socket);
    ctx.respSize := respSize;
    assert LinkOf(tpm.comm.socket) == after;
  }

  /** The outcome of a dispatch by what became of its submission. */
  ghost predicate Answered(tpm: Device, ctx: CmdContext, cmdCode: uint32, result: uint32, s: Step<seq<byte>>,
                            raw: uint32)
    reads tpm, tpm.comm.socket, tpm.comm.socket.net, tpm.comm.socket.recvBytes, ctx, ctx.respPtr, ctx.respLeft,
          ctx.respPtr.data
  {
    && LinkOf(tpm.comm.socket) == s.link
    && match s
       case Stop(_) => result == TPM_RC_COMMAND_CODE && tpm.lastRawResponse == raw
       case Done(reply, _) => Reported(tpm, ctx, result, Interpret(reply, cmdCode))
  }
}
