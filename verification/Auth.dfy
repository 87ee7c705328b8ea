/** TPMS_AUTH_COMMAND: the authorization of one session in a command. */
module Auth {
  import opened Bytes
  import opened Wire
  import opened Algorithms
  import opened Blobs
  import opened Codec

  const TPM_RS_PW: uint32 := 0x4000_0009
  const HMAC_SESSION_FIRST: uint32 := 0x0200_0000
  const POLICY_SESSION_FIRST: uint32 := 0x0300_0000
  const MAX_ACTIVE_SESSIONS := 64
  const SESSION_RESERVED: byte := 0x18

  datatype AuthCommand = AuthCommand(sessionHandle: uint32, nonce: Blob, sessionAttributes: byte, hmac: Blob)

  predicate IsAuthSession(handle: uint32, flag: bool) {
    if handle == TPM_RS_PW then flag
    else
      || HMAC_SESSION_FIRST <= handle <= HMAC_SESSION_FIRST + MAX_ACTIVE_SESSIONS - 1
      || POLICY_SESSION_FIRST <= handle <= POLICY_SESSION_FIRST + MAX_ACTIVE_SESSIONS - 1
  }

  predicate AuthOk(x: AuthCommand) {
    && IsAuthSession(x.sessionHandle, true) && And(x.sessionAttributes, SESSION_RESERVED) == 0
    && AuthSized(x)
  }

  /** The array bounds of the C structure. */
  predicate AuthSized(x: AuthCommand) {
    |x.nonce| <= SIZEOF_TPMU_HA && |x.hmac| <= SIZEOF_TPMU_HA
  }

  function AuthFields(x: AuthCommand): seq<Field> {
    [BE(4, x.sessionHandle)] + BlobFields(x.nonce) + [BE(1, x.sessionAttributes)] + BlobFields(x.hmac)
  }

  function ParseAuthSession(s: seq<byte>, flag: bool): (p: Parsed<uint32>)
    ensures p.Ok? ==> IsAuthSession(p.value, flag) && s == PutAll([BE(4, p.value)], p.rest)
    ensures p.Err? ==> p.code != TPM_RC_SUCCESS
  {
    var (handle, s1) :- ParseUint32(s);
    if IsAuthSession(handle, flag) then Ok(handle, s1) else Err(TPM_RC_VALUE)
  }

  function ParseSessionAttributes(s: seq<byte>): (p: Parsed<byte>)
    ensures p.Ok? ==> And(p.value, SESSION_RESERVED) == 0 && s == PutAll([BE(1, p.value)], p.rest)
    ensures p.Err? ==> p.code != TPM_RC_SUCCESS
  {
    var (x, s1) :- ParseUint8(s);
    if And(x, SESSION_RESERVED) == 0 then Ok(x, s1) else Err(TPM_RC_RESERVED_BITS)
  }

  function ParseAuth(s: seq<byte>): (p: Parsed<AuthCommand>)
    ensures p.Ok? ==> AuthOk(p.value) && s == PutAll(AuthFields(p.value), p.rest)
    ensures p.Err? ==> p.code != TPM_RC_SUCCESS
  {
    var (sessionHandle, s1) :- ParseAuthSession(s, true);
    var (nonce, s2) :- ParseBlob(s1, SIZEOF_TPMU_HA);
    var (attributes, s3) :- ParseSessionAttributes(s2);
    var (hmac, s4) :- ParseBlob(s3, SIZEOF_TPMU_HA);
    Put4([BE(4, sessionHandle)], BlobFields(nonce), [BE(1, attributes)], BlobFields(hmac), s4);
    Ok(AuthCommand(sessionHandle, nonce, attributes, hmac), s4)
  }

  lemma AuthRoundTrip(x: AuthCommand, rest: seq<byte>)
    requires AuthOk(x)
    ensures ParseAuth(PutAll(AuthFields(x), rest)) == Ok(x, rest)
  {
    Put4([BE(4, x.sessionHandle)], BlobFields(x.nonce), [BE(1, x.sessionAttributes)], BlobFields(x.hmac), rest);
    PutOne();
    OtherUintRoundTrips();
    BlobRoundTrip(x.hmac, SIZEOF_TPMU_HA, rest);
    var s2 := BE(1, x.sessionAttributes) + PutAll(BlobFields(x.hmac), rest);
    BlobRoundTrip(x.nonce, SIZEOF_TPMU_HA, s2);
  }

  lemma AuthInverse()
    ensures Inverse(ParseAuth, AuthFields, AuthOk)
  {
    forall x: AuthCommand, rest: seq<byte> | AuthOk(x)
      ensures ParseAuth(PutAll(AuthFields(x), rest)) == Ok(x, rest)
    {
      AuthRoundTrip(x, rest);
    }
  }

  /** The unmarshaller accepts exactly the encodings of well-formed authorizations. */
  lemma AuthAcceptsExactly(s: seq<byte>)
    ensures ParseAuth(s).Ok?
            <==> exists x: AuthCommand, rest: seq<byte> :: AuthOk(x) && s == PutAll(AuthFields(x), rest)
  {
    AuthInverse();
    AcceptsExactly(ParseAuth, AuthFields, AuthOk, s);
  }

  /** What follows an accepted authorization influences neither its value nor its extent. */
  lemma AuthIsLocal(s: seq<byte>, extra: seq<byte>)
    requires ParseAuth(s).Ok?
    ensures ParseAuth(s + extra) == Ok(ParseAuth(s).value, ParseAuth(s).rest + extra)
  {
    AuthInverse();
    Local(ParseAuth, AuthFields, AuthOk, s, extra);
  }

  /** No encoding is a prefix of another. */
  lemma AuthPrefixFree(x: AuthCommand, r: seq<byte>, y: AuthCommand, t: seq<byte>)
    requires AuthOk(x) && AuthOk(y) && PutAll(AuthFields(x), r) == PutAll(AuthFields(y), t)
    ensures x == y && r == t
  {
    AuthInverse();
    PrefixFree(ParseAuth, AuthFields, AuthOk, x, r, y, t);
  }

  lemma AuthSize(x: AuthCommand)
    ensures Size(AuthFields(x)) == 9 + |x.nonce| + |x.hmac|
  {
    Size4([BE(4, x.sessionHandle)], BlobFields(x.nonce), [BE(1, x.sessionAttributes)], BlobFields(x.hmac));
    EmitOne(NoBuffer, BE(4, x.sessionHandle));
    EmitOne(NoBuffer, BE(1, x.sessionAttributes));
    BlobSize(x.nonce);
    BlobSize(x.hmac);
  }

  method MarshalAuth(source: AuthCommand, buffer: Cursor?, size: Budget?) returns (result: uint16)
    requires Room(View(buffer, size), Size(AuthFields(source)))
    modifies Frame(buffer, size)
    ensures Wrote(buffer, size, AuthFields(source), result)
  {
    Emit4(View(buffer, size), [BE(4, source.sessionHandle)], BlobFields(source.nonce),
          [BE(1, source.sessionAttributes)], BlobFields(source.hmac));
    result := 0;
    var n := MarshalUint32(source.sessionHandle, buffer, size); result := Add16(result, n);
    n := MarshalBlob(source.nonce, buffer, size); result := Add16(result, n);
    n := MarshalUint8(source.sessionAttributes, buffer, size); result := Add16(result, n);
    n := MarshalBlob(source.hmac, buffer, size); result := Add16(result, n);
  }

  method UnmarshalAuth(buffer: Cursor, size: Budget) returns (rc: uint32, target: AuthCommand)
    requires Readable(buffer, size)
    modifies buffer, size
    ensures Read(buffer, size, ParseAuth(old(Rest(buffer, size))), rc, target)
  {
    target := AuthCommand(0, [], 0, []);
    var sessionHandle, nonce, attributes, hmac;
    rc, sessionHandle := UnmarshalUint32(buffer, size);
    if rc != TPM_RC_SUCCESS { return; }
    if !IsAuthSession(sessionHandle, true) { rc := TPM_RC_VALUE; return; }
    rc, nonce := UnmarshalBlob(buffer, size, SIZEOF_TPMU_HA);
    if rc != TPM_RC_SUCCESS { return; }
    rc, attributes := UnmarshalUint8(buffer, size);
    if rc != TPM_RC_SUCCESS { return; }
    if And(attributes, SESSION_RESERVED) != 0 { rc := TPM_RC_RESERVED_BITS; return; }
    rc, hmac := UnmarshalBlob(buffer, size, SIZEOF_TPMU_HA);
    target := AuthCommand(sessionHandle, nonce, attributes, hmac);
  }
}
