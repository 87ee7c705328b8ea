/** TPM2B_PUBLIC and everything reachable from it. */
module PublicArea {
  import opened Bytes
  import opened Wire
  import opened Algorithms
  import opened Blobs
  import opened Codec
  import opened Schemes

  const MAX_RSA_KEY_BYTES := 256
  const MAX_ECC_KEY_BYTES := 32
  const OBJECT_RESERVED: uint32 := 0xFFF8F309

  datatype EccPoint = EccPoint(x: Blob, y: Blob)
  datatype RsaParms = RsaParms(symmetric: SymDefObject, scheme: AsymScheme, keyBits: uint16, exponent: uint32)
  datatype EccParms = EccParms(symmetric: SymDefObject, scheme: AsymScheme, curveId: uint16, kdf: KdfScheme)

  /** What RSA and ECC parameters start with. */
  datatype KeySchemes = KeySchemes(symmetric: SymDefObject, scheme: AsymScheme)

  datatype PublicParms =
    | KeyedHashDetail(keyedHash: KeyedHashScheme)
    | SymDetail(sym: SymDefObject)
    | RsaDetail(rsa: RsaParms)
    | EccDetail(ecc: EccParms)

  datatype PublicId =
    | DigestId(digest: Blob)  // the keyedHash and sym members have one type
    | RsaId(modulus: Blob)
    | EccId(point: EccPoint)

  datatype Public = Public(kind: uint16, nameAlg: uint16, objectAttributes: uint32, authPolicy: Blob,
                           parameters: PublicParms, unique: PublicId)

  const NO_PUBLIC := Public(0, 0, 0, [], SymDetail(SymDefObject(0, 0, 0)), DigestId([]))

  type Public2B = Sized<Public>

  // ----- Which values are well formed

  predicate KeySchemesOk(x: KeySchemes, kind: Tpmi) {
    SymDefObjectOk(x.symmetric, true) && AsymSchemeOk(x.scheme, kind)
  }

  predicate RsaParmsOk(x: RsaParms) {
    && SymDefObjectOk(x.symmetric, true) && AsymSchemeOk(x.scheme, AlgRsaScheme(true))
    && Admits(RsaKeyBits, x.keyBits)
  }

  predicate EccParmsOk(x: EccParms) {
    && SymDefObjectOk(x.symmetric, true) && AsymSchemeOk(x.scheme, AlgEccScheme(true))
    && Admits(EccCurve, x.curveId) && KdfSchemeOk(x.kdf, true)
  }

  predicate EccPointOk(x: EccPoint) {
    |x.x| <= MAX_ECC_KEY_BYTES && |x.y| <= MAX_ECC_KEY_BYTES
  }

  /** The union holds the member its selector names; an unknown selector names none. */
  predicate ParmsSelected(selector: uint16, x: PublicParms) {
    && (selector == TPM_ALG_KEYEDHASH ==> x.KeyedHashDetail?)
    && (selector == TPM_ALG_SYMCIPHER ==> x.SymDetail?)
    && (selector == TPM_ALG_RSA ==> x.RsaDetail?)
    && (selector == TPM_ALG_ECC ==> x.EccDetail?)
  }

  predicate IdSelected(selector: uint16, x: PublicId) {
    && (selector == TPM_ALG_KEYEDHASH || selector == TPM_ALG_SYMCIPHER ==> x.DigestId?)
    && (selector == TPM_ALG_RSA ==> x.RsaId?)
    && (selector == TPM_ALG_ECC ==> x.EccId?)
  }

  predicate PublicParmsOk(selector: uint16, x: PublicParms) {
    match x
    case KeyedHashDetail(keyedHash) => selector == TPM_ALG_KEYEDHASH && KeyedHashSchemeOk(keyedHash, true)
    case SymDetail(sym) => selector == TPM_ALG_SYMCIPHER && SymDefObjectOk(sym, false)
    case RsaDetail(rsa) => selector == TPM_ALG_RSA && RsaParmsOk(rsa)
    case EccDetail(ecc) => selector == TPM_ALG_ECC && EccParmsOk(ecc)
  }

  predicate PublicIdOk(selector: uint16, x: PublicId) {
    match x
    case DigestId(digest) =>
      (selector == TPM_ALG_KEYEDHASH || selector == TPM_ALG_SYMCIPHER) && |digest| <= SIZEOF_TPMU_HA
    case RsaId(modulus) => selector == TPM_ALG_RSA && |modulus| <= MAX_RSA_KEY_BYTES
    case EccId(point) => selector == TPM_ALG_ECC && EccPointOk(point)
  }

  predicate PublicOk(x: Public, flag: bool) {
    && Admits(AlgPublic, x.kind) && Admits(AlgHash(flag), x.nameAlg)
    && And(x.objectAttributes, OBJECT_RESERVED) == 0
    && |x.authPolicy| <= SIZEOF_TPMU_HA
    && PublicParmsOk(x.kind, x.parameters) && PublicIdOk(x.kind, x.unique)
  }

  predicate Public2BOk(x: Public2B, flag: bool) {
    PublicOk(x.body, flag) && x.size == Size(PublicFields(x.body))
  }

  // ----- Their fields on the wire

  function EccPointFields(x: EccPoint): seq<Field> {
    BlobFields(x.x) + BlobFields(x.y)
  }

  function KeySchemesFields(x: KeySchemes): seq<Field> {
    SymDefObjectFields(x.symmetric) + AsymSchemeFields(x.scheme)
  }

  function RsaParmsFields(x: RsaParms): seq<Field> {
    SymDefObjectFields(x.symmetric) + AsymSchemeFields(x.scheme) + [BE(2, x.keyBits)] + [BE(4, x.exponent)]
  }

  function EccParmsFields(x: EccParms): seq<Field> {
    SymDefObjectFields(x.symmetric) + AsymSchemeFields(x.scheme) + [BE(2, x.curveId)] + KdfSchemeFields(x.kdf)
  }

  function PublicParmsFields(selector: uint16, x: PublicParms): seq<Field> {
    if selector == TPM_ALG_KEYEDHASH && x.KeyedHashDetail? then KeyedHashSchemeFields(x.keyedHash)
    else if selector == TPM_ALG_SYMCIPHER && x.SymDetail? then SymDefObjectFields(x.sym)
    else if selector == TPM_ALG_RSA && x.RsaDetail? then RsaParmsFields(x.rsa)
    else if selector == TPM_ALG_ECC && x.EccDetail? then EccParmsFields(x.ecc)
    else []
  }

  function PublicIdFields(selector: uint16, x: PublicId): seq<Field> {
    if (selector == TPM_ALG_KEYEDHASH || selector == TPM_ALG_SYMCIPHER) && x.DigestId? then BlobFields(x.digest)
    else if selector == TPM_ALG_RSA && x.RsaId? then BlobFields(x.modulus)
    else if selector == TPM_ALG_ECC && x.EccId? then EccPointFields(x.point)
    else []
  }

  function HeaderFields(x: Public): seq<Field> {
    [BE(2, x.kind)] + [BE(2, x.nameAlg)] + [BE(4, x.objectAttributes)]
  }

  function PublicFields(x: Public): seq<Field> {
    HeaderFields(x) + BlobFields(x.authPolicy) + PublicParmsFields(x.kind, x.parameters)
    + PublicIdFields(x.kind, x.unique)
  }

  function Public2BFields(x: Public2B): seq<Field> {
    [BE(2, x.size)] + PublicFields(x.body)
  }

  // ----- What the unmarshallers accept

  function ParseEccPoint(s: seq<byte>): (p: Parsed<EccPoint>)
    ensures p.Ok? ==> EccPointOk(p.value) && s == PutAll(EccPointFields(p.value), p.rest)
    ensures p.Err? ==> p.code != TPM_RC_SUCCESS
  {
    var (x, s1) :- ParseBlob(s, MAX_ECC_KEY_BYTES);
    var (y, s2) :- ParseBlob(s1, MAX_ECC_KEY_BYTES);
    Put2(BlobFields(x), BlobFields(y), s2);
    Ok(EccPoint(x, y), s2)
  }

  function ParseKeySchemes(s: seq<byte>, kind: Tpmi): (p: Parsed<KeySchemes>)
    ensures p.Ok? ==> KeySchemesOk(p.value, kind) && s == PutAll(KeySchemesFields(p.value), p.rest)
    ensures p.Err? ==> p.code != TPM_RC_SUCCESS
  {
    var (symmetric, s1) :- ParseSymDefObject(s, true);
    var (scheme, s2) :- ParseAsymScheme(s1, kind);
    Put2(SymDefObjectFields(symmetric), AsymSchemeFields(scheme), s2);
    Ok(KeySchemes(symmetric, scheme), s2)
  }

  function ParseRsaParms(s: seq<byte>): (p: Parsed<RsaParms>)
    ensures p.Ok? ==> RsaParmsOk(p.value) && s == PutAll(RsaParmsFields(p.value), p.rest)
    ensures p.Err? ==> p.code != TPM_RC_SUCCESS
  {
    var (keys, s2) :- ParseKeySchemes(s, AlgRsaScheme(true));
    var KeySchemes(symmetric, scheme) := keys;
    var (keyBits, s3) :- ParseTpmi(s2, RsaKeyBits);
    var (exponent, s4) :- ParseUint32(s3);
    Put3(KeySchemesFields(keys), [BE(2, keyBits)], [BE(4, exponent)], s4);
    Ok(RsaParms(symmetric, scheme, keyBits, exponent), s4)
  }

  function ParseEccParms(s: seq<byte>): (p: Parsed<EccParms>)
    ensures p.Ok? ==> EccParmsOk(p.value) && s == PutAll(EccParmsFields(p.value), p.rest)
    ensures p.Err? ==> p.code != TPM_RC_SUCCESS
  {
    var (keys, s2) :- ParseKeySchemes(s, AlgEccScheme(true));
    var KeySchemes(symmetric, scheme) := keys;
    var (curveId, s3) :- ParseTpmi(s2, EccCurve);
    var (kdf, s4) :- ParseKdfScheme(s3, true);
    Put3(KeySchemesFields(keys), [BE(2, curveId)], KdfSchemeFields(kdf), s4);
    Ok(EccParms(symmetric, scheme, curveId, kdf), s4)
  }

  function ParsePublicParms(s: seq<byte>, selector: uint16): (p: Parsed<PublicParms>)
    ensures p.Ok? ==> PublicParmsOk(selector, p.value) && s == PutAll(PublicParmsFields(selector, p.value), p.rest)
    ensures p.Err? ==> p.code != TPM_RC_SUCCESS
  {
    if selector == TPM_ALG_KEYEDHASH then
      var (keyedHash, s1) :- ParseKeyedHashScheme(s, true);
      Ok(KeyedHashDetail(keyedHash), s1)
    else if selector == TPM_ALG_SYMCIPHER then
      var (sym, s1) :- ParseSymDefObject(s, false);
      Ok(SymDetail(sym), s1)
    else if selector == TPM_ALG_RSA then
      var (rsa, s1) :- ParseRsaParms(s);
      Ok(RsaDetail(rsa), s1)
    else if selector == TPM_ALG_ECC then
      var (ecc, s1) :- ParseEccParms(s);
      Ok(EccDetail(ecc), s1)
    else Err(TPM_RC_SELECTOR)
  }

  function ParsePublicId(s: seq<byte>, selector: uint16): (p: Parsed<PublicId>)
    ensures p.Ok? ==> PublicIdOk(selector, p.value) && s == PutAll(PublicIdFields(selector, p.value), p.rest)
    ensures p.Err? ==> p.code != TPM_RC_SUCCESS
  {
    if selector == TPM_ALG_KEYEDHASH || selector == TPM_ALG_SYMCIPHER then
      var (digest, s1) :- ParseBlob(s, SIZEOF_TPMU_HA);
      Ok(DigestId(digest), s1)
    else if selector == TPM_ALG_RSA then
      var (modulus, s1) :- ParseBlob(s, MAX_RSA_KEY_BYTES);
      Ok(RsaId(modulus), s1)
    else if selector == TPM_ALG_ECC then
      var (point, s1) :- ParseEccPoint(s);
      Ok(EccId(point), s1)
    else Err(TPM_RC_SELECTOR)
  }

  /** Everything after the attributes. */
  function ParseAfterHeader(s: seq<byte>, kind: uint16, nameAlg: uint16, attributes: uint32): (p: Parsed<Public>)
    ensures p.Ok? ==> p.value.kind == kind && p.value.nameAlg == nameAlg && p.value.objectAttributes == attributes
    ensures p.Ok? ==> |p.value.authPolicy| <= SIZEOF_TPMU_HA && PublicParmsOk(kind, p.value.parameters)
                      && PublicIdOk(kind, p.value.unique)
    ensures p.Ok? ==> s == PutAll(BlobFields(p.value.authPolicy),
                                  PutAll(PublicParmsFields(kind, p.value.parameters),
                                         PutAll(PublicIdFields(kind, p.value.unique), p.rest)))
    ensures p.Err? ==> p.code != TPM_RC_SUCCESS
  {
    var (authPolicy, s1) :- ParseBlob(s, SIZEOF_TPMU_HA);
    var (parameters, s2) :- ParsePublicParms(s1, kind);
    var (unique, s3) :- ParsePublicId(s2, kind);
    Ok(Public(kind, nameAlg, attributes, authPolicy, parameters, unique), s3)
  }

  function ParsePublic(s: seq<byte>, flag: bool): (p: Parsed<Public>)
    ensures p.Ok? ==> PublicOk(p.value, flag) && s == PutAll(PublicFields(p.value), p.rest)
    ensures p.Err? ==> p.code != TPM_RC_SUCCESS
  {
    var (kind, s1) :- ParseTpmi(s, AlgPublic);
    var (nameAlg, s2) :- ParseTpmi(s1, AlgHash(flag));
    var (attributes, s3) :- ParseAttributes(s2, OBJECT_RESERVED);
    var (x, s4) :- ParseAfterHeader(s3, kind, nameAlg, attributes);
    Put3([BE(2, kind)], [BE(2, nameAlg)], [BE(4, attributes)], s3);
    Put4(HeaderFields(x), BlobFields(x.authPolicy), PublicParmsFields(kind, x.parameters),
         PublicIdFields(kind, x.unique), s4);
    Ok(x, s4)
  }

  function ParsePublic2B(s: seq<byte>, flag: bool): (p: Parsed<Public2B>)
    ensures p.Ok? ==> Public2BOk(p.value, flag) && s == PutAll(Public2BFields(p.value), p.rest)
    ensures p.Err? ==> p.code != TPM_RC_SUCCESS
  {
    var (size, s1) :- ParseUint16(s);
    if size == 0 then Err(TPM_RC_SIZE)
    else
      var body := ParsePublic(s1, flag);
      assert body.Ok? ==> |s1| - |body.rest| == Size(PublicFields(body.value)) by {
        if body.Ok? { SizeOfPut(PublicFields(body.value), body.rest); }
      }
      assert body.Ok? ==> PutAll([BE(2, size)] + PublicFields(body.value), body.rest) == s by {
        if body.Ok? { Put2([BE(2, size)], PublicFields(body.value), body.rest); }
      }
      CheckSize(size, |s1|, body)
  }

  // ----- Round trips

  lemma EccPointRoundTrip(x: EccPoint, rest: seq<byte>)
    requires EccPointOk(x)
    ensures ParseEccPoint(PutAll(EccPointFields(x), rest)) == Ok(x, rest)
  {
    Put2(BlobFields(x.x), BlobFields(x.y), rest);
    BlobRoundTrip(x.y, MAX_ECC_KEY_BYTES, rest);
    BlobRoundTrip(x.x, MAX_ECC_KEY_BYTES, PutAll(BlobFields(x.y), rest));
  }

  lemma RsaParmsRoundTrip(x: RsaParms, rest: seq<byte>)
    requires RsaParmsOk(x)
    ensures ParseRsaParms(PutAll(RsaParmsFields(x), rest)) == Ok(x, rest)
  {
    Put4(SymDefObjectFields(x.symmetric), AsymSchemeFields(x.scheme), [BE(2, x.keyBits)], [BE(4, x.exponent)], rest);
    PutOne();
    WordRoundTrips();
    OtherUintRoundTrips();
    var s3 := BE(4, x.exponent) + rest;
    var s2 := BE(2, x.keyBits) + s3;
    AsymSchemeRoundTrip(x.scheme, AlgRsaScheme(true), s2);
    SymDefObjectRoundTrip(x.symmetric, true, PutAll(AsymSchemeFields(x.scheme), s2));
  }

  lemma EccParmsRoundTrip(x: EccParms, rest: seq<byte>)
    requires EccParmsOk(x)
    ensures ParseEccParms(PutAll(EccParmsFields(x), rest)) == Ok(x, rest)
  {
    Put4(SymDefObjectFields(x.symmetric), AsymSchemeFields(x.scheme), [BE(2, x.curveId)], KdfSchemeFields(x.kdf), rest);
    PutOne();
    WordRoundTrips();
    KdfSchemeRoundTrip(x.kdf, true, rest);
    var s2 := BE(2, x.curveId) + PutAll(KdfSchemeFields(x.kdf), rest);
    AsymSchemeRoundTrip(x.scheme, AlgEccScheme(true), s2);
    SymDefObjectRoundTrip(x.symmetric, true, PutAll(AsymSchemeFields(x.scheme), s2));
  }

  lemma PublicParmsRoundTrip(selector: uint16, x: PublicParms, rest: seq<byte>)
    requires PublicParmsOk(selector, x)
    ensures ParsePublicParms(PutAll(PublicParmsFields(selector, x), rest), selector) == Ok(x, rest)
  {
    match x
    case KeyedHashDetail(keyedHash) => KeyedHashSchemeRoundTrip(keyedHash, true, rest);
    case SymDetail(sym) => SymDefObjectRoundTrip(sym, false, rest);
    case RsaDetail(rsa) => RsaParmsRoundTrip(rsa, rest);
    case EccDetail(ecc) => EccParmsRoundTrip(ecc, rest);
  }

  lemma PublicIdRoundTrip(selector: uint16, x: PublicId, rest: seq<byte>)
    requires PublicIdOk(selector, x)
    ensures ParsePublicId(PutAll(PublicIdFields(selector, x), rest), selector) == Ok(x, rest)
  {
    match x
    case DigestId(digest) => BlobRoundTrip(digest, SIZEOF_TPMU_HA, rest);
    case RsaId(modulus) => BlobRoundTrip(modulus, MAX_RSA_KEY_BYTES, rest);
    case EccId(point) => EccPointRoundTrip(point, rest);
  }

  lemma AfterHeaderRoundTrip(x: Public, rest: seq<byte>)
    requires |x.authPolicy| <= SIZEOF_TPMU_HA && PublicParmsOk(x.kind, x.parameters) && PublicIdOk(x.kind, x.unique)
    ensures ParseAfterHeader(PutAll(BlobFields(x.authPolicy),
                                    PutAll(PublicParmsFields(x.kind, x.parameters),
                                           PutAll(PublicIdFields(x.kind, x.unique), rest))),
                             x.kind, x.nameAlg, x.objectAttributes) == Ok(x, rest)
  {
    PublicIdRoundTrip(x.kind, x.unique, rest);
    var s2 := PutAll(PublicIdFields(x.kind, x.unique), rest);
    PublicParmsRoundTrip(x.kind, x.parameters, s2);
    BlobRoundTrip(x.authPolicy, SIZEOF_TPMU_HA, PutAll(PublicParmsFields(x.kind, x.parameters), s2));
  }

  lemma PublicRoundTrip(x: Public, flag: bool, rest: seq<byte>)
    requires PublicOk(x, flag)
    ensures ParsePublic(PutAll(PublicFields(x), rest), flag) == Ok(x, rest)
  {
    Put4(HeaderFields(x), BlobFields(x.authPolicy), PublicParmsFields(x.kind, x.parameters),
         PublicIdFields(x.kind, x.unique), rest);
    AfterHeaderRoundTrip(x, rest);
    var s3 := PutAll(BlobFields(x.authPolicy),
                     PutAll(PublicParmsFields(x.kind, x.parameters), PutAll(PublicIdFields(x.kind, x.unique), rest)));
    Put3([BE(2, x.kind)], [BE(2, x.nameAlg)], [BE(4, x.objectAttributes)], s3);
    PutOne();
    WordRoundTrips();
    OtherUintRoundTrips();
  }

  /** Every well-formed TPM2B_PUBLIC, of all four key types, reads back as itself. */
  lemma Public2BRoundTrip(x: Public2B, flag: bool, rest: seq<byte>)
    requires Public2BOk(x, flag)
    ensures ParsePublic2B(PutAll(Public2BFields(x), rest), flag) == Ok(x, rest)
  {
    Put2([BE(2, x.size)], PublicFields(x.body), rest);
    PutOne();
    WordRoundTrips();
    PublicRoundTrip(x.body, flag, rest);
    SizeOfPut(PublicFields(x.body), rest);
    PublicSize(x.body, flag);
  }

  lemma Public2BInverse(flag: bool)
    ensures Inverse(PublicParser(flag), Public2BFields, (x: Public2B) => Public2BOk(x, flag))
  {
    forall x: Public2B, rest: seq<byte> | Public2BOk(x, flag)
      ensures PublicParser(flag)(PutAll(Public2BFields(x), rest)) == Ok(x, rest)
    {
      Public2BRoundTrip(x, flag, rest);
    }
  }

  function PublicParser(flag: bool): Parser<Public2B> {
    s => ParsePublic2B(s, flag)
  }

  /** The unmarshaller accepts exactly the encodings of well-formed public areas. */
  lemma PublicAcceptsExactly(s: seq<byte>, flag: bool)
    ensures ParsePublic2B(s, flag).Ok?
            <==> exists x: Public2B, rest: seq<byte> :: Public2BOk(x, flag) && s == PutAll(Public2BFields(x), rest)
  {
    Public2BInverse(flag);
    AcceptsExactly(PublicParser(flag), Public2BFields, (x: Public2B) => Public2BOk(x, flag), s);
  }

  /** What follows an accepted public area influences neither its value nor its extent. */
  lemma PublicIsLocal(s: seq<byte>, extra: seq<byte>, flag: bool)
    requires ParsePublic2B(s, flag).Ok?
    ensures var p := ParsePublic2B(s, flag);
            ParsePublic2B(s + extra, flag) == Ok(p.value, p.rest + extra)
  {
    Public2BInverse(flag);
    Local(PublicParser(flag), Public2BFields, (x: Public2B) => Public2BOk(x, flag), s, extra);
  }

  /** No encoding is a prefix of another, and a value has one encoding. */
  lemma PublicPrefixFree(x: Public2B, r: seq<byte>, y: Public2B, t: seq<byte>, flag: bool)
    requires Public2BOk(x, flag) && Public2BOk(y, flag)
    requires PutAll(Public2BFields(x), r) == PutAll(Public2BFields(y), t)
    ensures x == y && r == t
  {
    Public2BInverse(flag);
    PrefixFree(PublicParser(flag), Public2BFields, (x: Public2B) => Public2BOk(x, flag), x, r, y, t);
  }

  // ----- Sizes: no well-formed value overflows the UINT16 count

  lemma SymDefObjectSize(x: SymDefObject)
    ensures Size(SymDefObjectFields(x)) <= 6
  {
    SplitSize();
  }

  lemma KeyedHashSchemeSize(x: KeyedHashScheme)
    ensures Size(KeyedHashSchemeFields(x)) <= 6
  {
    SplitSize();
  }

  lemma KdfSchemeSize(x: KdfScheme)
    ensures Size(KdfSchemeFields(x)) <= 4
  {
    SplitSize();
  }

  lemma AsymSchemeSize(x: AsymScheme)
    ensures Size(AsymSchemeFields(x)) <= 6
  {
    SplitSize();
  }

  lemma PublicParmsSize(selector: uint16, x: PublicParms)
    ensures Size(PublicParmsFields(selector, x)) <= 18
  {
    match x {
      case KeyedHashDetail(keyedHash) => KeyedHashSchemeSize(keyedHash);
      case SymDetail(sym) => SymDefObjectSize(sym);
      case RsaDetail(rsa) =>
        SymDefObjectSize(rsa.symmetric); AsymSchemeSize(rsa.scheme);
        Size4(SymDefObjectFields(rsa.symmetric), AsymSchemeFields(rsa.scheme), [BE(2, rsa.keyBits)],
              [BE(4, rsa.exponent)]);
      case EccDetail(ecc) =>
        SymDefObjectSize(ecc.symmetric); AsymSchemeSize(ecc.scheme); KdfSchemeSize(ecc.kdf);
        Size4(SymDefObjectFields(ecc.symmetric), AsymSchemeFields(ecc.scheme), [BE(2, ecc.curveId)],
              KdfSchemeFields(ecc.kdf));
    }
  }

  lemma PublicIdSize(selector: uint16, x: PublicId)
    requires PublicIdOk(selector, x)
    ensures 2 <= Size(PublicIdFields(selector, x)) <= 258
  {
    match x
    case DigestId(digest) => BlobSize(digest);
    case RsaId(modulus) => BlobSize(modulus);
    case EccId(point) =>
      BlobSize(point.x);
      BlobSize(point.y);
      SizeAppend(BlobFields(point.x), BlobFields(point.y));
  }

  lemma PublicSize(x: Public, flag: bool)
    requires PublicOk(x, flag)
    ensures 12 <= Size(PublicFields(x)) <= 350
  {
    BlobSize(x.authPolicy);
    PublicParmsSize(x.kind, x.parameters);
    PublicIdSize(x.kind, x.unique);
    Size4(HeaderFields(x), BlobFields(x.authPolicy), PublicParmsFields(x.kind, x.parameters),
          PublicIdFields(x.kind, x.unique));
    assert Size(HeaderFields(x)) == 8 by { SplitSize(); }
  }
}
