/** Symmetric definitions and the signing, encryption, key-exchange and KDF schemes: a selector
    followed by a union that the selector picks. */
module Schemes {
  import opened Bytes
  import opened Wire
  import opened Algorithms

  // ----- TPMT_SYM_DEF_OBJECT

  /** `keyBits` and `mode` are the unions' 16-bit memory, zero where no member is selected. */
  datatype SymDefObject = SymDefObject(algorithm: uint16, keyBits: uint16, mode: uint16)

  predicate SymKeyBitsOk(selector: uint16, keyBits: uint16) {
    if selector == TPM_ALG_TDES then Admits(TdesKeyBits, keyBits)
    else if selector == TPM_ALG_AES then Admits(AesKeyBits, keyBits)
    else if selector == TPM_ALG_XOR then Admits(AlgHash(false), keyBits)
    else selector == TPM_ALG_NULL && keyBits == 0
  }

  predicate SymModeOk(selector: uint16, mode: uint16) {
    if selector == TPM_ALG_TDES || selector == TPM_ALG_AES then Admits(AlgSymMode(true), mode)
    else (selector == TPM_ALG_XOR || selector == TPM_ALG_NULL) && mode == 0
  }

  predicate SymDefObjectOk(x: SymDefObject, flag: bool) {
    Admits(AlgSymObject(flag), x.algorithm) && SymKeyBitsOk(x.algorithm, x.keyBits) && SymModeOk(x.algorithm, x.mode)
  }

  function SymKeyBitsFields(selector: uint16, keyBits: uint16): seq<Field> {
    if (selector == TPM_ALG_TDES || selector == TPM_ALG_AES || selector == TPM_ALG_XOR) then [BE(2, keyBits)] else []
  }

  function SymModeFields(selector: uint16, mode: uint16): seq<Field> {
    if (selector == TPM_ALG_TDES || selector == TPM_ALG_AES) then [BE(2, mode)] else []
  }

  function SymDefObjectFields(x: SymDefObject): seq<Field> {
    [BE(2, x.algorithm)] + SymKeyBitsFields(x.algorithm, x.keyBits) + SymModeFields(x.algorithm, x.mode)
  }

  function ParseSymKeyBits(s: seq<byte>, selector: uint16): (p: Parsed<uint16>)
    ensures p.Ok? ==> SymKeyBitsOk(selector, p.value) && s == PutAll(SymKeyBitsFields(selector, p.value), p.rest)
    ensures p.Err? ==> p.code != TPM_RC_SUCCESS
  {
    if selector == TPM_ALG_TDES then ParseTpmi(s, TdesKeyBits)
    else if selector == TPM_ALG_AES then ParseTpmi(s, AesKeyBits)
    else if selector == TPM_ALG_XOR then ParseTpmi(s, AlgHash(false))
    else if selector == TPM_ALG_NULL then Ok(0, s)
    else Err(TPM_RC_SELECTOR)
  }

  function ParseSymMode(s: seq<byte>, selector: uint16): (p: Parsed<uint16>)
    ensures p.Ok? ==> SymModeOk(selector, p.value) && s == PutAll(SymModeFields(selector, p.value), p.rest)
    ensures p.Err? ==> p.code != TPM_RC_SUCCESS
  {
    if selector == TPM_ALG_TDES || selector == TPM_ALG_AES then ParseTpmi(s, AlgSymMode(true))
    else if selector == TPM_ALG_XOR || selector == TPM_ALG_NULL then Ok(0, s)
    else Err(TPM_RC_SELECTOR)
  }

  function ParseSymDefObject(s: seq<byte>, flag: bool): (p: Parsed<SymDefObject>)
    ensures p.Ok? ==> SymDefObjectOk(p.value, flag) && s == PutAll(SymDefObjectFields(p.value), p.rest)
    ensures p.Err? ==> p.code != TPM_RC_SUCCESS
  {
    SplitPut();
    var (algorithm, s1) :- ParseTpmi(s, AlgSymObject(flag));
    var (keyBits, s2) :- ParseSymKeyBits(s1, algorithm);
    var (mode, s3) :- ParseSymMode(s2, algorithm);
    Ok(SymDefObject(algorithm, keyBits, mode), s3)
  }

  lemma SymDefObjectRoundTrip(x: SymDefObject, flag: bool, rest: seq<byte>)
    requires SymDefObjectOk(x, flag)
    ensures ParseSymDefObject(PutAll(SymDefObjectFields(x), rest), flag) == Ok(x, rest)
  {
    SplitPut();
    WordRoundTrips();
  }

  method MarshalSymKeyBits(source: uint16, buffer: Cursor?, size: Budget?, selector: uint16) returns (count: uint16)
    requires Room(View(buffer, size), Size(SymKeyBitsFields(selector, source)))
    modifies Frame(buffer, size)
    ensures Wrote(buffer, size, SymKeyBitsFields(selector, source), count)
  {
    SplitEmit();
    if selector == TPM_ALG_TDES || selector == TPM_ALG_AES || selector == TPM_ALG_XOR {
      count := MarshalUint16(source, buffer, size);
    } else {
      count := 0;
    }
  }

  method MarshalSymMode(source: uint16, buffer: Cursor?, size: Budget?, selector: uint16) returns (count: uint16)
    requires Room(View(buffer, size), Size(SymModeFields(selector, source)))
    modifies Frame(buffer, size)
    ensures Wrote(buffer, size, SymModeFields(selector, source), count)
  {
    SplitEmit();
    if selector == TPM_ALG_TDES || selector == TPM_ALG_AES {
      count := MarshalUint16(source, buffer, size);
    } else {
      count := 0;
    }
  }

  method MarshalSymDefObject(source: SymDefObject, buffer: Cursor?, size: Budget?) returns (result: uint16)
    requires Room(View(buffer, size), Size(SymDefObjectFields(source)))
    modifies Frame(buffer, size)
    ensures Wrote(buffer, size, SymDefObjectFields(source), result)
  {
    SplitEmit();
    result := 0;
    var n := MarshalUint16(source.algorithm, buffer, size); result := Add16(result, n);
    n := MarshalSymKeyBits(source.keyBits, buffer, size, source.algorithm); result := Add16(result, n);
    n := MarshalSymMode(source.mode, buffer, size, source.algorithm); result := Add16(result, n);
  }

  method UnmarshalSymKeyBits(buffer: Cursor, size: Budget, selector: uint16) returns (rc: uint32, target: uint16)
    requires Readable(buffer, size)
    modifies buffer, size
    ensures Read(buffer, size, ParseSymKeyBits(old(Rest(buffer, size)), selector), rc, target)
  {
    rc, target := TPM_RC_SUCCESS, 0;
    if selector == TPM_ALG_TDES {
      rc, target := UnmarshalTpmi(buffer, size, TdesKeyBits);
    } else if selector == TPM_ALG_AES {
      rc, target := UnmarshalTpmi(buffer, size, AesKeyBits);
    } else if selector == TPM_ALG_XOR {
      rc, target := UnmarshalTpmi(buffer, size, AlgHash(false));
    } else if selector != TPM_ALG_NULL {
      rc := TPM_RC_SELECTOR;
    }
  }

  method UnmarshalSymMode(buffer: Cursor, size: Budget, selector: uint16) returns (rc: uint32, target: uint16)
    requires Readable(buffer, size)
    modifies buffer, size
    ensures Read(buffer, size, ParseSymMode(old(Rest(buffer, size)), selector), rc, target)
  {
    rc, target := TPM_RC_SUCCESS, 0;
    if selector == TPM_ALG_TDES || selector == TPM_ALG_AES {
      rc, target := UnmarshalTpmi(buffer, size, AlgSymMode(true));
    } else if selector != TPM_ALG_XOR && selector != TPM_ALG_NULL {
      rc := TPM_RC_SELECTOR;
    }
  }

  method UnmarshalSymDefObject(buffer: Cursor, size: Budget, flag: bool) returns (rc: uint32, target: SymDefObject)
    requires Readable(buffer, size)
    modifies buffer, size
    ensures Read(buffer, size, ParseSymDefObject(old(Rest(buffer, size)), flag), rc, target)
  {
    target := SymDefObject(0, 0, 0);
    var algorithm, keyBits, mode;
    rc, algorithm := UnmarshalTpmi(buffer, size, AlgSymObject(flag));
    if rc != TPM_RC_SUCCESS { return; }
    rc, keyBits := UnmarshalSymKeyBits(buffer, size, algorithm);
    if rc != TPM_RC_SUCCESS { return; }
    rc, mode := UnmarshalSymMode(buffer, size, algorithm);
    target := SymDefObject(algorithm, keyBits, mode);
  }

  // ----- TPMT_KEYEDHASH_SCHEME

  /** The union's memory: HMAC uses `hashAlg`, XOR both words; unused words are zero. */
  datatype KeyedHashScheme = KeyedHashScheme(scheme: uint16, hashAlg: uint16, kdf: uint16)

  predicate KeyedHashDetailsOk(selector: uint16, hashAlg: uint16, kdf: uint16) {
    if selector == TPM_ALG_HMAC then Admits(AlgHash(false), hashAlg) && kdf == 0
    else if selector == TPM_ALG_XOR then Admits(AlgHash(true), hashAlg) && Admits(AlgKdf(true), kdf)
    else selector == TPM_ALG_NULL && hashAlg == 0 && kdf == 0
  }

  predicate KeyedHashSchemeOk(x: KeyedHashScheme, flag: bool) {
    Admits(AlgKeyedHashScheme(flag), x.scheme) && KeyedHashDetailsOk(x.scheme, x.hashAlg, x.kdf)
  }

  function KeyedHashDetailsFields(selector: uint16, hashAlg: uint16, kdf: uint16): seq<Field> {
    if selector == TPM_ALG_HMAC then [BE(2, hashAlg)]
    else if selector == TPM_ALG_XOR then [BE(2, hashAlg)] + [BE(2, kdf)]
    else []
  }

  function KeyedHashSchemeFields(x: KeyedHashScheme): seq<Field> {
    [BE(2, x.scheme)] + KeyedHashDetailsFields(x.scheme, x.hashAlg, x.kdf)
  }

  function ParseKeyedHashDetails(s: seq<byte>, selector: uint16): (p: Parsed<(uint16, uint16)>)
    ensures p.Ok? ==> KeyedHashDetailsOk(selector, p.value.0, p.value.1)
    ensures p.Ok? ==> s == PutAll(KeyedHashDetailsFields(selector, p.value.0, p.value.1), p.rest)
    ensures p.Err? ==> p.code != TPM_RC_SUCCESS
  {
    SplitPut();
    if selector == TPM_ALG_HMAC then
      var (hashAlg, s1) :- ParseTpmi(s, AlgHash(false));
      Ok((hashAlg, 0), s1)
    else if selector == TPM_ALG_XOR then
      var (hashAlg, s1) :- ParseTpmi(s, AlgHash(true));
      var (kdf, s2) :- ParseTpmi(s1, AlgKdf(true));
      Ok((hashAlg, kdf), s2)
    else if selector == TPM_ALG_NULL then Ok((0, 0), s)
    else Err(TPM_RC_SELECTOR)
  }

  function ParseKeyedHashScheme(s: seq<byte>, flag: bool): (p: Parsed<KeyedHashScheme>)
    ensures p.Ok? ==> KeyedHashSchemeOk(p.value, flag) && s == PutAll(KeyedHashSchemeFields(p.value), p.rest)
    ensures p.Err? ==> p.code != TPM_RC_SUCCESS
  {
    SplitPut();
    var (scheme, s1) :- ParseTpmi(s, AlgKeyedHashScheme(flag));
    var (details, s2) :- ParseKeyedHashDetails(s1, scheme);
    Ok(KeyedHashScheme(scheme, details.0, details.1), s2)
  }

  lemma KeyedHashSchemeRoundTrip(x: KeyedHashScheme, flag: bool, rest: seq<byte>)
    requires KeyedHashSchemeOk(x, flag)
    ensures ParseKeyedHashScheme(PutAll(KeyedHashSchemeFields(x), rest), flag) == Ok(x, rest)
  {
    SplitPut();
    WordRoundTrips();
  }

  method MarshalKeyedHashDetails(hashAlg: uint16, kdf: uint16, buffer: Cursor?, size: Budget?, selector: uint16)
    returns (result: uint16)
    requires Room(View(buffer, size), Size(KeyedHashDetailsFields(selector, hashAlg, kdf)))
    modifies Frame(buffer, size)
    ensures Wrote(buffer, size, KeyedHashDetailsFields(selector, hashAlg, kdf), result)
  {
    SplitEmit();
    result := 0;
    if selector == TPM_ALG_HMAC {
      result := MarshalUint16(hashAlg, buffer, size);
    } else if selector == TPM_ALG_XOR {
      var n := MarshalUint16(hashAlg, buffer, size); result := Add16(result, n);
      n := MarshalUint16(kdf, buffer, size); result := Add16(result, n);
    }
  }

  method MarshalKeyedHashScheme(source: KeyedHashScheme, buffer: Cursor?, size: Budget?) returns (result: uint16)
    requires Room(View(buffer, size), Size(KeyedHashSchemeFields(source)))
    modifies Frame(buffer, size)
    ensures Wrote(buffer, size, KeyedHashSchemeFields(source), result)
  {
    SplitEmit();
    result := 0;
    var n := MarshalUint16(source.scheme, buffer, size); result := Add16(result, n);
    n := MarshalKeyedHashDetails(source.hashAlg, source.kdf, buffer, size, source.scheme);
    result := Add16(result, n);
  }

  method UnmarshalKeyedHashDetails(buffer: Cursor, size: Budget, selector: uint16)
    returns (rc: uint32, target: (uint16, uint16))
    requires Readable(buffer, size)
    modifies buffer, size
    ensures Read(buffer, size, ParseKeyedHashDetails(old(Rest(buffer, size)), selector), rc, target)
  {
    rc, target := TPM_RC_SUCCESS, (0, 0);
    var hashAlg, kdf;
    if selector == TPM_ALG_HMAC {
      rc, hashAlg := UnmarshalTpmi(buffer, size, AlgHash(false));
      target := (hashAlg, 0);
    } else if selector == TPM_ALG_XOR {
      rc, hashAlg := UnmarshalTpmi(buffer, size, AlgHash(true));
      if rc != TPM_RC_SUCCESS { return; }
      rc, kdf := UnmarshalTpmi(buffer, size, AlgKdf(true));
      target := (hashAlg, kdf);
    } else if selector != TPM_ALG_NULL {
      rc := TPM_RC_SELECTOR;
    }
  }

  method UnmarshalKeyedHashScheme(buffer: Cursor, size: Budget, flag: bool)
    returns (rc: uint32, target: KeyedHashScheme)
    requires Readable(buffer, size)
    modifies buffer, size
    ensures Read(buffer, size, ParseKeyedHashScheme(old(Rest(buffer, size)), flag), rc, target)
  {
    target := KeyedHashScheme(0, 0, 0);
    var scheme, details;
    rc, scheme := UnmarshalTpmi(buffer, size, AlgKeyedHashScheme(flag));
    if rc != TPM_RC_SUCCESS { return; }
    rc, details := UnmarshalKeyedHashDetails(buffer, size, scheme);
    target := KeyedHashScheme(scheme, details.0, details.1);
  }

  // ----- TPMT_KDF_SCHEME

  datatype KdfScheme = KdfScheme(scheme: uint16, hashAlg: uint16)

  predicate KdfTakesHash(selector: uint16) {
    selector == TPM_ALG_MGF1 || selector == TPM_ALG_KDF1_SP800_56A || selector == TPM_ALG_KDF1_SP800_108
  }

  predicate KdfDetailsOk(selector: uint16, hashAlg: uint16) {
    if KdfTakesHash(selector) then Admits(AlgHash(false), hashAlg)
    else selector == TPM_ALG_NULL && hashAlg == 0
  }

  predicate KdfSchemeOk(x: KdfScheme, flag: bool) {
    Admits(AlgKdf(flag), x.scheme) && KdfDetailsOk(x.scheme, x.hashAlg)
  }

  function KdfDetailsFields(selector: uint16, hashAlg: uint16): seq<Field> {
    if KdfTakesHash(selector) then [BE(2, hashAlg)] else []
  }

  function KdfSchemeFields(x: KdfScheme): seq<Field> {
    [BE(2, x.scheme)] + KdfDetailsFields(x.scheme, x.hashAlg)
  }

  function ParseKdfDetails(s: seq<byte>, selector: uint16): (p: Parsed<uint16>)
    ensures p.Ok? ==> KdfDetailsOk(selector, p.value) && s == PutAll(KdfDetailsFields(selector, p.value), p.rest)
    ensures p.Err? ==> p.code != TPM_RC_SUCCESS
  {
    if KdfTakesHash(selector) then ParseTpmi(s, AlgHash(false))
    else if selector == TPM_ALG_NULL then Ok(0, s)
    else Err(TPM_RC_SELECTOR)
  }

  function ParseKdfScheme(s: seq<byte>, flag: bool): (p: Parsed<KdfScheme>)
    ensures p.Ok? ==> KdfSchemeOk(p.value, flag) && s == PutAll(KdfSchemeFields(p.value), p.rest)
    ensures p.Err? ==> p.code != TPM_RC_SUCCESS
  {
    SplitPut();
    var (scheme, s1) :- ParseTpmi(s, AlgKdf(flag));
    var (hashAlg, s2) :- ParseKdfDetails(s1, scheme);
    Ok(KdfScheme(scheme, hashAlg), s2)
  }

  lemma KdfSchemeRoundTrip(x: KdfScheme, flag: bool, rest: seq<byte>)
    requires KdfSchemeOk(x, flag)
    ensures ParseKdfScheme(PutAll(KdfSchemeFields(x), rest), flag) == Ok(x, rest)
  {
    SplitPut();
    WordRoundTrips();
  }

  method MarshalKdfDetails(hashAlg: uint16, buffer: Cursor?, size: Budget?, selector: uint16) returns (count: uint16)
    requires Room(View(buffer, size), Size(KdfDetailsFields(selector, hashAlg)))
    modifies Frame(buffer, size)
    ensures Wrote(buffer, size, KdfDetailsFields(selector, hashAlg), count)
  {
    SplitEmit();
    if selector == TPM_ALG_MGF1 || selector == TPM_ALG_KDF1_SP800_56A || selector == TPM_ALG_KDF1_SP800_108 {
      count := MarshalUint16(hashAlg, buffer, size);
    } else {
      count := 0;
    }
  }

  method MarshalKdfScheme(source: KdfScheme, buffer: Cursor?, size: Budget?) returns (result: uint16)
    requires Room(View(buffer, size), Size(KdfSchemeFields(source)))
    modifies Frame(buffer, size)
    ensures Wrote(buffer, size, KdfSchemeFields(source), result)
  {
    SplitEmit();
    result := 0;
    var n := MarshalUint16(source.scheme, buffer, size); result := Add16(result, n);
    n := MarshalKdfDetails(source.hashAlg, buffer, size, source.scheme); result := Add16(result, n);
  }

  method UnmarshalKdfDetails(buffer: Cursor, size: Budget, selector: uint16) returns (rc: uint32, target: uint16)
    requires Readable(buffer, size)
    modifies buffer, size
    ensures Read(buffer, size, ParseKdfDetails(old(Rest(buffer, size)), selector), rc, target)
  {
    rc, target := TPM_RC_SUCCESS, 0;
    if selector == TPM_ALG_MGF1 || selector == TPM_ALG_KDF1_SP800_56A || selector == TPM_ALG_KDF1_SP800_108 {
      rc, target := UnmarshalTpmi(buffer, size, AlgHash(false));
    } else if selector != TPM_ALG_NULL {
      rc := TPM_RC_SELECTOR;
    }
  }

  method UnmarshalKdfScheme(buffer: Cursor, size: Budget, flag: bool) returns (rc: uint32, target: KdfScheme)
    requires Readable(buffer, size)
    modifies buffer, size
    ensures Read(buffer, size, ParseKdfScheme(old(Rest(buffer, size)), flag), rc, target)
  {
    target := KdfScheme(0, 0);
    var scheme, hashAlg;
    rc, scheme := UnmarshalTpmi(buffer, size, AlgKdf(flag));
    if rc != TPM_RC_SUCCESS { return; }
    rc, hashAlg := UnmarshalKdfDetails(buffer, size, scheme);
    target := KdfScheme(scheme, hashAlg);
  }

  // ----- TPMT_RSA_SCHEME and TPMT_ECC_SCHEME: the same union behind two selector types

  datatype AsymScheme = AsymScheme(scheme: uint16, hashAlg: uint16, count: uint16)

  /** The selectors whose union member is a lone hash algorithm. */
  predicate HashMember(selector: uint16) {
    || selector == TPM_ALG_ECDH || selector == TPM_ALG_RSASSA || selector == TPM_ALG_RSAPSS
    || selector == TPM_ALG_ECDSA || selector == TPM_ALG_ECSCHNORR || selector == TPM_ALG_OAEP
  }

  predicate AsymDetailsOk(selector: uint16, hashAlg: uint16, count: uint16) {
    if HashMember(selector) then Admits(AlgHash(false), hashAlg) && count == 0
    else if selector == TPM_ALG_ECDAA then Admits(AlgHash(false), hashAlg)
    else (selector == TPM_ALG_RSAES || selector == TPM_ALG_NULL) && hashAlg == 0 && count == 0
  }

  predicate AsymSchemeOk(x: AsymScheme, kind: Tpmi) {
    Admits(kind, x.scheme) && AsymDetailsOk(x.scheme, x.hashAlg, x.count)
  }

  function AsymDetailsFields(selector: uint16, hashAlg: uint16, count: uint16): seq<Field> {
    if HashMember(selector) then [BE(2, hashAlg)]
    else if selector == TPM_ALG_ECDAA then [BE(2, hashAlg)] + [BE(2, count)]
    else []
  }

  function AsymSchemeFields(x: AsymScheme): seq<Field> {
    [BE(2, x.scheme)] + AsymDetailsFields(x.scheme, x.hashAlg, x.count)
  }

  function ParseAsymDetails(s: seq<byte>, selector: uint16): (p: Parsed<(uint16, uint16)>)
    ensures p.Ok? ==> AsymDetailsOk(selector, p.value.0, p.value.1)
    ensures p.Ok? ==> s == PutAll(AsymDetailsFields(selector, p.value.0, p.value.1), p.rest)
    ensures p.Err? ==> p.code != TPM_RC_SUCCESS
  {
    SplitPut();
    if HashMember(selector) then
      var (hashAlg, s1) :- ParseTpmi(s, AlgHash(false));
      Ok((hashAlg, 0), s1)
    else if selector == TPM_ALG_ECDAA then
      var (hashAlg, s1) :- ParseTpmi(s, AlgHash(false));
      var (count, s2) :- ParseUint16(s1);
      Ok((hashAlg, count), s2)
    else if selector == TPM_ALG_RSAES || selector == TPM_ALG_NULL then Ok((0, 0), s)
    else Err(TPM_RC_SELECTOR)
  }

  function ParseAsymScheme(s: seq<byte>, kind: Tpmi): (p: Parsed<AsymScheme>)
    ensures p.Ok? ==> AsymSchemeOk(p.value, kind) && s == PutAll(AsymSchemeFields(p.value), p.rest)
    ensures p.Err? ==> p.code != TPM_RC_SUCCESS
  {
    SplitPut();
    var (scheme, s1) :- ParseTpmi(s, kind);
    var (details, s2) :- ParseAsymDetails(s1, scheme);
    Ok(AsymScheme(scheme, details.0, details.1), s2)
  }

  lemma AsymDetailsRoundTrip(selector: uint16, hashAlg: uint16, count: uint16, rest: seq<byte>)
    requires AsymDetailsOk(selector, hashAlg, count)
    ensures ParseAsymDetails(PutAll(AsymDetailsFields(selector, hashAlg, count), rest), selector)
            == Ok((hashAlg, count), rest)
  {
    SplitPut();
    WordRoundTrips();
  }

  lemma AsymSchemeRoundTrip(x: AsymScheme, kind: Tpmi, rest: seq<byte>)
    requires AsymSchemeOk(x, kind)
    ensures ParseAsymScheme(PutAll(AsymSchemeFields(x), rest), kind) == Ok(x, rest)
  {
    Put2([BE(2, x.scheme)], AsymDetailsFields(x.scheme, x.hashAlg, x.count), rest);
    PutOne();
    WordRoundTrips();
    AsymDetailsRoundTrip(x.scheme, x.hashAlg, x.count, rest);
  }

  method MarshalAsymDetails(hashAlg: uint16, count: uint16, buffer: Cursor?, size: Budget?, selector: uint16)
    returns (result: uint16)
    requires Room(View(buffer, size), Size(AsymDetailsFields(selector, hashAlg, count)))
    modifies Frame(buffer, size)
    ensures Wrote(buffer, size, AsymDetailsFields(selector, hashAlg, count), result)
  {
    SplitEmit();
    result := 0;
    if HashMember(selector) {
      result := MarshalUint16(hashAlg, buffer, size);
    } else if selector == TPM_ALG_ECDAA {
      var n := MarshalUint16(hashAlg, buffer, size); result := Add16(result, n);
      n := MarshalUint16(count, buffer, size); result := Add16(result, n);
    }
  }

  method MarshalAsymScheme(source: AsymScheme, buffer: Cursor?, size: Budget?) returns (result: uint16)
    requires Room(View(buffer, size), Size(AsymSchemeFields(source)))
    modifies Frame(buffer, size)
    ensures Wrote(buffer, size, AsymSchemeFields(source), result)
  {
    SplitEmit();
    result := 0;
    var n := MarshalUint16(source.scheme, buffer, size); result := Add16(result, n);
    n := MarshalAsymDetails(source.hashAlg, source.count, buffer, size, source.scheme);
    result := Add16(result, n);
  }

  method UnmarshalAsymDetails(buffer: Cursor, size: Budget, selector: uint16)
    returns (rc: uint32, target: (uint16, uint16))
    requires Readable(buffer, size)
    modifies buffer, size
    ensures Read(buffer, size, ParseAsymDetails(old(Rest(buffer, size)), selector), rc, target)
  {
    rc, target := TPM_RC_SUCCESS, (0, 0);
    var hashAlg, count;
    if HashMember(selector) {
      rc, hashAlg := UnmarshalTpmi(buffer, size, AlgHash(false));
      target := (hashAlg, 0);
    } else if selector == TPM_ALG_ECDAA {
      rc, hashAlg := UnmarshalTpmi(buffer, size, AlgHash(false));
      if rc != TPM_RC_SUCCESS { return; }
      rc, count := UnmarshalUint16(buffer, size);
      target := (hashAlg, count);
    } else if selector != TPM_ALG_RSAES && selector != TPM_ALG_NULL {
      rc := TPM_RC_SELECTOR;
    }
  }

  method UnmarshalAsymScheme(buffer: Cursor, size: Budget, kind: Tpmi) returns (rc: uint32, target: AsymScheme)
    requires Readable(buffer, size)
    modifies buffer, size
    ensures Read(buffer, size, ParseAsymScheme(old(Rest(buffer, size)), kind), rc, target)
  {
    target := AsymScheme(0, 0, 0);
    var scheme, details;
    rc, scheme := UnmarshalTpmi(buffer, size, kind);
    if rc != TPM_RC_SUCCESS { return; }
    rc, details := UnmarshalAsymDetails(buffer, size, scheme);
    target := AsymScheme(scheme, details.0, details.1);
  }
}
