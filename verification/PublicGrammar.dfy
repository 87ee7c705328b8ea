/** TPM2B_PUBLIC in numbers and offsets, and the agreement of its unmarshaller and marshaller. */
module PublicGrammar {
  import opened Bytes
  import opened Wire
  import opened Algorithms
  import opened Blobs
  import opened Schemes
  import opened PublicArea
  import opened Grammar

  // ----- Which bytes are accepted, and how others are refused

  function Symmetric(s: seq<byte>, at: nat, allowNull: bool): Verdict {
    var a :- Choice(s, at, AlgSymObject(allowNull));
    if Num(s, at, 2) == 0x10 then At(a)
    else
      var b :- Choice(s, a, if Num(s, at, 2) == 0x03 then TdesKeyBits else AesKeyBits);
      Choice(s, b, AlgSymMode(true))
  }

  function KeyedHash(s: seq<byte>, at: nat): Verdict {
    var a :- Choice(s, at, AlgKeyedHashScheme(true));
    if Num(s, at, 2) == 0x10 then At(a)
    else if Num(s, at, 2) == 0x05 then Choice(s, a, AlgHash(false))
    else
      var b :- Choice(s, a, AlgHash(true));
      Choice(s, b, AlgKdf(true))
  }

  function Kdf(s: seq<byte>, at: nat): Verdict {
    var a :- Choice(s, at, AlgKdf(true));
    if Num(s, at, 2) == 0x10 then At(a) else Choice(s, a, AlgHash(false))
  }

  /** A signing, encryption or key-exchange scheme: nothing for RSAES and NULL, a hash and a count for
      ECDAA, and a hash otherwise. */
  function Scheme(s: seq<byte>, at: nat, kind: Tpmi): Verdict {
    var a :- Choice(s, at, kind);
    SchemeDetails(s, a, Num(s, at, 2))
  }

  function SchemeDetails(s: seq<byte>, at: nat, scheme: nat): Verdict {
    if scheme == 0x10 || scheme == 0x15 then At(at)
    else
      var a :- Choice(s, at, AlgHash(false));
      if scheme == 0x1A then Skip(s, a, 2) else At(a)
  }

  function Keys(s: seq<byte>, at: nat, kind: Tpmi): Verdict {
    var a :- Symmetric(s, at, true);
    Scheme(s, a, kind)
  }

  function RsaDetails(s: seq<byte>, at: nat): Verdict {
    var a :- Keys(s, at, AlgRsaScheme(true));
    var b :- Choice(s, a, RsaKeyBits);
    Skip(s, b, 4)
  }

  function EccDetails(s: seq<byte>, at: nat): Verdict {
    var a :- Keys(s, at, AlgEccScheme(true));
    var b :- Choice(s, a, EccCurve);
    Kdf(s, b)
  }

  /** The parameters of a keyed hash, a symmetric cipher, an RSA key or an ECC key. */
  function Details(s: seq<byte>, at: nat, kind: nat): Verdict {
    if kind == 0x08 then KeyedHash(s, at)
    else if kind == 0x25 then Symmetric(s, at, false)
    else if kind == 0x01 then RsaDetails(s, at)
    else if kind == 0x23 then EccDetails(s, at)
    else Bad(0x98)
  }

  function Unique(s: seq<byte>, at: nat, kind: nat): Verdict {
    if kind == 0x08 || kind == 0x25 then Block(s, at, 64)
    else if kind == 0x01 then Block(s, at, 256)
    else if kind == 0x23 then
      var a :- Block(s, at, 32);
      Block(s, a, 32)
    else Bad(0x98)
  }

  function AfterHeader(s: seq<byte>, at: nat, kind: nat): Verdict {
    var a :- Block(s, at, 64);
    var b :- Details(s, a, kind);
    Unique(s, b, kind)
  }

  ghost function Area(s: seq<byte>, at: nat, allowNull: bool): Verdict {
    var a :- Choice(s, at, AlgPublic);
    var b :- Choice(s, a, AlgHash(allowNull));
    var c :- Flags(s, b, 4, 0xFFF8_F309);
    AfterHeader(s, c, Num(s, at, 2))
  }

  /** A structure preceded by its length, which must not be zero and must be what the structure takes. */
  ghost function SizedArea(s: seq<byte>, at: nat, allowNull: bool): Verdict {
    var a :- Skip(s, at, 2);
    if Num(s, at, 2) == 0 then Bad(0x95)
    else
      var b :- Area(s, a, allowNull);
      if b == a + Num(s, at, 2) then At(b) else Bad(0x95)
  }

  // ----- Agreement of the unmarshallers

  lemma SymmetricAgrees(s: seq<byte>, at: nat, allowNull: bool)
    requires at <= |s|
    ensures Agrees(s, ParseSymDefObject(s[at..], allowNull), Symmetric(s, at, allowNull))
  {
    TpmiAgrees(s, at, AlgSymObject(allowNull));
    if Choice(s, at, AlgSymObject(allowNull)).At? && Num(s, at, 2) != 0x10 {
      var bits := if Num(s, at, 2) == 0x03 then TdesKeyBits else AesKeyBits;
      TpmiAgrees(s, at + 2, bits);
      if Choice(s, at + 2, bits).At? {
        TpmiAgrees(s, at + 4, AlgSymMode(true));
      }
    }
  }

  lemma KeyedHashAgrees(s: seq<byte>, at: nat)
    requires at <= |s|
    ensures Agrees(s, ParseKeyedHashScheme(s[at..], true), KeyedHash(s, at))
  {
    TpmiAgrees(s, at, AlgKeyedHashScheme(true));
    if Choice(s, at, AlgKeyedHashScheme(true)).At? && Num(s, at, 2) != 0x10 {
      var hash := AlgHash(Num(s, at, 2) != 0x05);
      TpmiAgrees(s, at + 2, hash);
      if Choice(s, at + 2, hash).At? {
        TpmiAgrees(s, at + 4, AlgKdf(true));
      }
    }
  }

  lemma KdfAgrees(s: seq<byte>, at: nat)
    requires at <= |s|
    ensures Agrees(s, ParseKdfScheme(s[at..], true), Kdf(s, at))
  {
    TpmiAgrees(s, at, AlgKdf(true));
    if Choice(s, at, AlgKdf(true)).At? {
      TpmiAgrees(s, at + 2, AlgHash(false));
    }
  }

  lemma SchemeAgrees(s: seq<byte>, at: nat, kind: Tpmi)
    requires at <= |s| && (kind == AlgRsaScheme(true) || kind == AlgEccScheme(true))
    ensures Agrees(s, ParseAsymScheme(s[at..], kind), Scheme(s, at, kind))
  {
    TpmiAgrees(s, at, kind);
    if Choice(s, at, kind).At? {
      SchemeDetailsAgree(s, at + 2, Num(s, at, 2));
    }
  }

  lemma SchemeDetailsAgree(s: seq<byte>, at: nat, scheme: uint16)
    requires at <= |s| && (scheme in Legal(AlgRsaScheme(true)) || scheme in Legal(AlgEccScheme(true)))
    ensures Agrees(s, ParseAsymDetails(s[at..], scheme), SchemeDetails(s, at, scheme))
  {
    TpmiAgrees(s, at, AlgHash(false));
    if Choice(s, at, AlgHash(false)).At? {
      Uint16Agrees(s, at + 2);
    }
  }

  lemma KeySchemesAgree(s: seq<byte>, at: nat, kind: Tpmi)
    requires at <= |s| && (kind == AlgRsaScheme(true) || kind == AlgEccScheme(true))
    ensures Agrees(s, ParseKeySchemes(s[at..], kind), Keys(s, at, kind))
  {
    SymmetricAgrees(s, at, true);
    var a := Symmetric(s, at, true);
    if a.At? {
      SchemeAgrees(s, a.pos, kind);
    }
  }

  lemma RsaDetailsAgree(s: seq<byte>, at: nat)
    requires at <= |s|
    ensures Agrees(s, ParseRsaParms(s[at..]), RsaDetails(s, at))
  {
    KeySchemesAgree(s, at, AlgRsaScheme(true));
    var a := Keys(s, at, AlgRsaScheme(true));
    if a.At? {
      TpmiAgrees(s, a.pos, RsaKeyBits);
      if Choice(s, a.pos, RsaKeyBits).At? {
        Uint32Agrees(s, a.pos + 2);
      }
    }
  }

  lemma EccDetailsAgree(s: seq<byte>, at: nat)
    requires at <= |s|
    ensures Agrees(s, ParseEccParms(s[at..]), EccDetails(s, at))
  {
    KeySchemesAgree(s, at, AlgEccScheme(true));
    var a := Keys(s, at, AlgEccScheme(true));
    if a.At? {
      TpmiAgrees(s, a.pos, EccCurve);
      if Choice(s, a.pos, EccCurve).At? {
        KdfAgrees(s, a.pos + 2);
      }
    }
  }

  lemma DetailsAgree(s: seq<byte>, at: nat, kind: uint16)
    requires at <= |s|
    ensures Agrees(s, ParsePublicParms(s[at..], kind), Details(s, at, kind))
  {
    if kind == 0x08 {
      KeyedHashAgrees(s, at);
    } else if kind == 0x25 {
      SymmetricAgrees(s, at, false);
    } else if kind == 0x01 {
      RsaDetailsAgree(s, at);
    } else if kind == 0x23 {
      EccDetailsAgree(s, at);
    }
  }

  lemma UniqueAgrees(s: seq<byte>, at: nat, kind: uint16)
    requires at <= |s|
    ensures Agrees(s, ParsePublicId(s[at..], kind), Unique(s, at, kind))
  {
    BlobAgrees(s, at, 64);
    BlobAgrees(s, at, 256);
    BlobAgrees(s, at, 32);
    var a := Block(s, at, 32);
    if a.At? {
      BlobAgrees(s, a.pos, 32);
    }
  }

  lemma AfterHeaderAgrees(s: seq<byte>, at: nat, kind: uint16, nameAlg: uint16, attributes: uint32)
    requires at <= |s|
    ensures Agrees(s, ParseAfterHeader(s[at..], kind, nameAlg, attributes), AfterHeader(s, at, kind))
  {
    BlobAgrees(s, at, 64);
    var a := Block(s, at, 64);
    if a.At? {
      DetailsAgree(s, a.pos, kind);
      var b := Details(s, a.pos, kind);
      if b.At? {
        UniqueAgrees(s, b.pos, kind);
      }
    }
  }

  lemma AreaAgrees(s: seq<byte>, at: nat, allowNull: bool)
    requires at <= |s|
    ensures Agrees(s, ParsePublic(s[at..], allowNull), Area(s, at, allowNull))
  {
    TpmiAgrees(s, at, AlgPublic);
    if Choice(s, at, AlgPublic).At? {
      TpmiAgrees(s, at + 2, AlgHash(allowNull));
      if Choice(s, at + 2, AlgHash(allowNull)).At? {
        AttributesAgree(s, at + 4, 0xFFF8_F309);
        var attributes := ParseAttributes(s[at + 4..], 0xFFF8_F309);
        if attributes.Ok? {
          AfterHeaderAgrees(s, at + 8, Num(s, at, 2), Num(s, at + 2, 2), attributes.value);
        }
      }
    }
  }

  /** For every input the unmarshaller of TPM2B_PUBLIC accepts exactly what the grammar accepts, ends
      where it ends, and refuses everything else with its code. */
  lemma PublicAgrees(s: seq<byte>, allowNull: bool)
    ensures Agrees(s, ParsePublic2B(s, allowNull), SizedArea(s, 0, allowNull))
  {
    assert s[0..] == s;
    Uint16Agrees(s, 0);
    if |s| >= 2 {
      AreaAgrees(s, 2, allowNull);
    }
  }

  // ----- Which bytes a value is written as, whether or not it is well formed

  function SymmetricBytes(x: SymDefObject): seq<byte> {
    BE(2, x.algorithm)
    + (if x.algorithm in {0x03, 0x06, 0x0A} then BE(2, x.keyBits) else [])
    + (if x.algorithm in {0x03, 0x06} then BE(2, x.mode) else [])
  }

  function KeyedHashBytes(x: KeyedHashScheme): seq<byte> {
    BE(2, x.scheme)
    + (if x.scheme in {0x05, 0x0A} then BE(2, x.hashAlg) else [])
    + (if x.scheme == 0x0A then BE(2, x.kdf) else [])
  }

  function KdfBytes(x: KdfScheme): seq<byte> {
    BE(2, x.scheme) + (if x.scheme in {0x07, 0x20, 0x22} then BE(2, x.hashAlg) else [])
  }

  function SchemeBytes(x: AsymScheme): seq<byte> {
    BE(2, x.scheme)
    + (if x.scheme in {0x14, 0x16, 0x17, 0x18, 0x19, 0x1A, 0x1C} then BE(2, x.hashAlg) else [])
    + (if x.scheme == 0x1A then BE(2, x.count) else [])
  }

  function DetailsBytes(kind: nat, x: PublicParms): seq<byte> {
    match x
    case KeyedHashDetail(keyedHash) => if kind == 0x08 then KeyedHashBytes(keyedHash) else []
    case SymDetail(sym) => if kind == 0x25 then SymmetricBytes(sym) else []
    case RsaDetail(rsa) =>
      if kind == 0x01 then
        SymmetricBytes(rsa.symmetric) + SchemeBytes(rsa.scheme) + BE(2, rsa.keyBits) + BE(4, rsa.exponent)
      else []
    case EccDetail(ecc) =>
      if kind == 0x23 then
        SymmetricBytes(ecc.symmetric) + SchemeBytes(ecc.scheme) + BE(2, ecc.curveId) + KdfBytes(ecc.kdf)
      else []
  }

  function UniqueBytes(kind: nat, x: PublicId): seq<byte> {
    match x
    case DigestId(digest) => if kind == 0x08 || kind == 0x25 then BlockBytes(digest) else []
    case RsaId(modulus) => if kind == 0x01 then BlockBytes(modulus) else []
    case EccId(point) => if kind == 0x23 then BlockBytes(point.x) + BlockBytes(point.y) else []
  }

  function HeaderBytes(x: Public): seq<byte> {
    BE(2, x.kind) + BE(2, x.nameAlg) + BE(4, x.objectAttributes)
  }

  function AreaBytes(x: Public): seq<byte> {
    HeaderBytes(x) + BlockBytes(x.authPolicy) + DetailsBytes(x.kind, x.parameters) + UniqueBytes(x.kind, x.unique)
  }

  lemma SymmetricInBytes(x: SymDefObject)
    ensures Printed(SymDefObjectFields(x)) == SymmetricBytes(x)
  {
    PrintOne(BE(2, x.algorithm));
    PrintOne(BE(2, x.keyBits));
    PrintOne(BE(2, x.mode));
    PrintAppend([BE(2, x.algorithm)] + SymKeyBitsFields(x.algorithm, x.keyBits), SymModeFields(x.algorithm, x.mode));
    PrintAppend([BE(2, x.algorithm)], SymKeyBitsFields(x.algorithm, x.keyBits));
  }

  lemma KeyedHashInBytes(x: KeyedHashScheme)
    ensures Printed(KeyedHashSchemeFields(x)) == KeyedHashBytes(x)
  {
    PrintOne(BE(2, x.scheme));
    PrintOne(BE(2, x.hashAlg));
    PrintTwo(BE(2, x.hashAlg), BE(2, x.kdf));
    PrintAppend([BE(2, x.scheme)], KeyedHashDetailsFields(x.scheme, x.hashAlg, x.kdf));
  }

  lemma KdfInBytes(x: KdfScheme)
    ensures Printed(KdfSchemeFields(x)) == KdfBytes(x)
  {
    PrintOne(BE(2, x.scheme));
    PrintOne(BE(2, x.hashAlg));
    PrintAppend([BE(2, x.scheme)], KdfDetailsFields(x.scheme, x.hashAlg));
  }

  lemma SchemeInBytes(x: AsymScheme)
    ensures Printed(AsymSchemeFields(x)) == SchemeBytes(x)
  {
    PrintOne(BE(2, x.scheme));
    PrintOne(BE(2, x.hashAlg));
    PrintTwo(BE(2, x.hashAlg), BE(2, x.count));
    PrintAppend([BE(2, x.scheme)], AsymDetailsFields(x.scheme, x.hashAlg, x.count));
  }

  lemma DetailsInBytes(kind: uint16, x: PublicParms)
    ensures Printed(PublicParmsFields(kind, x)) == DetailsBytes(kind, x)
  {
    match x {
      case KeyedHashDetail(keyedHash) => KeyedHashInBytes(keyedHash);
      case SymDetail(sym) => SymmetricInBytes(sym);
      case RsaDetail(rsa) =>
        SymmetricInBytes(rsa.symmetric);
        SchemeInBytes(rsa.scheme);
        PrintOne(BE(2, rsa.keyBits));
        PrintOne(BE(4, rsa.exponent));
        Print4(SymDefObjectFields(rsa.symmetric), AsymSchemeFields(rsa.scheme), [BE(2, rsa.keyBits)],
               [BE(4, rsa.exponent)]);
      case EccDetail(ecc) =>
        SymmetricInBytes(ecc.symmetric);
        SchemeInBytes(ecc.scheme);
        PrintOne(BE(2, ecc.curveId));
        KdfInBytes(ecc.kdf);
        Print4(SymDefObjectFields(ecc.symmetric), AsymSchemeFields(ecc.scheme), [BE(2, ecc.curveId)],
               KdfSchemeFields(ecc.kdf));
    }
  }

  lemma UniqueInBytes(kind: uint16, x: PublicId)
    ensures Printed(PublicIdFields(kind, x)) == UniqueBytes(kind, x)
  {
    match x
    case DigestId(digest) => BlobInBytes(digest);
    case RsaId(modulus) => BlobInBytes(modulus);
    case EccId(point) =>
      BlobInBytes(point.x);
      BlobInBytes(point.y);
      PrintAppend(BlobFields(point.x), BlobFields(point.y));
  }

  /** A public area is written as exactly these bytes. */
  lemma PublicInBytes(x: Public2B)
    ensures Printed(PublicFields(x.body)) == AreaBytes(x.body)
    ensures Printed(Public2BFields(x)) == BE(2, x.size) + AreaBytes(x.body)
  {
    HeaderInBytes(x.body);
    BlobInBytes(x.body.authPolicy);
    DetailsInBytes(x.body.kind, x.body.parameters);
    UniqueInBytes(x.body.kind, x.body.unique);
    Print4(HeaderFields(x.body), BlobFields(x.body.authPolicy), PublicParmsFields(x.body.kind, x.body.parameters),
           PublicIdFields(x.body.kind, x.body.unique));
    PrintAppend([BE(2, x.size)], PublicFields(x.body));
    PrintOne(BE(2, x.size));
  }

  lemma HeaderInBytes(x: Public)
    ensures Printed(HeaderFields(x)) == HeaderBytes(x)
  {
    PrintTwo(BE(2, x.kind), BE(2, x.nameAlg));
    PrintOne(BE(4, x.objectAttributes));
    PrintAppend([BE(2, x.kind)] + [BE(2, x.nameAlg)], [BE(4, x.objectAttributes)]);
  }

  /** What an accepted input is read as: the value whose bytes they are. */
  lemma PublicIsRead(s: seq<byte>, allowNull: bool)
    requires ParsePublic2B(s, allowNull).Ok?
    ensures var x, v := ParsePublic2B(s, allowNull).value, SizedArea(s, 0, allowNull);
            v.At? && v.pos <= |s| && s[..v.pos] == BE(2, x.size) + AreaBytes(x.body)
  {
    var p := ParsePublic2B(s, allowNull);
    PublicAgrees(s, allowNull);
    PublicInBytes(p.value);
    SizeOfPut(Public2BFields(p.value), p.rest);
  }
}
