/** The 16-bit interface types: which algorithm identifiers, key sizes and curves each field of a
    public area may hold under the algorithms this library enables. */
module Algorithms {
  import opened Bytes
  import opened Wire

  const TPM_ALG_RSA: uint16 := 0x0001
  const TPM_ALG_TDES: uint16 := 0x0003
  const TPM_ALG_SHA1: uint16 := 0x0004
  const TPM_ALG_HMAC: uint16 := 0x0005
  const TPM_ALG_AES: uint16 := 0x0006
  const TPM_ALG_MGF1: uint16 := 0x0007
  const TPM_ALG_KEYEDHASH: uint16 := 0x0008
  const TPM_ALG_XOR: uint16 := 0x000A
  const TPM_ALG_SHA256: uint16 := 0x000B
  const TPM_ALG_SHA384: uint16 := 0x000C
  const TPM_ALG_SHA512: uint16 := 0x000D
  const TPM_ALG_NULL: uint16 := 0x0010
  const TPM_ALG_RSASSA: uint16 := 0x0014
  const TPM_ALG_RSAES: uint16 := 0x0015
  const TPM_ALG_RSAPSS: uint16 := 0x0016
  const TPM_ALG_OAEP: uint16 := 0x0017
  const TPM_ALG_ECDSA: uint16 := 0x0018
  const TPM_ALG_ECDH: uint16 := 0x0019
  const TPM_ALG_ECDAA: uint16 := 0x001A
  const TPM_ALG_ECSCHNORR: uint16 := 0x001C
  const TPM_ALG_KDF1_SP800_56A: uint16 := 0x0020
  const TPM_ALG_KDF1_SP800_108: uint16 := 0x0022
  const TPM_ALG_ECC: uint16 := 0x0023
  const TPM_ALG_SYMCIPHER: uint16 := 0x0025
  const TPM_ALG_CTR: uint16 := 0x0040
  const TPM_ALG_OFB: uint16 := 0x0041
  const TPM_ALG_CBC: uint16 := 0x0042
  const TPM_ALG_CFB: uint16 := 0x0043
  const TPM_ALG_ECB: uint16 := 0x0044

  const TPM_ECC_NIST_P224: uint16 := 0x0002
  const TPM_ECC_NIST_P256: uint16 := 0x0003
  const TPM_ECC_BN_P256: uint16 := 0x0010

  const TPM_RC_HASH: uint32 := 0x83
  const TPM_RC_VALUE: uint32 := 0x84
  const TPM_RC_MODE: uint32 := 0x89
  const TPM_RC_TYPE: uint32 := 0x8A
  const TPM_RC_KDF: uint32 := 0x8C
  const TPM_RC_SCHEME: uint32 := 0x92
  const TPM_RC_SYMMETRIC: uint32 := 0x96
  const TPM_RC_SELECTOR: uint32 := 0x98
  const TPM_RC_RESERVED_BITS: uint32 := 0xA1
  const TPM_RC_CURVE: uint32 := 0xA6

  /** One constructor per TPMI unmarshaller; `allowNull` is the C `flag` argument. */
  datatype Tpmi =
    | AlgHash(allowNull: bool)
    | AlgSymObject(allowNull: bool)
    | AlgSymMode(allowNull: bool)
    | AlgKdf(allowNull: bool)
    | AlgKeyedHashScheme(allowNull: bool)
    | AlgRsaScheme(allowNull: bool)
    | AlgEccScheme(allowNull: bool)
    | TdesKeyBits
    | AesKeyBits
    | RsaKeyBits
    | EccCurve
    | AlgPublic

  predicate Admits(kind: Tpmi, x: uint16) {
    match kind
    case AlgHash(flag) =>
      x == TPM_ALG_SHA1 || x == TPM_ALG_SHA256 || x == TPM_ALG_SHA384 || x == TPM_ALG_SHA512
      || (flag && x == TPM_ALG_NULL)
    case AlgSymObject(flag) => x == TPM_ALG_TDES || x == TPM_ALG_AES
      || (flag && x == TPM_ALG_NULL)
    case AlgSymMode(flag) =>
      x == TPM_ALG_CTR || x == TPM_ALG_OFB || x == TPM_ALG_CBC || x == TPM_ALG_CFB || x == TPM_ALG_ECB
      || (flag && x == TPM_ALG_NULL)
    case AlgKdf(flag) =>
      x == TPM_ALG_MGF1 || x == TPM_ALG_KDF1_SP800_56A || x == TPM_ALG_KDF1_SP800_108
      || (flag && x == TPM_ALG_NULL)
    case AlgKeyedHashScheme(flag) => x == TPM_ALG_HMAC || x == TPM_ALG_XOR
      || (flag && x == TPM_ALG_NULL)
    case AlgRsaScheme(flag) =>
      x == TPM_ALG_RSAES || x == TPM_ALG_OAEP || x == TPM_ALG_RSASSA || x == TPM_ALG_RSAPSS
      || (flag && x == TPM_ALG_NULL)
    case AlgEccScheme(flag) =>
      x == TPM_ALG_ECDAA || x == TPM_ALG_ECDSA || x == TPM_ALG_ECSCHNORR || x == TPM_ALG_ECDH
      || (flag && x == TPM_ALG_NULL)
    case TdesKeyBits => x == 128 || x == 192
    case AesKeyBits => x == 128 || x == 256
    case RsaKeyBits => x == 1024 || x == 2048
    case EccCurve => x == TPM_ECC_BN_P256 || x == TPM_ECC_NIST_P224 || x == TPM_ECC_NIST_P256
    case AlgPublic => x == TPM_ALG_RSA || x == TPM_ALG_ECC || x == TPM_ALG_KEYEDHASH || x == TPM_ALG_SYMCIPHER
  }

  function Refusal(kind: Tpmi): (rc: uint32)
    ensures rc != TPM_RC_SUCCESS
  {
    match kind
    case AlgHash(_) => TPM_RC_HASH
    case AlgSymObject(_) => TPM_RC_SYMMETRIC
    case AlgSymMode(_) => TPM_RC_MODE
    case AlgKdf(_) => TPM_RC_KDF
    case AlgEccScheme(_) => TPM_RC_SCHEME
    case EccCurve => TPM_RC_CURVE
    case AlgPublic => TPM_RC_TYPE
    case _ => TPM_RC_VALUE
  }

  function ParseTpmi(s: seq<byte>, kind: Tpmi): (p: Parsed<uint16>)
    ensures p.Ok? ==> Admits(kind, p.value) && s == PutAll([BE(2, p.value)], p.rest)
    ensures p.Err? ==> p.code != TPM_RC_SUCCESS
  {
    var (x, s1) :- ParseUint16(s);
    if Admits(kind, x) then Ok(x, s1) else Err(Refusal(kind))
  }

  method UnmarshalTpmi(buffer: Cursor, size: Budget, kind: Tpmi) returns (rc: uint32, target: uint16)
    requires Readable(buffer, size)
    modifies buffer, size
    ensures Read(buffer, size, ParseTpmi(old(Rest(buffer, size)), kind), rc, target)
  {
    rc, target := UnmarshalUint16(buffer, size);
    if rc != TPM_RC_SUCCESS { return; }
    if !Admits(kind, target) {
      rc := Refusal(kind);
    }
  }
}
