/** TPM2B sized buffers, attribute words with reserved bits, and hash values. */
module Blobs {
  import opened Bytes
  import opened Wire
  import opened Algorithms

  /** The contents of a TPM2B; its `size` field is the length. */
  type Blob = s: seq<byte> | |s| < 0x1_0000

  // sizeof(TPMU_HA), sizeof(TPMT_HA), sizeof(TPMU_NAME)
  const SIZEOF_TPMU_HA := 64
  const SIZEOF_TPMT_HA := 66
  const SIZEOF_TPMU_NAME := 68

  /** A zero size ends the structure: no empty byte array follows it. */
  function BlobFields(b: Blob): seq<Field> {
    [BE(2, |b|)] + if |b| == 0 then [] else [b]
  }

  function ParseBlob(s: seq<byte>, max: nat): (p: Parsed<Blob>)
    ensures p.Ok? ==> |p.value| <= max && s == PutAll(BlobFields(p.value), p.rest)
    ensures p.Err? ==> p.code != TPM_RC_SUCCESS
  {
    SplitPut();
    var (size, s1) :- ParseUint16(s);
    if size > max then Err(TPM_RC_SIZE)
    else
      var (bytes, s2) :- ParseByteArray(s1, size);
      Ok(bytes, s2)
  }

  lemma BlobRoundTrip(b: Blob, max: nat, rest: seq<byte>)
    requires |b| <= max
    ensures ParseBlob(PutAll(BlobFields(b), rest), max) == Ok(b, rest)
  {
    SplitPut();
    WordRoundTrips();
    ByteArrayRoundTrip(b, rest);
    assert BE(2, |b|) + (b + rest) == PutAll(BlobFields(b), rest);
  }

  lemma BlobSize(b: Blob)
    ensures Size(BlobFields(b)) == 2 + |b|
  {
    SplitSize();
  }

  method MarshalBlob(source: Blob, buffer: Cursor?, size: Budget?) returns (result: uint16)
    requires Room(View(buffer, size), Size(BlobFields(source)))
    modifies Frame(buffer, size)
    ensures Wrote(buffer, size, BlobFields(source), result)
  {
    SplitEmit();
    result := 0;
    var n := MarshalUint16(|source|, buffer, size); result := Add16(result, n);
    if |source| == 0 { return; }
    n := MarshalByteArray(source, buffer, size); result := Add16(result, n);
  }

  method UnmarshalBlob(buffer: Cursor, size: Budget, max: nat) returns (rc: uint32, target: Blob)
    requires Readable(buffer, size)
    modifies buffer, size
    ensures Read(buffer, size, ParseBlob(old(Rest(buffer, size)), max), rc, target)
  {
    target := [];
    var length;
    rc, length := UnmarshalUint16(buffer, size);
    if rc != TPM_RC_SUCCESS { return; }
    if length > max { rc := TPM_RC_SIZE; return; }
    var bytes;
    rc, bytes := UnmarshalByteArray(buffer, size, length);
    if rc == TPM_RC_SUCCESS { target := bytes; }
  }

  // ----- 32-bit attribute words whose reserved bits must be clear

  function ParseAttributes(s: seq<byte>, reserved: uint32): (p: Parsed<uint32>)
    ensures p.Ok? ==> And(p.value, reserved) == 0 && s == PutAll([BE(4, p.value)], p.rest)
    ensures p.Err? ==> p.code != TPM_RC_SUCCESS
  {
    var (x, s1) :- ParseUint32(s);
    if And(x, reserved) == 0 then Ok(x, s1) else Err(TPM_RC_RESERVED_BITS)
  }

  /** An attribute word is refused exactly for bits it shares with the reserved ones. */
  lemma AttributesAreBits(s: seq<byte>, reserved: uint32)
    ensures ParseAttributes(s, reserved)
            == if |s| < 4 then Err(0x9A)
               else if Clear(FromBE(s[..4]), reserved) then Ok(FromBE(s[..4]), s[4..])
               else Err(0xA1)
  {
    Widths();
    if |s| >= 4 {
      AndIsClear(FromBE(s[..4]), reserved);
    }
  }

  method UnmarshalAttributes(buffer: Cursor, size: Budget, reserved: uint32) returns (rc: uint32, target: uint32)
    requires Readable(buffer, size)
    modifies buffer, size
    ensures Read(buffer, size, ParseAttributes(old(Rest(buffer, size)), reserved), rc, target)
    ensures old(size.left) >= 4 ==> (rc == TPM_RC_SUCCESS <==> Clear(FromBE(old(Rest(buffer, size))[..4]), reserved))
  {
    AttributesAreBits(Rest(buffer, size), reserved);
    rc, target := UnmarshalUint32(buffer, size);
    if rc != TPM_RC_SUCCESS { return; }
    if And(target, reserved) != 0 {
      rc := TPM_RC_RESERVED_BITS;
    }
  }
}
