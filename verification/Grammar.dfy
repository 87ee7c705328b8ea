/** The structures of the codec in numbers and offsets: of which bytes each is made, and with which code
    anything else is refused. Nothing here refers to the parsers, whose agreement with it is proved. */
module Grammar {
  import opened Bytes
  import opened Wire
  import opened Algorithms
  import opened Blobs

  /** Where a structure ends, or the code that it is refused with. */
  datatype Verdict = At(pos: nat) | Bad(code: uint32) {
    predicate IsFailure() { Bad? }
    function PropagateFailure(): Verdict
      requires Bad?
    {
      this
    }
    function Extract(): nat
      requires At?
    {
      pos
    }
  }

  /** The big-endian number in `n` bytes. */
  function Num(s: seq<byte>, at: nat, n: nat): nat
    requires at + n <= |s|
  {
    FromBE(s[at..at + n])
  }

  // ----- The parts

  function Skip(s: seq<byte>, at: nat, n: nat): Verdict {
    if at + n <= |s| then At(at + n) else Bad(0x9A)
  }

  /** A sized buffer of at most `max` bytes. */
  function Block(s: seq<byte>, at: nat, max: nat): Verdict {
    if at + 2 > |s| then Bad(0x9A)
    else if Num(s, at, 2) > max then Bad(0x95)
    else Skip(s, at + 2, Num(s, at, 2))
  }

  /** A word without any of the bits of `mask`. */
  ghost function Flags(s: seq<byte>, at: nat, n: nat, mask: nat): Verdict {
    if at + n > |s| then Bad(0x9A) else if Clear(Num(s, at, n), mask) then At(at + n) else Bad(0xA1)
  }

  function Nullable(values: set<nat>, allowNull: bool): set<nat> {
    values + if allowNull then {0x10} else {}
  }

  /** The values of each 16-bit interface type. */
  function Legal(kind: Tpmi): set<nat> {
    match kind
    case AlgHash(flag) => Nullable({0x04, 0x0B, 0x0C, 0x0D}, flag)
    case AlgSymObject(flag) => Nullable({0x03, 0x06}, flag)
    case AlgSymMode(flag) => Nullable({0x40, 0x41, 0x42, 0x43, 0x44}, flag)
    case AlgKdf(flag) => Nullable({0x07, 0x20, 0x22}, flag)
    case AlgKeyedHashScheme(flag) => Nullable({0x05, 0x0A}, flag)
    case AlgRsaScheme(flag) => Nullable({0x14, 0x15, 0x16, 0x17}, flag)
    case AlgEccScheme(flag) => Nullable({0x18, 0x19, 0x1A, 0x1C}, flag)
    case TdesKeyBits => {128, 192}
    case AesKeyBits => {128, 256}
    case RsaKeyBits => {1024, 2048}
    case EccCurve => {0x02, 0x03, 0x10}
    case AlgPublic => {0x01, 0x08, 0x23, 0x25}
  }

  /** The code that any other value is refused with. */
  function Code(kind: Tpmi): uint32 {
    match kind
    case AlgHash(_) => 0x83
    case AlgSymMode(_) => 0x89
    case AlgPublic => 0x8A
    case AlgKdf(_) => 0x8C
    case AlgEccScheme(_) => 0x92
    case AlgSymObject(_) => 0x96
    case EccCurve => 0xA6
    case AlgKeyedHashScheme(_) => 0x84
    case AlgRsaScheme(_) => 0x84
    case TdesKeyBits => 0x84
    case AesKeyBits => 0x84
    case RsaKeyBits => 0x84
  }

  function Choice(s: seq<byte>, at: nat, kind: Tpmi): Verdict {
    if at + 2 > |s| then Bad(0x9A) else if Num(s, at, 2) in Legal(kind) then At(at + 2) else Bad(Code(kind))
  }

  // ----- Agreement of the parsers of the parts

  /** Whether a parser of `s` from some position on and the grammar say the same. */
  predicate Agrees<T>(s: seq<byte>, p: Parsed<T>, v: Verdict) {
    match p
    case Ok(_, rest) => v.At? && v.pos <= |s| && rest == s[v.pos..]
    case Err(code) => v == Bad(code)
  }

  /** The tables of the interface types hold exactly these values. */
  lemma TablesAgree(kind: Tpmi, x: uint16)
    ensures Admits(kind, x) <==> x in Legal(kind)
    ensures Refusal(kind) == Code(kind)
  {
  }

  lemma Middle(s: seq<byte>, at: nat, n: nat)
    requires at + n <= |s|
    ensures s[at..][..n] == s[at..at + n] && s[at..][n..] == s[at + n..]
  {
  }

  lemma UintAgrees(s: seq<byte>, at: nat, n: nat)
    requires at <= |s|
    ensures Agrees(s, ParseUint(n, s[at..]), Skip(s, at, n))
    ensures ParseUint(n, s[at..]).Ok? ==> ParseUint(n, s[at..]).value == Num(s, at, n)
  {
    if at + n <= |s| {
      Middle(s, at, n);
    }
  }

  lemma Uint8Agrees(s: seq<byte>, at: nat)
    requires at <= |s|
    ensures Agrees(s, ParseUint8(s[at..]), Skip(s, at, 1))
    ensures ParseUint8(s[at..]).Ok? ==> ParseUint8(s[at..]).value == Num(s, at, 1)
  {
    UintAgrees(s, at, 1);
  }

  lemma Uint16Agrees(s: seq<byte>, at: nat)
    requires at <= |s|
    ensures Agrees(s, ParseUint16(s[at..]), Skip(s, at, 2))
    ensures ParseUint16(s[at..]).Ok? ==> ParseUint16(s[at..]).value == Num(s, at, 2)
  {
    UintAgrees(s, at, 2);
  }

  lemma Uint32Agrees(s: seq<byte>, at: nat)
    requires at <= |s|
    ensures Agrees(s, ParseUint32(s[at..]), Skip(s, at, 4))
    ensures ParseUint32(s[at..]).Ok? ==> ParseUint32(s[at..]).value == Num(s, at, 4)
  {
    UintAgrees(s, at, 4);
  }

  lemma BytesAgree(s: seq<byte>, at: nat, n: nat)
    requires at <= |s|
    ensures Agrees(s, ParseByteArray(s[at..], n), Skip(s, at, n))
    ensures ParseByteArray(s[at..], n).Ok? ==> ParseByteArray(s[at..], n).value == s[at..at + n]
  {
    if at + n <= |s| {
      Middle(s, at, n);
    }
  }

  /** A 16-bit interface type is accepted exactly for the values listed, and refused with the type's code. */
  lemma TpmiAgrees(s: seq<byte>, at: nat, kind: Tpmi)
    requires at <= |s|
    ensures Agrees(s, ParseTpmi(s[at..], kind), Choice(s, at, kind))
    ensures ParseTpmi(s[at..], kind).Ok? ==> ParseTpmi(s[at..], kind).value == Num(s, at, 2)
  {
    Uint16Agrees(s, at);
    if at + 2 <= |s| {
      TablesAgree(kind, ParseUint16(s[at..]).value);
    }
  }

  /** A sized buffer is accepted exactly if its length is within the array and covered. */
  lemma BlobAgrees(s: seq<byte>, at: nat, max: nat)
    requires at <= |s|
    ensures Agrees(s, ParseBlob(s[at..], max), Block(s, at, max))
    ensures ParseBlob(s[at..], max).Ok? ==> ParseBlob(s[at..], max).value == s[at + 2..at + 2 + Num(s, at, 2)]
  {
    Uint16Agrees(s, at);
    if at + 2 <= |s| && Num(s, at, 2) <= max {
      BytesAgree(s, at + 2, Num(s, at, 2));
    }
  }

  /** An attribute word is accepted exactly without reserved bits. */
  lemma AttributesAgree(s: seq<byte>, at: nat, reserved: uint32)
    requires at <= |s|
    ensures Agrees(s, ParseAttributes(s[at..], reserved), Flags(s, at, 4, reserved))
  {
    AttributesAreBits(s[at..], reserved);
    if at + 4 <= |s| {
      Middle(s, at, 4);
    }
  }

  // ----- Which bytes a value is written as

  function Printed(fields: seq<Field>): seq<byte> {
    PutAll(fields, [])
  }

  lemma PrintAppend(a: seq<Field>, b: seq<Field>)
    ensures Printed(a + b) == Printed(a) + Printed(b)
  {
    Put2(a, b, []);
    SizeOfPut(a, Printed(b));
  }

  lemma PrintOne(f: Field)
    ensures Printed([f]) == f
  {
    PutOne();
    assert f + [] == f;
  }

  lemma PrintTwo(f: Field, g: Field)
    ensures Printed([f] + [g]) == f + g
  {
    PrintAppend([f], [g]);
    PrintOne(f);
    PrintOne(g);
  }

  lemma Print4(a: seq<Field>, b: seq<Field>, c: seq<Field>, d: seq<Field>)
    ensures Printed(a + b + c + d) == Printed(a) + Printed(b) + Printed(c) + Printed(d)
  {
    PrintAppend(a + b + c, d);
    PrintAppend(a + b, c);
    PrintAppend(a, b);
  }

  function BlockBytes(b: seq<byte>): seq<byte> {
    BE(2, |b|) + b
  }

  /** A sized buffer is its length and its bytes. */
  lemma BlobInBytes(b: Blob)
    ensures Printed(BlobFields(b)) == BlockBytes(b)
  {
    PrintOne(BE(2, |b|));
    if b != [] {
      PrintTwo(BE(2, |b|), b);
    } else {
      assert [BE(2, |b|)] + [] == [BE(2, |b|)];
    }
  }
}
