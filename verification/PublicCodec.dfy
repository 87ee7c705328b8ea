/** The marshallers and unmarshallers of TPM2B_PUBLIC, down to its unions. */
module PublicCodec {
  import opened Bytes
  import opened Wire
  import opened Algorithms
  import opened Blobs
  import opened Schemes
  import opened PublicArea

  // ----- Marshalling

  method MarshalEccPoint(source: EccPoint, buffer: Cursor?, size: Budget?) returns (result: uint16)
    requires Room(View(buffer, size), Size(EccPointFields(source)))
    modifies Frame(buffer, size)
    ensures Wrote(buffer, size, EccPointFields(source), result)
  {
    Emit2(View(buffer, size), BlobFields(source.x), BlobFields(source.y));
    result := 0;
    var n := MarshalBlob(source.x, buffer, size); result := Add16(result, n);
    n := MarshalBlob(source.y, buffer, size); result := Add16(result, n);
  }

  method MarshalRsaParms(source: RsaParms, buffer: Cursor?, size: Budget?) returns (result: uint16)
    requires Room(View(buffer, size), Size(RsaParmsFields(source)))
    modifies Frame(buffer, size)
    ensures Wrote(buffer, size, RsaParmsFields(source), result)
  {
    Emit4(View(buffer, size), SymDefObjectFields(source.symmetric), AsymSchemeFields(source.scheme),
          [BE(2, source.keyBits)], [BE(4, source.exponent)]);
    result := 0;
    var n := MarshalSymDefObject(source.symmetric, buffer, size); result := Add16(result, n);
    n := MarshalAsymScheme(source.scheme, buffer, size); result := Add16(result, n);
    n := MarshalUint16(source.keyBits, buffer, size); result := Add16(result, n);
    n := MarshalUint32(source.exponent, buffer, size); result := Add16(result, n);
  }

  method MarshalEccParms(source: EccParms, buffer: Cursor?, size: Budget?) returns (result: uint16)
    requires Room(View(buffer, size), Size(EccParmsFields(source)))
    modifies Frame(buffer, size)
    ensures Wrote(buffer, size, EccParmsFields(source), result)
  {
    Emit4(View(buffer, size), SymDefObjectFields(source.symmetric), AsymSchemeFields(source.scheme),
          [BE(2, source.curveId)], KdfSchemeFields(source.kdf));
    result := 0;
    var n := MarshalSymDefObject(source.symmetric, buffer, size); result := Add16(result, n);
    n := MarshalAsymScheme(source.scheme, buffer, size); result := Add16(result, n);
    n := MarshalUint16(source.curveId, buffer, size); result := Add16(result, n);
    n := MarshalKdfScheme(source.kdf, buffer, size); result := Add16(result, n);
  }

  method MarshalPublicParms(source: PublicParms, buffer: Cursor?, size: Budget?, selector: uint16)
    returns (count: uint16)
    requires ParmsSelected(selector, source)
    requires Room(View(buffer, size), Size(PublicParmsFields(selector, source)))
    modifies Frame(buffer, size)
    ensures Wrote(buffer, size, PublicParmsFields(selector, source), count)
  {
    if selector == TPM_ALG_KEYEDHASH {
      count := MarshalKeyedHashScheme(source.keyedHash, buffer, size);
    } else if selector == TPM_ALG_SYMCIPHER {
      count := MarshalSymDefObject(source.sym, buffer, size);
    } else if selector == TPM_ALG_RSA {
      count := MarshalRsaParms(source.rsa, buffer, size);
    } else if selector == TPM_ALG_ECC {
      count := MarshalEccParms(source.ecc, buffer, size);
    } else {
      count := 0;
    }
  }

  method MarshalPublicId(source: PublicId, buffer: Cursor?, size: Budget?, selector: uint16)
    returns (count: uint16)
    requires IdSelected(selector, source)
    requires Room(View(buffer, size), Size(PublicIdFields(selector, source)))
    modifies Frame(buffer, size)
    ensures Wrote(buffer, size, PublicIdFields(selector, source), count)
  {
    if selector == TPM_ALG_KEYEDHASH || selector == TPM_ALG_SYMCIPHER {
      count := MarshalBlob(source.digest, buffer, size);
    } else if selector == TPM_ALG_RSA {
      count := MarshalBlob(source.modulus, buffer, size);
    } else if selector == TPM_ALG_ECC {
      count := MarshalEccPoint(source.point, buffer, size);
    } else {
      count := 0;
    }
  }

  method MarshalPublic(source: Public, buffer: Cursor?, size: Budget?) returns (result: uint16)
    requires ParmsSelected(source.kind, source.parameters) && IdSelected(source.kind, source.unique)
    requires Room(View(buffer, size), Size(PublicFields(source)))
    modifies Frame(buffer, size)
    ensures Wrote(buffer, size, PublicFields(source), result)
  {
    Emit4(View(buffer, size), HeaderFields(source), BlobFields(source.authPolicy),
          PublicParmsFields(source.kind, source.parameters), PublicIdFields(source.kind, source.unique));
    Emit3(View(buffer, size), [BE(2, source.kind)], [BE(2, source.nameAlg)], [BE(4, source.objectAttributes)]);
    result := 0;
    var n := MarshalUint16(source.kind, buffer, size); result := Add16(result, n);
    n := MarshalUint16(source.nameAlg, buffer, size); result := Add16(result, n);
    n := MarshalUint32(source.objectAttributes, buffer, size); result := Add16(result, n);
    n := MarshalBlob(source.authPolicy, buffer, size); result := Add16(result, n);
    n := MarshalPublicParms(source.parameters, buffer, size, source.kind); result := Add16(result, n);
    n := MarshalPublicId(source.unique, buffer, size, source.kind); result := Add16(result, n);
  }

  /** TPM2B_PUBLIC_Marshal. The body may use the whole budget before the length is charged, so it may
      end up to two bytes beyond the budgeted memory. The source's own size is ignored. */
  method MarshalPublic2B(source: Public2B, buffer: Cursor, size: Budget?) returns (result: uint16)
    requires var x := source.body; ParmsSelected(x.kind, x.parameters) && IdSelected(x.kind, x.unique)
    requires RoomSized(View(buffer, size), Size(PublicFields(source.body)))
    modifies Frame(buffer, size)
    ensures View(buffer, size) == EmitSized(old(View(buffer, size)), PublicFields(source.body))
    ensures result == Low16(Size(PublicFields(source.body)) + 2)
  {
    EmitSizedFits(View(buffer, size), PublicFields(source.body));
    var sizeField := new Cursor(buffer.data, buffer.pos);
    buffer.pos := buffer.pos + 2;
    assert View(buffer, size) == old(View(buffer, size)).(pos := old(buffer.pos) + 2);
    result := MarshalPublic(source.body, buffer, size);
    assert View(sizeField, size) == View(buffer, size).(pos := sizeField.pos);
    var n := WriteLength(result, sizeField, buffer, size);
    Low16Adds(Size(PublicFields(source.body)), 2);
    result := Add16(result, n);
  }

  // ----- Unmarshalling

  method UnmarshalEccPoint(buffer: Cursor, size: Budget) returns (rc: uint32, target: EccPoint)
    requires Readable(buffer, size)
    modifies buffer, size
    ensures Read(buffer, size, ParseEccPoint(old(Rest(buffer, size))), rc, target)
  {
    target := EccPoint([], []);
    var x, y;
    rc, x := UnmarshalBlob(buffer, size, MAX_ECC_KEY_BYTES);
    if rc != TPM_RC_SUCCESS { return; }
    rc, y := UnmarshalBlob(buffer, size, MAX_ECC_KEY_BYTES);
    target := EccPoint(x, y);
  }

  method UnmarshalKeySchemes(buffer: Cursor, size: Budget, kind: Tpmi)
    returns (rc: uint32, target: KeySchemes)
    requires Readable(buffer, size)
    modifies buffer, size
    ensures Read(buffer, size, ParseKeySchemes(old(Rest(buffer, size)), kind), rc, target)
  {
    target := KeySchemes(SymDefObject(0, 0, 0), AsymScheme(0, 0, 0));
    var symmetric, scheme;
    rc, symmetric := UnmarshalSymDefObject(buffer, size, true);
    if rc != TPM_RC_SUCCESS { return; }
    rc, scheme := UnmarshalAsymScheme(buffer, size, kind);
    target := KeySchemes(symmetric, scheme);
  }

  method UnmarshalRsaParms(buffer: Cursor, size: Budget) returns (rc: uint32, target: RsaParms)
    requires Readable(buffer, size)
    modifies buffer, size
    ensures Read(buffer, size, ParseRsaParms(old(Rest(buffer, size))), rc, target)
  {
    target := RsaParms(SymDefObject(0, 0, 0), AsymScheme(0, 0, 0), 0, 0);
    var keys, keyBits, exponent;
    rc, keys := UnmarshalKeySchemes(buffer, size, AlgRsaScheme(true));
    if rc != TPM_RC_SUCCESS { return; }
    rc, keyBits := UnmarshalTpmi(buffer, size, RsaKeyBits);
    if rc != TPM_RC_SUCCESS { return; }
    rc, exponent := UnmarshalUint32(buffer, size);
    target := RsaParms(keys.symmetric, keys.scheme, keyBits, exponent);
  }

  method UnmarshalEccParms(buffer: Cursor, size: Budget) returns (rc: uint32, target: EccParms)
    requires Readable(buffer, size)
    modifies buffer, size
    ensures Read(buffer, size, ParseEccParms(old(Rest(buffer, size))), rc, target)
  {
    target := EccParms(SymDefObject(0, 0, 0), AsymScheme(0, 0, 0), 0, KdfScheme(0, 0));
    var keys, curveId, kdf;
    rc, keys := UnmarshalKeySchemes(buffer, size, AlgEccScheme(true));
    if rc != TPM_RC_SUCCESS { return; }
    rc, curveId := UnmarshalTpmi(buffer, size, EccCurve);
    if rc != TPM_RC_SUCCESS { return; }
    rc, kdf := UnmarshalKdfScheme(buffer, size, true);
    target := EccParms(keys.symmetric, keys.scheme, curveId, kdf);
  }

  method UnmarshalPublicParms(buffer: Cursor, size: Budget, selector: uint16)
    returns (rc: uint32, target: PublicParms)
    requires Readable(buffer, size)
    modifies buffer, size
    ensures Read(buffer, size, ParsePublicParms(old(Rest(buffer, size)), selector), rc, target)
  {
    target := SymDetail(SymDefObject(0, 0, 0));
    if selector == TPM_ALG_KEYEDHASH {
      var keyedHash;
      rc, keyedHash := UnmarshalKeyedHashScheme(buffer, size, true);
      target := KeyedHashDetail(keyedHash);
    } else if selector == TPM_ALG_SYMCIPHER {
      var sym;
      rc, sym := UnmarshalSymDefObject(buffer, size, false);
      target := SymDetail(sym);
    } else if selector == TPM_ALG_RSA {
      var rsa;
      rc, rsa := UnmarshalRsaParms(buffer, size);
      target := RsaDetail(rsa);
    } else if selector == TPM_ALG_ECC {
      var ecc;
      rc, ecc := UnmarshalEccParms(buffer, size);
      target := EccDetail(ecc);
    } else {
      rc := TPM_RC_SELECTOR;
    }
  }

  method UnmarshalPublicId(buffer: Cursor, size: Budget, selector: uint16) returns (rc: uint32, target: PublicId)
    requires Readable(buffer, size)
    modifies buffer, size
    ensures Read(buffer, size, ParsePublicId(old(Rest(buffer, size)), selector), rc, target)
  {
    target := DigestId([]);
    if selector == TPM_ALG_KEYEDHASH || selector == TPM_ALG_SYMCIPHER {
      var digest;
      rc, digest := UnmarshalBlob(buffer, size, SIZEOF_TPMU_HA);
      target := DigestId(digest);
    } else if selector == TPM_ALG_RSA {
      var modulus;
      rc, modulus := UnmarshalBlob(buffer, size, MAX_RSA_KEY_BYTES);
      target := RsaId(modulus);
    } else if selector == TPM_ALG_ECC {
      var point;
      rc, point := UnmarshalEccPoint(buffer, size);
      target := EccId(point);
    } else {
      rc := TPM_RC_SELECTOR;
    }
  }

  method UnmarshalAfterHeader(buffer: Cursor, size: Budget, kind: uint16, nameAlg: uint16, attributes: uint32)
    returns (rc: uint32, target: Public)
    requires Readable(buffer, size)
    modifies buffer, size
    ensures Read(buffer, size, ParseAfterHeader(old(Rest(buffer, size)), kind, nameAlg, attributes), rc, target)
  {
    target := NO_PUBLIC;
    var authPolicy, parameters, unique;
    rc, authPolicy := UnmarshalBlob(buffer, size, SIZEOF_TPMU_HA);
    if rc != TPM_RC_SUCCESS { return; }
    rc, parameters := UnmarshalPublicParms(buffer, size, kind);
    if rc != TPM_RC_SUCCESS { return; }
    rc, unique := UnmarshalPublicId(buffer, size, kind);
    target := Public(kind, nameAlg, attributes, authPolicy, parameters, unique);
  }

  method UnmarshalPublic(buffer: Cursor, size: Budget, flag: bool) returns (rc: uint32, target: Public)
    requires Readable(buffer, size)
    modifies buffer, size
    ensures Read(buffer, size, ParsePublic(old(Rest(buffer, size)), flag), rc, target)
  {
    target := NO_PUBLIC;
    var kind, nameAlg, attributes;
    rc, kind := UnmarshalTpmi(buffer, size, AlgPublic);
    if rc != TPM_RC_SUCCESS { return; }
    rc, nameAlg := UnmarshalTpmi(buffer, size, AlgHash(flag));
    if rc != TPM_RC_SUCCESS { return; }
    rc, attributes := UnmarshalAttributes(buffer, size, OBJECT_RESERVED);
    if rc != TPM_RC_SUCCESS { return; }
    rc, target := UnmarshalAfterHeader(buffer, size, kind, nameAlg, attributes);
  }

  method UnmarshalPublic2B(buffer: Cursor, size: Budget, flag: bool) returns (rc: uint32, target: Public2B)
    requires Readable(buffer, size)
    modifies buffer, size
    ensures Read(buffer, size, ParsePublic2B(old(Rest(buffer, size)), flag), rc, target)
  {
    target := Sized(0, NO_PUBLIC);
    var length;
    rc, length := UnmarshalUint16(buffer, size);
    if rc != TPM_RC_SUCCESS { return; }
    if length == 0 { rc := TPM_RC_SIZE; return; }
    rc, target := UnmarshalSizedPublic(buffer, size, flag, length);
  }

  method UnmarshalSizedPublic(buffer: Cursor, size: Budget, flag: bool, length: uint16)
    returns (rc: uint32, target: Public2B)
    requires Readable(buffer, size) && size.left >= 0
    modifies buffer, size
    ensures Read(buffer, size, CheckSize(length, old(size.left), ParsePublic(old(Rest(buffer, size)), flag)), rc,
                 target)
  {
    target := Sized(0, NO_PUBLIC);
    var startSize := size.left;
    var publicArea;
    rc, publicArea := UnmarshalPublic(buffer, size, flag);
    if rc != TPM_RC_SUCCESS { return; }
    if length != startSize - size.left { rc := TPM_RC_SIZE; return; }
    target := Sized(length, publicArea);
  }

  // ----- Through memory and back

  lemma SizedInMemory(mem: seq<byte>, pos: nat, budget: nat, body: seq<Field>)
    requires Size(body) < 0x1_0000 && 2 + Size(body) <= budget && pos + 2 + Size(body) <= |mem|
    ensures var n, encoded := Size(body), PutAll([BE(2, Size(body))] + body, []);
            && |encoded| == n + 2 && RoomSized(Buffer(mem, pos, Some(budget)), n)
            && EmitSized(Buffer(mem, pos, Some(budget)), body)
               == Buffer(mem[..pos] + encoded + mem[pos + 2 + n..], pos + 2 + n, Some(budget - 2 - n))
  {
    DeferredFits(mem, pos, budget, body);
    Put2([BE(2, Size(body))], body, []);
    PutOne();
    SizeOfPut(body, []);
  }

  /** What MarshalPublic2B leaves in memory when the budget suffices. */
  lemma PublicInMemory(source: Public, flag: bool, mem: seq<byte>, pos: nat, budget: nat)
    requires PublicOk(source, flag)
    requires 2 + Size(PublicFields(source)) <= budget && pos + 2 + Size(PublicFields(source)) <= |mem|
    ensures var n := Size(PublicFields(source));
            && 12 <= n <= 350 && RoomSized(Buffer(mem, pos, Some(budget)), n)
            && |PutAll(Public2BFields(Sized(n, source)), [])| == n + 2
            && EmitSized(Buffer(mem, pos, Some(budget)), PublicFields(source))
               == Buffer(mem[..pos] + PutAll(Public2BFields(Sized(n, source)), []) + mem[pos + 2 + n..],
                         pos + 2 + n, Some(budget - 2 - n))
  {
    PublicSize(source, flag);
    var body := PublicFields(source);
    assert Public2BFields(Sized(Size(body), source)) == [BE(2, Size(body))] + body;
    SizedInMemory(mem, pos, budget, body);
  }

  /** A well-formed public area marshalled anywhere in memory, with budget for two bytes more than
      its body, unmarshals from there as itself, using exactly the bytes that were written. */
  method PublicThroughMemory(source: Public, flag: bool, memory: array<byte>, pos: nat, budget: nat)
    returns (rc: uint32, target: Public2B, used: nat)
    requires PublicOk(source, flag)
    requires 2 + Size(PublicFields(source)) <= budget && pos + budget <= memory.Length
    modifies memory
    ensures rc == TPM_RC_SUCCESS && target.body == source && target.size == Size(PublicFields(source))
    ensures used == 2 + Size(PublicFields(source))
    ensures memory[..] == old(memory[..pos]) + PutAll(Public2BFields(target), []) + old(memory[pos + used..])
  {
    var written, x := StorePublic(source, flag, memory, pos, budget);
    ghost var encoded := PutAll(Public2BFields(x), []);
    MiddleOf(old(memory[..pos]), encoded, old(memory[pos + written..]));
    assert memory[pos..pos + written] == memory[..][pos..pos + written] == encoded;
    rc, target, used := ReloadPublic(flag, memory, pos, written, x);
  }

  method StorePublic(source: Public, flag: bool, memory: array<byte>, pos: nat, budget: nat)
    returns (written: nat, ghost x: Public2B)
    requires PublicOk(source, flag)
    requires 2 + Size(PublicFields(source)) <= budget && pos + budget <= memory.Length
    modifies memory
    ensures Public2BOk(x, flag) && x.body == source && x.size == Size(PublicFields(source))
    ensures written == 2 + x.size == |PutAll(Public2BFields(x), [])|
    ensures memory[..] == old(memory[..pos]) + PutAll(Public2BFields(x), []) + old(memory[pos + written..])
  {
    PublicInMemory(source, flag, memory[..], pos, budget);
    x := Sized(Size(PublicFields(source)), source);
    written := MarshalAt(source, memory, pos, budget);
  }

  method MarshalAt(source: Public, memory: array<byte>, pos: nat, budget: nat) returns (written: nat)
    requires ParmsSelected(source.kind, source.parameters) && IdSelected(source.kind, source.unique)
    requires pos <= memory.Length && RoomSized(Buffer(memory[..], pos, Some(budget)), Size(PublicFields(source)))
    modifies memory
    ensures written == Low16(Size(PublicFields(source)) + 2)
    ensures memory[..] == EmitSized(Buffer(old(memory[..]), pos, Some(budget)), PublicFields(source)).mem
  {
    var writer := new Cursor(memory, pos);
    var room := new Budget(budget);
    assert View(writer, room) == Buffer(old(memory[..]), pos, Some(budget));
    written := MarshalPublic2B(Sized(0, source), writer, room);
    assert memory[..] == View(writer, room).mem;
  }

  lemma MiddleOf(a: seq<byte>, b: seq<byte>, c: seq<byte>)
    ensures (a + b + c)[|a|..|a| + |b|] == b
  {
  }

  method ReloadPublic(flag: bool, memory: array<byte>, pos: nat, written: nat, ghost x: Public2B)
    returns (rc: uint32, target: Public2B, used: nat)
    requires pos + written <= memory.Length
    requires Public2BOk(x, flag) && memory[pos..pos + written] == PutAll(Public2BFields(x), [])
    ensures rc == TPM_RC_SUCCESS && target == x && used == written
  {
    Public2BRoundTrip(x, flag, []);
    rc, target, used := UnmarshalAt(flag, memory, pos, written);
  }

  method UnmarshalAt(flag: bool, memory: array<byte>, pos: nat, covered: nat)
    returns (rc: uint32, target: Public2B, used: nat)
    requires pos + covered <= memory.Length
    ensures match ParsePublic2B(memory[pos..pos + covered], flag)
            case Ok(x, rest) => rc == TPM_RC_SUCCESS && target == x && used == covered - |rest|
            case Err(code) => rc == code
  {
    var reader := new Cursor(memory, pos);
    var size := new Budget(covered);
    assert Rest(reader, size) == memory[pos..pos + covered];
    rc, target := UnmarshalPublic2B(reader, size, flag);
    used := reader.pos - pos;
  }
}
