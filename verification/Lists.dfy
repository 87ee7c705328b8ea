/** The counted lists of TPMS_CAPABILITY_DATA. The source has one marshalling and one unmarshalling
    loop per element type, with the same text; here the element type is the parameter `kind`. */
module Lists {
  import opened Bytes
  import opened Wire
  import opened Algorithms
  import opened Blobs
  import opened Codec

  const PCR_SELECT_MIN := 3
  const PCR_SELECT_MAX := 3
  const HASH_COUNT := 4
  const ALGORITHM_RESERVED: uint32 := 0xFFFFF8F0
  const COMMAND_RESERVED: uint32 := 0xC03F0000

  datatype Kind =
    | AlgProperties | Handles | CommandAttributes | Commands | PcrSelections
    | TaggedProperties | TaggedPcrSelects | Curves | TaggedPolicies

  datatype Item =
    | Word32(word: uint32)
    | Curve(curve: uint16)
    | AlgProperty(alg: uint16, algProperties: uint32)
    | PcrSelection(hash: uint16, select: seq<byte>)
    | TaggedProperty(property: uint32, value: uint32)
    | TaggedPcrSelect(tag: uint32, select: seq<byte>)
    | TaggedPolicy(handle: uint32, hashAlg: uint16, digest: seq<byte>)

  /** The array bounds of the TPML structures: MAX_CAP_DATA (1016) over the C size of an element. */
  function MaxCount(kind: Kind): nat {
    match kind
    case AlgProperties => 1016 / 8
    case Handles => 1016 / 4
    case CommandAttributes => 1016 / 4
    case Commands => 1016 / 4
    case PcrSelections => HASH_COUNT
    case TaggedProperties => 1016 / 8
    case TaggedPcrSelects => 1016 / 8
    case Curves => 1016 / 2
    case TaggedPolicies => 1016 / 72
  }

  function CountError(kind: Kind): (rc: uint32)
    ensures rc != TPM_RC_SUCCESS
  {
    if kind.Handles? || kind.Commands? || kind.PcrSelections? then TPM_RC_SIZE else TPM_RC_VALUE
  }

  /** The member of TPMU_HA that a hash algorithm selects, by its length. */
  function DigestSize(hashAlg: uint16): nat {
    if hashAlg == TPM_ALG_SHA1 then 20
    else if hashAlg == TPM_ALG_SHA256 then 32
    else if hashAlg == TPM_ALG_SHA384 then 48
    else if hashAlg == TPM_ALG_SHA512 then 64
    else 0
  }

  /** The element type of each list, and that a digest fills the member its algorithm selects. */
  predicate ItemTyped(kind: Kind, x: Item) {
    match kind
    case AlgProperties => x.AlgProperty?
    case Handles => x.Word32?
    case CommandAttributes => x.Word32?
    case Commands => x.Word32?
    case PcrSelections => x.PcrSelection? && |x.select| < 0x100
    case TaggedProperties => x.TaggedProperty?
    case TaggedPcrSelects => x.TaggedPcrSelect? && |x.select| < 0x100
    case Curves => x.Curve?
    case TaggedPolicies => x.TaggedPolicy? && |x.digest| == DigestSize(x.hashAlg)
  }

  predicate ItemOk(kind: Kind, x: Item) {
    && ItemTyped(kind, x)
    && match x {
         case Word32(word) => kind.CommandAttributes? ==> And(word, COMMAND_RESERVED) == 0
         case AlgProperty(_, algProperties) => And(algProperties, ALGORITHM_RESERVED) == 0
         case PcrSelection(hash, select) => Admits(AlgHash(false), hash) && PCR_SELECT_MIN <= |select| <= PCR_SELECT_MAX
         case TaggedPcrSelect(_, select) => PCR_SELECT_MIN <= |select| <= PCR_SELECT_MAX
         case TaggedPolicy(_, hashAlg, _) => Admits(AlgHash(false), hashAlg)
         case _ => true
       }
  }

  predicate ItemsOk(kind: Kind, items: seq<Item>) {
    |items| <= MaxCount(kind) && forall i :: 0 <= i < |items| ==> ItemOk(kind, items[i])
  }

  // ----- Fields

  function SelectFields(select: seq<byte>): seq<Field> {
    [BE(1, |select|)] + [select]
  }

  function HashFields(hashAlg: uint16, digest: seq<byte>): seq<Field> {
    [BE(2, hashAlg)] + if DigestSize(hashAlg) == 0 then [] else [digest]
  }

  function ItemFields(x: Item): seq<Field> {
    match x
    case Word32(word) => [BE(4, word)]
    case Curve(curve) => [BE(2, curve)]
    case AlgProperty(alg, algProperties) => [BE(2, alg)] + [BE(4, algProperties)]
    case PcrSelection(hash, select) => [BE(2, hash)] + SelectFields(select)
    case TaggedProperty(property, value) => [BE(4, property)] + [BE(4, value)]
    case TaggedPcrSelect(tag, select) => [BE(4, tag)] + SelectFields(select)
    case TaggedPolicy(handle, hashAlg, digest) => [BE(4, handle)] + HashFields(hashAlg, digest)
  }

  function ListFields(items: seq<Item>): seq<Field> {
    [BE(4, |items|)] + ManyFields(items, ItemFields)
  }

  // ----- Parsing

  function ParseSelect(s: seq<byte>): (p: Parsed<seq<byte>>)
    ensures p.Ok? ==> PCR_SELECT_MIN <= |p.value| <= PCR_SELECT_MAX
    ensures p.Ok? ==> s == PutAll(SelectFields(p.value), p.rest)
    ensures p.Err? ==> p.code != TPM_RC_SUCCESS
  {
    SplitPut();
    var (n, s1) :- ParseUint8(s);
    if n < PCR_SELECT_MIN then Err(TPM_RC_VALUE)
    else if n > PCR_SELECT_MAX then Err(TPM_RC_VALUE)
    else ParseByteArray(s1, n)
  }

  function ParseHash(s: seq<byte>, flag: bool): (p: Parsed<(uint16, seq<byte>)>)
    ensures p.Ok? ==> Admits(AlgHash(flag), p.value.0) && |p.value.1| == DigestSize(p.value.0)
    ensures p.Ok? ==> s == PutAll(HashFields(p.value.0, p.value.1), p.rest)
    ensures p.Err? ==> p.code != TPM_RC_SUCCESS
  {
    SplitPut();
    var (hashAlg, s1) :- ParseTpmi(s, AlgHash(flag));
    if hashAlg == TPM_ALG_NULL then Ok((hashAlg, []), s1)
    else
      var (digest, s2) :- ParseByteArray(s1, DigestSize(hashAlg));
      Ok((hashAlg, digest), s2)
  }

  function ParseAlgProperty(s: seq<byte>): (p: Parsed<Item>)
    ensures p.Ok? ==> ItemOk(AlgProperties, p.value) && s == PutAll(ItemFields(p.value), p.rest)
    ensures p.Err? ==> p.code != TPM_RC_SUCCESS
  {
    var (alg, s1) :- ParseUint16(s);
    var (algProperties, s2) :- ParseAttributes(s1, ALGORITHM_RESERVED);
    Put2([BE(2, alg)], [BE(4, algProperties)], s2);
    Ok(AlgProperty(alg, algProperties), s2)
  }

  function ParsePcrSelection(s: seq<byte>): (p: Parsed<Item>)
    ensures p.Ok? ==> ItemOk(PcrSelections, p.value) && s == PutAll(ItemFields(p.value), p.rest)
    ensures p.Err? ==> p.code != TPM_RC_SUCCESS
  {
    var (hash, s1) :- ParseTpmi(s, AlgHash(false));
    var (select, s2) :- ParseSelect(s1);
    Put2([BE(2, hash)], SelectFields(select), s2);
    Ok(PcrSelection(hash, select), s2)
  }

  function ParseTaggedProperty(s: seq<byte>): (p: Parsed<Item>)
    ensures p.Ok? ==> ItemOk(TaggedProperties, p.value) && s == PutAll(ItemFields(p.value), p.rest)
    ensures p.Err? ==> p.code != TPM_RC_SUCCESS
  {
    var (property, s1) :- ParseUint32(s);
    var (value, s2) :- ParseUint32(s1);
    Put2([BE(4, property)], [BE(4, value)], s2);
    Ok(TaggedProperty(property, value), s2)
  }

  function ParseTaggedPcrSelect(s: seq<byte>): (p: Parsed<Item>)
    ensures p.Ok? ==> ItemOk(TaggedPcrSelects, p.value) && s == PutAll(ItemFields(p.value), p.rest)
    ensures p.Err? ==> p.code != TPM_RC_SUCCESS
  {
    var (tag, s1) :- ParseUint32(s);
    var (select, s2) :- ParseSelect(s1);
    Put2([BE(4, tag)], SelectFields(select), s2);
    Ok(TaggedPcrSelect(tag, select), s2)
  }

  function ParseTaggedPolicy(s: seq<byte>): (p: Parsed<Item>)
    ensures p.Ok? ==> ItemOk(TaggedPolicies, p.value) && s == PutAll(ItemFields(p.value), p.rest)
    ensures p.Err? ==> p.code != TPM_RC_SUCCESS
  {
    var (handle, s1) :- ParseUint32(s);
    var (hash, s2) :- ParseHash(s1, false);
    Put2([BE(4, handle)], HashFields(hash.0, hash.1), s2);
    Ok(TaggedPolicy(handle, hash.0, hash.1), s2)
  }

  function ParseItem(s: seq<byte>, kind: Kind): (p: Parsed<Item>)
    ensures p.Ok? ==> ItemOk(kind, p.value) && s == PutAll(ItemFields(p.value), p.rest)
    ensures p.Err? ==> p.code != TPM_RC_SUCCESS
  {
    match kind
    case AlgProperties => ParseAlgProperty(s)
    case PcrSelections => ParsePcrSelection(s)
    case TaggedProperties => ParseTaggedProperty(s)
    case TaggedPcrSelects => ParseTaggedPcrSelect(s)
    case TaggedPolicies => ParseTaggedPolicy(s)
    case CommandAttributes =>
      var (word, s1) :- ParseAttributes(s, COMMAND_RESERVED);
      Ok(Word32(word), s1)
    case Curves =>
      var (curve, s1) :- ParseUint16(s);
      Ok(Curve(curve), s1)
    case _ =>
      var (word, s1) :- ParseUint32(s);
      Ok(Word32(word), s1)
  }

  function ItemParser(kind: Kind): Parser<Item> {
    s => ParseItem(s, kind)
  }

  function ParseList(s: seq<byte>, kind: Kind): (p: Parsed<seq<Item>>)
    ensures p.Ok? ==> ItemsOk(kind, p.value) && s == PutAll(ListFields(p.value), p.rest)
    ensures p.Err? ==> p.code != TPM_RC_SUCCESS
  {
    var (count, s1) :- ParseUint32(s);
    if count > MaxCount(kind) then Err(CountError(kind))
    else
      ItemInverse(kind);
      ManySound(s1, ItemParser(kind), ItemFields, x => ItemOk(kind, x), count);
      var (items, s2) :- ParseMany(s1, ItemParser(kind), count);
      Put2([BE(4, count)], ManyFields(items, ItemFields), s2);
      Ok(items, s2)
  }

  // ----- Round trips

  /** No list is refused for its selector. */
  lemma ListErrors(s: seq<byte>, kind: Kind)
    ensures ParseList(s, kind).Err? ==> ParseList(s, kind).code != TPM_RC_SELECTOR
  {
    if ParseUint32(s).Ok? {
      forall t: seq<byte> ensures ItemParser(kind)(t).Err? ==> ItemParser(kind)(t).code != TPM_RC_SELECTOR {
        assert ItemParser(kind)(t) == ParseItem(t, kind);
        ItemErrors(t, kind);
      }
      ManyErrors(ParseUint32(s).rest, ItemParser(kind), ParseUint32(s).value, TPM_RC_SELECTOR);
    }
  }

  lemma ItemErrors(s: seq<byte>, kind: Kind)
    ensures ParseItem(s, kind).Err? ==> ParseItem(s, kind).code != TPM_RC_SELECTOR
  {
  }

  lemma SelectRoundTrip(select: seq<byte>, rest: seq<byte>)
    requires PCR_SELECT_MIN <= |select| <= PCR_SELECT_MAX
    ensures ParseSelect(PutAll(SelectFields(select), rest)) == Ok(select, rest)
  {
    SplitPut();
    OtherUintRoundTrips();
    ByteArrayRoundTrip(select, rest);
  }

  lemma HashRoundTrip(hashAlg: uint16, digest: seq<byte>, flag: bool, rest: seq<byte>)
    requires Admits(AlgHash(flag), hashAlg) && |digest| == DigestSize(hashAlg)
    ensures ParseHash(PutAll(HashFields(hashAlg, digest), rest), flag) == Ok((hashAlg, digest), rest)
  {
    SplitPut();
    WordRoundTrips();
    ByteArrayRoundTrip(digest, rest);
  }

  lemma ItemRoundTrip(kind: Kind, x: Item, rest: seq<byte>)
    requires ItemOk(kind, x)
    ensures ParseItem(PutAll(ItemFields(x), rest), kind) == Ok(x, rest)
  {
    PutOne();
    WordRoundTrips();
    OtherUintRoundTrips();
    match x {
      case AlgProperty(alg, algProperties) =>
        Put2([BE(2, alg)], [BE(4, algProperties)], rest);
      case TaggedProperty(property, value) =>
        Put2([BE(4, property)], [BE(4, value)], rest);
      case PcrSelection(hash, select) =>
        Put2([BE(2, hash)], SelectFields(select), rest);
        SelectRoundTrip(select, rest);
      case TaggedPcrSelect(tag, select) =>
        Put2([BE(4, tag)], SelectFields(select), rest);
        SelectRoundTrip(select, rest);
      case TaggedPolicy(handle, hashAlg, digest) =>
        Put2([BE(4, handle)], HashFields(hashAlg, digest), rest);
        HashRoundTrip(hashAlg, digest, false, rest);
      case _ =>
    }
  }

  lemma ItemInverse(kind: Kind)
    ensures Inverse(ItemParser(kind), ItemFields, (x: Item) => ItemOk(kind, x))
  {
    forall x: Item, rest: seq<byte> | ItemOk(kind, x)
      ensures ItemParser(kind)(PutAll(ItemFields(x), rest)) == Ok(x, rest)
    {
      ItemRoundTrip(kind, x, rest);
    }
  }

  /** Every list, of any element type and any count within its bound, reads back as itself. */
  lemma ListRoundTrip(kind: Kind, items: seq<Item>, rest: seq<byte>)
    requires ItemsOk(kind, items)
    ensures ParseList(PutAll(ListFields(items), rest), kind) == Ok(items, rest)
  {
    Put2([BE(4, |items|)], ManyFields(items, ItemFields), rest);
    PutOne();
    OtherUintRoundTrips();
    ItemInverse(kind);
    ManyRoundTrip(items, ItemParser(kind), ItemFields, (x: Item) => ItemOk(kind, x), rest);
  }

  // ----- Sizes

  function MaxItemSize(kind: Kind): nat {
    match kind
    case AlgProperties => 6
    case PcrSelections => 6
    case TaggedProperties => 8
    case TaggedPcrSelects => 8
    case Curves => 2
    case TaggedPolicies => 70
    case _ => 4
  }

  lemma ItemSize(kind: Kind, x: Item)
    requires ItemOk(kind, x)
    ensures Size(ItemFields(x)) <= MaxItemSize(kind)
  {
    SplitSize();
  }

  /** The array bounds keep every list within MAX_CAP_DATA bytes on the wire. */
  lemma ListSize(kind: Kind, items: seq<Item>)
    requires ItemsOk(kind, items)
    ensures 4 <= Size(ListFields(items)) <= 4 + 1016
    ensures kind.PcrSelections? ==> Size(ListFields(items)) <= 4 + HASH_COUNT * 6
  {
    forall i | 0 <= i < |items| ensures Size(ItemFields(items[i])) <= MaxItemSize(kind) {
      ItemSize(kind, items[i]);
    }
    ManySize(items, ItemFields, MaxItemSize(kind));
    SizeAppend([BE(4, |items|)], ManyFields(items, ItemFields));
    EmitOne(NoBuffer, BE(4, |items|));
    match kind {
      case AlgProperties => assert |items| * 6 <= 762;
      case Curves => assert |items| * 2 <= 1016;
      case TaggedPolicies => assert |items| * 70 <= 980;
      case PcrSelections => assert |items| * 6 <= 24;
      case TaggedProperties => assert |items| * 8 <= 1016;
      case TaggedPcrSelects => assert |items| * 8 <= 1016;
      case _ => assert |items| * 4 <= 1016;
    }
  }

  // ----- Marshalling

  method MarshalSelect(select: seq<byte>, buffer: Cursor?, size: Budget?) returns (result: uint16)
    requires |select| < 0x100
    requires Room(View(buffer, size), Size(SelectFields(select)))
    modifies Frame(buffer, size)
    ensures Wrote(buffer, size, SelectFields(select), result)
  {
    SplitEmit();
    result := 0;
    var n := MarshalUint8(|select|, buffer, size); result := Add16(result, n);
    n := MarshalByteArray(select, buffer, size); result := Add16(result, n);
  }

  method MarshalDigest(digest: seq<byte>, buffer: Cursor?, size: Budget?, selector: uint16) returns (count: uint16)
    requires |digest| == DigestSize(selector)
    requires Room(View(buffer, size), |digest|)
    modifies Frame(buffer, size)
    ensures Wrote(buffer, size, if DigestSize(selector) == 0 then [] else [digest], count)
  {
    if DigestSize(selector) == 0 {
      count := 0;
    } else {
      count := MarshalByteArray(digest, buffer, size);
    }
  }

  method MarshalHash(hashAlg: uint16, digest: seq<byte>, buffer: Cursor?, size: Budget?) returns (result: uint16)
    requires |digest| == DigestSize(hashAlg)
    requires Room(View(buffer, size), Size(HashFields(hashAlg, digest)))
    modifies Frame(buffer, size)
    ensures Wrote(buffer, size, HashFields(hashAlg, digest), result)
  {
    SplitEmit();
    result := 0;
    var n := MarshalUint16(hashAlg, buffer, size); result := Add16(result, n);
    n := MarshalDigest(digest, buffer, size, hashAlg); result := Add16(result, n);
  }

  method MarshalItem(kind: Kind, source: Item, buffer: Cursor?, size: Budget?) returns (result: uint16)
    requires ItemTyped(kind, source)
    requires Room(View(buffer, size), Size(ItemFields(source)))
    modifies Frame(buffer, size)
    ensures Wrote(buffer, size, ItemFields(source), result)
  {
    ghost var o := View(buffer, size);
    result := 0;
    var n;
    match source {
      case Word32(word) =>
        result := MarshalUint32(word, buffer, size);
      case Curve(curve) =>
        result := MarshalUint16(curve, buffer, size);
      case AlgProperty(alg, algProperties) =>
        Emit2(o, [BE(2, alg)], [BE(4, algProperties)]);
        n := MarshalUint16(alg, buffer, size); result := Add16(result, n);
        n := MarshalUint32(algProperties, buffer, size); result := Add16(result, n);
      case PcrSelection(hash, select) =>
        Emit2(o, [BE(2, hash)], SelectFields(select));
        n := MarshalUint16(hash, buffer, size); result := Add16(result, n);
        n := MarshalSelect(select, buffer, size); result := Add16(result, n);
      case TaggedProperty(property, value) =>
        Emit2(o, [BE(4, property)], [BE(4, value)]);
        n := MarshalUint32(property, buffer, size); result := Add16(result, n);
        n := MarshalUint32(value, buffer, size); result := Add16(result, n);
      case TaggedPcrSelect(tag, select) =>
        Emit2(o, [BE(4, tag)], SelectFields(select));
        n := MarshalUint32(tag, buffer, size); result := Add16(result, n);
        n := MarshalSelect(select, buffer, size); result := Add16(result, n);
      case TaggedPolicy(handle, hashAlg, digest) =>
        Emit2(o, [BE(4, handle)], HashFields(hashAlg, digest));
        n := MarshalUint32(handle, buffer, size); result := Add16(result, n);
        n := MarshalHash(hashAlg, digest, buffer, size); result := Add16(result, n);
    }
  }

  method MarshalItems(kind: Kind, source: seq<Item>, buffer: Cursor?, size: Budget?) returns (result: uint16)
    requires forall i :: 0 <= i < |source| ==> ItemTyped(kind, source[i])
    requires Room(View(buffer, size), Size(ManyFields(source, ItemFields)))
    modifies Frame(buffer, size)
    ensures Wrote(buffer, size, ManyFields(source, ItemFields), result)
  {
    result := 0;
    for i := 0 to |source|
      invariant View(buffer, size) == EmitAll(old(View(buffer, size)), ManyFields(source[..i], ItemFields))
      invariant result == Low16(Size(ManyFields(source[..i], ItemFields)))
    {
      MarshalTurn(old(View(buffer, size)), source, ItemFields, i);
      var n := MarshalItem(kind, source[i], buffer, size);
      result := Add16(result, n);
    }
    assert source[..|source|] == source;
  }

  method MarshalList(kind: Kind, source: seq<Item>, buffer: Cursor?, size: Budget?) returns (result: uint16)
    requires |source| <= MaxCount(kind) && forall i :: 0 <= i < |source| ==> ItemTyped(kind, source[i])
    requires Room(View(buffer, size), Size(ListFields(source)))
    modifies Frame(buffer, size)
    ensures Wrote(buffer, size, ListFields(source), result)
  {
    Emit2(View(buffer, size), [BE(4, |source|)], ManyFields(source, ItemFields));
    result := 0;
    var n := MarshalUint32(|source|, buffer, size); result := Add16(result, n);
    n := MarshalItems(kind, source, buffer, size); result := Add16(result, n);
  }

  // ----- Unmarshalling

  method UnmarshalSelect(buffer: Cursor, size: Budget) returns (rc: uint32, target: seq<byte>)
    requires Readable(buffer, size)
    modifies buffer, size
    ensures Read(buffer, size, ParseSelect(old(Rest(buffer, size))), rc, target)
  {
    target := [];
    var n;
    rc, n := UnmarshalUint8(buffer, size);
    if rc != TPM_RC_SUCCESS { return; }
    if n < PCR_SELECT_MIN { rc := TPM_RC_VALUE; return; }
    if n > PCR_SELECT_MAX { rc := TPM_RC_VALUE; return; }
    rc, target := UnmarshalByteArray(buffer, size, n);
  }

  method UnmarshalHash(buffer: Cursor, size: Budget, flag: bool) returns (rc: uint32, target: (uint16, seq<byte>))
    requires Readable(buffer, size)
    modifies buffer, size
    ensures Read(buffer, size, ParseHash(old(Rest(buffer, size)), flag), rc, target)
  {
    target := (0, []);
    var hashAlg, digest;
    rc, hashAlg := UnmarshalTpmi(buffer, size, AlgHash(flag));
    if rc != TPM_RC_SUCCESS { return; }
    if hashAlg == TPM_ALG_NULL {
      digest := [];
    } else {
      rc, digest := UnmarshalByteArray(buffer, size, DigestSize(hashAlg));
    }
    target := (hashAlg, digest);
  }

  const NO_ITEM := Word32(0)

  method UnmarshalAlgProperty(buffer: Cursor, size: Budget) returns (rc: uint32, target: Item)
    requires Readable(buffer, size)
    modifies buffer, size
    ensures Read(buffer, size, ParseAlgProperty(old(Rest(buffer, size))), rc, target)
  {
    target := NO_ITEM;
    var alg, algProperties;
    rc, alg := UnmarshalUint16(buffer, size);
    if rc != TPM_RC_SUCCESS { return; }
    rc, algProperties := UnmarshalAttributes(buffer, size, ALGORITHM_RESERVED);
    target := AlgProperty(alg, algProperties);
  }

  method UnmarshalPcrSelection(buffer: Cursor, size: Budget) returns (rc: uint32, target: Item)
    requires Readable(buffer, size)
    modifies buffer, size
    ensures Read(buffer, size, ParsePcrSelection(old(Rest(buffer, size))), rc, target)
  {
    target := NO_ITEM;
    var hash, select;
    rc, hash := UnmarshalTpmi(buffer, size, AlgHash(false));
    if rc != TPM_RC_SUCCESS { return; }
    rc, select := UnmarshalSelect(buffer, size);
    target := PcrSelection(hash, select);
  }

  method UnmarshalTaggedProperty(buffer: Cursor, size: Budget) returns (rc: uint32, target: Item)
    requires Readable(buffer, size)
    modifies buffer, size
    ensures Read(buffer, size, ParseTaggedProperty(old(Rest(buffer, size))), rc, target)
  {
    target := NO_ITEM;
    var property, value;
    rc, property := UnmarshalUint32(buffer, size);
    if rc != TPM_RC_SUCCESS { return; }
    rc, value := UnmarshalUint32(buffer, size);
    target := TaggedProperty(property, value);
  }

  method UnmarshalTaggedPcrSelect(buffer: Cursor, size: Budget) returns (rc: uint32, target: Item)
    requires Readable(buffer, size)
    modifies buffer, size
    ensures Read(buffer, size, ParseTaggedPcrSelect(old(Rest(buffer, size))), rc, target)
  {
    target := NO_ITEM;
    var tag, select;
    rc, tag := UnmarshalUint32(buffer, size);
    if rc != TPM_RC_SUCCESS { return; }
    rc, select := UnmarshalSelect(buffer, size);
    target := TaggedPcrSelect(tag, select);
  }

  method UnmarshalTaggedPolicy(buffer: Cursor, size: Budget) returns (rc: uint32, target: Item)
    requires Readable(buffer, size)
    modifies buffer, size
    ensures Read(buffer, size, ParseTaggedPolicy(old(Rest(buffer, size))), rc, target)
  {
    target := NO_ITEM;
    var handle, hash;
    rc, handle := UnmarshalUint32(buffer, size);
    if rc != TPM_RC_SUCCESS { return; }
    rc, hash := UnmarshalHash(buffer, size, false);
    target := TaggedPolicy(handle, hash.0, hash.1);
  }

  method UnmarshalItem(buffer: Cursor, size: Budget, kind: Kind) returns (rc: uint32, target: Item)
    requires Readable(buffer, size)
    modifies buffer, size
    ensures Read(buffer, size, ParseItem(old(Rest(buffer, size)), kind), rc, target)
  {
    var word, curve;
    match kind {
      case AlgProperties => rc, target := UnmarshalAlgProperty(buffer, size);
      case PcrSelections => rc, target := UnmarshalPcrSelection(buffer, size);
      case TaggedProperties => rc, target := UnmarshalTaggedProperty(buffer, size);
      case TaggedPcrSelects => rc, target := UnmarshalTaggedPcrSelect(buffer, size);
      case TaggedPolicies => rc, target := UnmarshalTaggedPolicy(buffer, size);
      case CommandAttributes =>
        rc, word := UnmarshalAttributes(buffer, size, COMMAND_RESERVED);
        target := Word32(word);
      case Curves =>
        rc, curve := UnmarshalUint16(buffer, size);
        target := Curve(curve);
      case _ =>
        rc, word := UnmarshalUint32(buffer, size);
        target := Word32(word);
    }
  }

  method UnmarshalItems(buffer: Cursor, size: Budget, kind: Kind, count: nat) returns (rc: uint32, target: seq<Item>)
    requires Readable(buffer, size)
    modifies buffer, size
    ensures Read(buffer, size, ParseMany(old(Rest(buffer, size)), ItemParser(kind), count), rc, target)
  {
    target := [];
    rc := TPM_RC_SUCCESS;
    ghost var s, parse := Rest(buffer, size), ItemParser(kind);
    for i := 0 to count
      invariant Readable(buffer, size) && rc == TPM_RC_SUCCESS
      invariant ParseMany(s, parse, i) == Ok(target, Rest(buffer, size))
      invariant buffer.pos + size.left == old(buffer.pos + size.left) && old(buffer.pos) <= buffer.pos
      invariant if old(size.left) < 0 then buffer.pos == old(buffer.pos) else size.left >= 0
    {
      ghost var rest := Rest(buffer, size);
      ManyNext(s, parse, i, target, rest);
      assert parse(rest) == ParseItem(rest, kind);
      var x;
      rc, x := UnmarshalItem(buffer, size, kind);
      if rc != TPM_RC_SUCCESS {
        ManyFailsEarly(s, parse, i + 1, count);
        return;
      }
      target := target + [x];
    }
  }

  method UnmarshalList(buffer: Cursor, size: Budget, kind: Kind) returns (rc: uint32, target: seq<Item>)
    requires Readable(buffer, size)
    modifies buffer, size
    ensures Read(buffer, size, ParseList(old(Rest(buffer, size)), kind), rc, target)
  {
    target := [];
    var count;
    rc, count := UnmarshalUint32(buffer, size);
    if rc != TPM_RC_SUCCESS { return; }
    if count > MaxCount(kind) { rc := CountError(kind); return; }
    rc, target := UnmarshalItems(buffer, size, kind, count);
  }
}
