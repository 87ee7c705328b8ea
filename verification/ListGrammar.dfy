/** Capability answers, creation data and session authorizations in numbers and offsets, and the
    agreement of their unmarshallers and marshallers. */
module ListGrammar {
  import opened Bytes
  import opened Wire
  import opened Algorithms
  import opened Blobs
  import opened Codec
  import opened Lists
  import opened Capability
  import opened Creation
  import opened Auth
  import opened Grammar

  // ----- Capability answers: which bytes are accepted, and how others are refused

  /** The greatest count of the list that a selector names. */
  function Limit(selector: nat): nat {
    if selector in {1, 2, 3, 4} then 254
    else if selector == 5 then 4
    else if selector == 8 then 508
    else if selector == 9 then 14
    else 127
  }

  /** The code that a greater count is refused with. */
  function LimitCode(selector: nat): uint32 {
    if selector in {1, 3, 4, 5} then 0x95 else 0x84
  }

  function DigestLength(hash: nat): nat {
    if hash == 0x04 then 20
    else if hash == 0x0B then 32
    else if hash == 0x0C then 48
    else if hash == 0x0D then 64
    else 0
  }

  /** A selection of registers: three bytes, after their number. */
  function Select(s: seq<byte>, at: nat): Verdict {
    var a :- Skip(s, at, 1);
    if Num(s, at, 1) == 3 then Skip(s, a, 3) else Bad(0x84)
  }

  function Policy(s: seq<byte>, at: nat): Verdict {
    var a :- Skip(s, at, 4);
    var b :- Choice(s, a, AlgHash(false));
    Skip(s, b, DigestLength(Num(s, a, 2)))
  }

  ghost function Algorithm(s: seq<byte>, at: nat): Verdict {
    var a :- Skip(s, at, 2);
    Flags(s, a, 4, 0xFFFF_F8F0)
  }

  function Bank(s: seq<byte>, at: nat): Verdict {
    var a :- Choice(s, at, AlgHash(false));
    Select(s, a)
  }

  function Registers(s: seq<byte>, at: nat): Verdict {
    var a :- Skip(s, at, 4);
    Select(s, a)
  }

  function Pair(s: seq<byte>, at: nat): Verdict {
    var a :- Skip(s, at, 4);
    Skip(s, a, 4)
  }

  ghost function Element(s: seq<byte>, at: nat, selector: nat): Verdict {
    if selector == 0 then Algorithm(s, at)
    else if selector == 2 then Flags(s, at, 4, 0xC03F_0000)
    else if selector == 5 then Bank(s, at)
    else if selector == 6 then Pair(s, at)
    else if selector == 7 then Registers(s, at)
    else if selector == 8 then Skip(s, at, 2)
    else if selector == 9 then Policy(s, at)
    else Skip(s, at, 4)
  }

  ghost function Elements(s: seq<byte>, at: nat, selector: nat, n: nat): Verdict {
    if n == 0 then At(at)
    else
      var a :- Elements(s, at, selector, n - 1);
      Element(s, a, selector)
  }

  ghost function Counted(s: seq<byte>, at: nat, selector: nat): Verdict {
    var a :- Skip(s, at, 4);
    if Num(s, at, 4) > Limit(selector) then Bad(LimitCode(selector))
    else Elements(s, a, selector, Num(s, at, 4))
  }

  function Selector(s: seq<byte>, at: nat): Verdict {
    var a :- Skip(s, at, 4);
    if Num(s, at, 4) <= 9 || Num(s, at, 4) == 0x100 then At(a) else Bad(0x84)
  }

  ghost function Selected(s: seq<byte>, at: nat, selector: nat): Verdict {
    if selector <= 9 then Counted(s, at, selector) else Bad(0x98)
  }

  ghost function Answer(s: seq<byte>, at: nat): Verdict {
    var a :- Selector(s, at);
    Selected(s, a, Num(s, at, 4))
  }

  // ----- Agreement

  lemma SelectAgrees(s: seq<byte>, at: nat)
    requires at <= |s|
    ensures Agrees(s, ParseSelect(s[at..]), Select(s, at))
  {
    Uint8Agrees(s, at);
    if at + 1 <= |s| {
      BytesAgree(s, at + 1, 3);
    }
  }

  lemma AlgorithmAgrees(s: seq<byte>, at: nat)
    requires at <= |s|
    ensures Agrees(s, ParseAlgProperty(s[at..]), Algorithm(s, at))
  {
    Uint16Agrees(s, at);
    if at + 2 <= |s| {
      AttributesAgree(s, at + 2, 0xFFFF_F8F0);
    }
  }

  lemma BankAgrees(s: seq<byte>, at: nat)
    requires at <= |s|
    ensures Agrees(s, ParsePcrSelection(s[at..]), Bank(s, at))
  {
    TpmiAgrees(s, at, AlgHash(false));
    if Choice(s, at, AlgHash(false)).At? {
      SelectAgrees(s, at + 2);
    }
  }

  lemma RegistersAgree(s: seq<byte>, at: nat)
    requires at <= |s|
    ensures Agrees(s, ParseTaggedPcrSelect(s[at..]), Registers(s, at))
  {
    Uint32Agrees(s, at);
    if at + 4 <= |s| {
      SelectAgrees(s, at + 4);
    }
  }

  lemma PairAgrees(s: seq<byte>, at: nat)
    requires at <= |s|
    ensures Agrees(s, ParseTaggedProperty(s[at..]), Pair(s, at))
  {
    Uint32Agrees(s, at);
    if at + 4 <= |s| {
      Uint32Agrees(s, at + 4);
    }
  }

  lemma PolicyAgrees(s: seq<byte>, at: nat)
    requires at <= |s|
    ensures Agrees(s, ParseTaggedPolicy(s[at..]), Policy(s, at))
  {
    Uint32Agrees(s, at);
    if at + 4 <= |s| {
      TpmiAgrees(s, at + 4, AlgHash(false));
      if Choice(s, at + 4, AlgHash(false)).At? {
        BytesAgree(s, at + 6, DigestLength(Num(s, at + 4, 2)));
      }
    }
  }

  lemma WordAgrees(s: seq<byte>, at: nat, selector: uint32)
    requires at <= |s| && selector in {1, 2, 3, 4, 8}
    ensures KindOf(selector).Some? && Agrees(s, ParseItem(s[at..], KindOf(selector).value), Element(s, at, selector))
  {
    if selector == 2 {
      AttributesAgree(s, at, 0xC03F_0000);
    } else if selector == 8 {
      Uint16Agrees(s, at);
    } else {
      Uint32Agrees(s, at);
    }
  }

  lemma StructureAgrees(s: seq<byte>, at: nat, selector: uint32)
    requires at <= |s| && selector in {0, 5, 6}
    ensures KindOf(selector).Some? && Agrees(s, ParseItem(s[at..], KindOf(selector).value), Element(s, at, selector))
  {
    if selector == 0 {
      AlgorithmAgrees(s, at);
    } else if selector == 5 {
      BankAgrees(s, at);
    } else {
      PairAgrees(s, at);
    }
  }

  lemma TaggedAgrees(s: seq<byte>, at: nat, selector: uint32)
    requires at <= |s| && selector in {7, 9}
    ensures KindOf(selector).Some? && Agrees(s, ParseItem(s[at..], KindOf(selector).value), Element(s, at, selector))
  {
    if selector == 7 {
      RegistersAgree(s, at);
    } else {
      PolicyAgrees(s, at);
    }
  }

  lemma ElementAgrees(s: seq<byte>, at: nat, selector: uint32)
    requires at <= |s| && selector <= 9
    ensures KindOf(selector).Some? && Agrees(s, ParseItem(s[at..], KindOf(selector).value), Element(s, at, selector))
  {
    if selector in {1, 2, 3, 4, 8} {
      WordAgrees(s, at, selector);
    } else if selector in {7, 9} {
      TaggedAgrees(s, at, selector);
    } else {
      StructureAgrees(s, at, selector);
    }
  }

  lemma {:induction false} ElementsAgree(s: seq<byte>, at: nat, selector: uint32, n: nat)
    requires at <= |s| && selector <= 9
    ensures KindOf(selector).Some?
    ensures Agrees(s, ParseMany(s[at..], ItemParser(KindOf(selector).value), n), Elements(s, at, selector, n))
  {
    KindsCovered(selector);
    if n > 0 {
      ElementsAgree(s, at, selector, n - 1);
      var a := Elements(s, at, selector, n - 1);
      if a.At? {
        ElementAgrees(s, a.pos, selector);
      }
    }
  }

  lemma CountedAgrees(s: seq<byte>, at: nat, selector: uint32)
    requires at <= |s| && selector <= 9
    ensures KindOf(selector).Some? && Agrees(s, ParseList(s[at..], KindOf(selector).value), Counted(s, at, selector))
  {
    KindsCovered(selector);
    Uint32Agrees(s, at);
    if at + 4 <= |s| && Num(s, at, 4) <= Limit(selector) {
      ElementsAgree(s, at + 4, selector, Num(s, at, 4));
    }
  }

  lemma SelectorAgrees(s: seq<byte>, at: nat)
    requires at <= |s|
    ensures Agrees(s, ParseCap(s[at..]), Selector(s, at))
    ensures ParseCap(s[at..]).Ok? ==> ParseCap(s[at..]).value == Num(s, at, 4)
  {
    Uint32Agrees(s, at);
  }

  lemma SelectedAgrees(s: seq<byte>, at: nat, selector: uint32)
    requires at <= |s| && (selector <= 9 || selector == 0x100)
    ensures Agrees(s, ParseCapabilities(s[at..], selector), Selected(s, at, selector))
  {
    KindsCovered(selector);
    if selector <= 9 {
      CountedAgrees(s, at, selector);
    }
  }

  /** For every input the unmarshaller of TPMS_CAPABILITY_DATA accepts exactly what the grammar accepts,
      ends where it ends, and refuses everything else with its code. */
  lemma CapabilityAgrees(s: seq<byte>)
    ensures Agrees(s, ParseCapability(s), Answer(s, 0))
  {
    assert s[0..] == s;
    SelectorAgrees(s, 0);
    if Selector(s, 0).At? {
      SelectedAgrees(s, 4, Num(s, 0, 4));
    }
  }

  // ----- Which bytes an answer is written as

  function ElementBytes(x: Item): seq<byte> {
    match x
    case Word32(word) => BE(4, word)
    case Curve(curve) => BE(2, curve)
    case AlgProperty(alg, algProperties) => BE(2, alg) + BE(4, algProperties)
    case PcrSelection(hash, select) => BE(2, hash) + (BE(1, |select|) + select)
    case TaggedProperty(property, value) => BE(4, property) + BE(4, value)
    case TaggedPcrSelect(tag, select) => BE(4, tag) + (BE(1, |select|) + select)
    case TaggedPolicy(handle, hashAlg, digest) =>
      BE(4, handle) + (BE(2, hashAlg) + if DigestLength(hashAlg) == 0 then [] else digest)
  }

  function ElementsBytes(items: seq<Item>): seq<byte> {
    if items == [] then [] else ElementBytes(items[0]) + ElementsBytes(items[1..])
  }

  /** A selector that names no list is followed by nothing. */
  function AnswerBytes(x: CapabilityData): seq<byte> {
    BE(4, x.capability) + if x.capability <= 9 then BE(4, |x.data|) + ElementsBytes(x.data) else []
  }

  lemma ElementInBytes(x: Item)
    ensures Printed(ItemFields(x)) == ElementBytes(x)
  {
    match x
    case Word32(word) => PrintOne(BE(4, word));
    case Curve(curve) => PrintOne(BE(2, curve));
    case AlgProperty(alg, algProperties) => PrintTwo(BE(2, alg), BE(4, algProperties));
    case TaggedProperty(property, value) => PrintTwo(BE(4, property), BE(4, value));
    case PcrSelection(hash, select) =>
      PrintOne(BE(2, hash));
      PrintTwo(BE(1, |select|), select);
      PrintAppend([BE(2, hash)], SelectFields(select));
    case TaggedPcrSelect(tag, select) =>
      PrintOne(BE(4, tag));
      PrintTwo(BE(1, |select|), select);
      PrintAppend([BE(4, tag)], SelectFields(select));
    case TaggedPolicy(handle, hashAlg, digest) =>
      PrintOne(BE(4, handle));
      PrintOne(BE(2, hashAlg));
      PrintOne(digest);
      PrintAppend([BE(2, hashAlg)], if DigestSize(hashAlg) == 0 then [] else [digest]);
      PrintAppend([BE(4, handle)], HashFields(hashAlg, digest));
  }

  lemma ThreeInARow(a: seq<byte>, b: seq<byte>, c: seq<byte>)
    ensures a + (b + c) == a + b + c
  {
  }

  lemma {:induction false} ElementsBytesAppend(items: seq<Item>, x: Item)
    ensures ElementsBytes(items + [x]) == ElementsBytes(items) + ElementBytes(x)
    decreases |items|
  {
    if items == [] {
      assert [x][1..] == [];
    } else {
      ElementsBytesAppend(items[1..], x);
      assert (items + [x])[1..] == items[1..] + [x];
      ThreeInARow(ElementBytes(items[0]), ElementsBytes(items[1..]), ElementBytes(x));
    }
  }

  lemma {:induction false} ElementsInBytes(items: seq<Item>)
    ensures Printed(ManyFields(items, ItemFields)) == ElementsBytes(items)
    decreases |items|
  {
    if items != [] {
      var front, x := items[..|items| - 1], items[|items| - 1];
      ElementsInBytes(front);
      ElementInBytes(x);
      PrintAppend(ManyFields(front, ItemFields), ItemFields(x));
      ElementsBytesAppend(front, x);
      assert front + [x] == items;
    }
  }

  lemma ListInBytes(items: seq<Item>)
    ensures Printed(ListFields(items)) == BE(4, |items|) + ElementsBytes(items)
  {
    ElementsInBytes(items);
    PrintOne(BE(4, |items|));
    PrintAppend([BE(4, |items|)], ManyFields(items, ItemFields));
  }

  /** An answer is written as exactly these bytes. */
  lemma AnswerInBytes(x: CapabilityData)
    ensures Printed(CapabilityFields(x)) == AnswerBytes(x)
  {
    ListInBytes(x.data);
    PrintOne(BE(4, x.capability));
    PrintAppend([BE(4, x.capability)], CapabilitiesFields(x.capability, x.data));
  }

  // ----- Which answers are read back

  /** The kind of element that each selector names. */
  predicate Shaped(selector: nat, x: Item) {
    match x
    case AlgProperty(_, _) => selector == 0
    case Word32(_) => selector in {1, 2, 3, 4}
    case PcrSelection(_, _) => selector == 5
    case TaggedProperty(_, _) => selector == 6
    case TaggedPcrSelect(_, _) => selector == 7
    case Curve(_) => selector == 8
    case TaggedPolicy(_, _, _) => selector == 9
  }

  ghost predicate Sound(selector: nat, x: Item) {
    match x
    case AlgProperty(_, algProperties) => Clear(algProperties, 0xFFFF_F8F0)
    case Word32(word) => selector == 2 ==> Clear(word, 0xC03F_0000)
    case PcrSelection(hash, select) => hash in {0x04, 0x0B, 0x0C, 0x0D} && |select| == 3
    case TaggedPcrSelect(_, select) => |select| == 3
    case TaggedPolicy(_, hashAlg, digest) => hashAlg in {0x04, 0x0B, 0x0C, 0x0D} && |digest| == DigestLength(hashAlg)
    case TaggedProperty(_, _) => true
    case Curve(_) => true
  }

  ghost predicate Listed(x: CapabilityData) {
    && x.capability <= 9 && |x.data| <= Limit(x.capability)
    && forall i :: 0 <= i < |x.data| ==> Shaped(x.capability, x.data[i]) && Sound(x.capability, x.data[i])
  }

  lemma ItemIsListed(selector: uint32, x: Item)
    requires selector <= 9
    ensures KindOf(selector).Some?
    ensures ItemOk(KindOf(selector).value, x) <==> Shaped(selector, x) && Sound(selector, x)
  {
    KindsCovered(selector);
    match x
    case AlgProperty(_, algProperties) => AndIsClear(algProperties, ALGORITHM_RESERVED);
    case Word32(word) => AndIsClear(word, COMMAND_RESERVED);
    case _ =>
  }

  lemma CapabilityIsListed(x: CapabilityData)
    ensures CapabilityOk(x) <==> Listed(x)
  {
    if x.capability <= 9 {
      KindsCovered(x.capability);
      forall i | 0 <= i < |x.data|
        ensures ItemOk(KindOf(x.capability).value, x.data[i])
                <==> Shaped(x.capability, x.data[i]) && Sound(x.capability, x.data[i])
      {
        ItemIsListed(x.capability, x.data[i]);
      }
    }
  }

  /** The bytes of an answer, followed by anything, are read as that answer exactly if the selector is one
      of the ten, the count is within its limit, and the elements are of its kind and sound. */
  lemma AnswerIsRead(x: CapabilityData, rest: seq<byte>)
    ensures ParseCapability(AnswerBytes(x) + rest) == Ok(x, rest) <==> Listed(x)
  {
    CapabilityIsListed(x);
    if CapabilityOk(x) {
      AnswerInBytes(x);
      SizeOfPut(CapabilityFields(x), rest);
      CapabilityRoundTrip(x, rest);
    }
  }

  // ----- Creation data

  ghost function CreationBody(s: seq<byte>, at: nat): Verdict {
    var a :- PcrBody(s, at);
    NameBody(s, a)
  }

  /** The registers, their digest, the locality and the parent's name algorithm. */
  ghost function PcrBody(s: seq<byte>, at: nat): Verdict {
    var a :- Counted(s, at, 5);
    AfterPcrs(s, a)
  }

  function AfterPcrs(s: seq<byte>, at: nat): Verdict {
    var a :- Block(s, at, 64);
    var b :- Skip(s, a, 1);
    Skip(s, b, 2)
  }

  function NameBody(s: seq<byte>, at: nat): Verdict {
    var a :- Block(s, at, 68);
    var b :- Block(s, a, 68);
    Block(s, b, 66)
  }

  ghost function SizedCreation(s: seq<byte>, at: nat): Verdict {
    var a :- Skip(s, at, 2);
    if Num(s, at, 2) == 0 then Bad(0x95)
    else
      var b :- CreationBody(s, a);
      if b == a + Num(s, at, 2) then At(b) else Bad(0x95)
  }

  lemma PcrBodyAgrees(s: seq<byte>, at: nat)
    requires at <= |s|
    ensures Agrees(s, ParsePcrPart(s[at..]), PcrBody(s, at))
  {
    CountedAgrees(s, at, 5);
    var p := ParseList(s[at..], PcrSelections);
    if p.Ok? {
      AfterPcrsAgrees(s, Counted(s, at, 5).pos, p.value);
    }
  }

  lemma AfterPcrsAgrees(s: seq<byte>, at: nat, pcrSelect: seq<Item>)
    requires at <= |s|
    ensures Agrees(s, ParseAfterPcrs(s[at..], pcrSelect), AfterPcrs(s, at))
  {
    BlobAgrees(s, at, 64);
    var a := Block(s, at, 64);
    if a.At? {
      Uint8Agrees(s, a.pos);
      if a.pos + 1 <= |s| {
        Uint16Agrees(s, a.pos + 1);
      }
    }
  }

  lemma NameBodyAgrees(s: seq<byte>, at: nat, x: CreationData)
    requires at <= |s|
    ensures Agrees(s, ParseNamePart(s[at..], x), NameBody(s, at))
  {
    BlobAgrees(s, at, 68);
    var a := Block(s, at, 68);
    if a.At? {
      BlobAgrees(s, a.pos, 68);
      var b := Block(s, a.pos, 68);
      if b.At? {
        BlobAgrees(s, b.pos, 66);
      }
    }
  }

  lemma CreationBodyAgrees(s: seq<byte>, at: nat)
    requires at <= |s|
    ensures Agrees(s, ParseCreation(s[at..]), CreationBody(s, at))
  {
    PcrBodyAgrees(s, at);
    var p := ParsePcrPart(s[at..]);
    if p.Ok? {
      NameBodyAgrees(s, PcrBody(s, at).pos, p.value);
    }
  }

  /** The same for TPM2B_CREATION_DATA. */
  lemma CreationAgrees(s: seq<byte>)
    ensures Agrees(s, ParseCreation2B(s), SizedCreation(s, 0))
  {
    assert s[0..] == s;
    Uint16Agrees(s, 0);
    if |s| >= 2 {
      CreationBodyAgrees(s, 2);
    }
  }

  function CreationBytes(x: CreationData): seq<byte> {
    (BE(4, |x.pcrSelect|) + ElementsBytes(x.pcrSelect)) + BlockBytes(x.pcrDigest) + BE(1, x.locality)
    + BE(2, x.parentNameAlg)
    + (BlockBytes(x.parentName) + BlockBytes(x.parentQualifiedName) + BlockBytes(x.outsideInfo))
  }

  /** Creation data is written as exactly these bytes. */
  lemma CreationInBytes(x: Sized<CreationData>)
    ensures Printed(Creation2BFields(x)) == BE(2, x.size) + CreationBytes(x.body)
  {
    var c := x.body;
    ListInBytes(c.pcrSelect);
    BlobInBytes(c.pcrDigest);
    PrintOne(BE(1, c.locality));
    PrintOne(BE(2, c.parentNameAlg));
    Print4(ListFields(c.pcrSelect), BlobFields(c.pcrDigest), [BE(1, c.locality)], [BE(2, c.parentNameAlg)]);
    NamesInBytes(c);
    PrintAppend(PcrFields(c), NameFields(c));
    PrintAppend([BE(2, x.size)], CreationFields(c));
    PrintOne(BE(2, x.size));
  }

  lemma NamesInBytes(x: CreationData)
    ensures Printed(NameFields(x))
            == BlockBytes(x.parentName) + BlockBytes(x.parentQualifiedName) + BlockBytes(x.outsideInfo)
  {
    BlobInBytes(x.parentName);
    BlobInBytes(x.parentQualifiedName);
    BlobInBytes(x.outsideInfo);
    PrintAppend(BlobFields(x.parentName) + BlobFields(x.parentQualifiedName), BlobFields(x.outsideInfo));
    PrintAppend(BlobFields(x.parentName), BlobFields(x.parentQualifiedName));
  }

  // ----- Session authorizations

  /** The handle of an HMAC or policy session, or the password. */
  function SessionHandle(s: seq<byte>, at: nat): Verdict {
    var a :- Skip(s, at, 4);
    var h := Num(s, at, 4);
    if h == 0x4000_0009 || 0x0200_0000 <= h <= 0x0200_003F || 0x0300_0000 <= h <= 0x0300_003F then At(a)
    else Bad(0x84)
  }

  ghost function Authorization(s: seq<byte>, at: nat): Verdict {
    var a :- SessionHandle(s, at);
    var b :- Block(s, a, 64);
    var c :- Flags(s, b, 1, 0x18);
    Block(s, c, 64)
  }

  lemma SessionHandleAgrees(s: seq<byte>, at: nat)
    requires at <= |s|
    ensures Agrees(s, ParseAuthSession(s[at..], true), SessionHandle(s, at))
  {
    Uint32Agrees(s, at);
  }

  lemma SessionAttributesAgree(s: seq<byte>, at: nat)
    requires at <= |s|
    ensures Agrees(s, ParseSessionAttributes(s[at..]), Flags(s, at, 1, 0x18))
  {
    Uint8Agrees(s, at);
    if at + 1 <= |s| {
      AndIsClear(Num(s, at, 1), 0x18);
    }
  }

  /** The same for TPMS_AUTH_COMMAND. */
  lemma AuthAgrees(s: seq<byte>)
    ensures Agrees(s, ParseAuth(s), Authorization(s, 0))
  {
    assert s[0..] == s;
    SessionHandleAgrees(s, 0);
    if SessionHandle(s, 0).At? {
      BlobAgrees(s, 4, 64);
      var b := Block(s, 4, 64);
      if b.At? {
        SessionAttributesAgree(s, b.pos);
        if Flags(s, b.pos, 1, 0x18).At? {
          BlobAgrees(s, b.pos + 1, 64);
        }
      }
    }
  }

  function AuthBytes(x: AuthCommand): seq<byte> {
    BE(4, x.sessionHandle) + BlockBytes(x.nonce) + BE(1, x.sessionAttributes) + BlockBytes(x.hmac)
  }

  /** An authorization is written as exactly these bytes. */
  lemma AuthInBytes(x: AuthCommand)
    ensures Printed(AuthFields(x)) == AuthBytes(x)
  {
    PrintOne(BE(4, x.sessionHandle));
    BlobInBytes(x.nonce);
    PrintOne(BE(1, x.sessionAttributes));
    BlobInBytes(x.hmac);
    Print4([BE(4, x.sessionHandle)], BlobFields(x.nonce), [BE(1, x.sessionAttributes)], BlobFields(x.hmac));
  }
}
