/** TPMS_CAPABILITY_DATA: a selector and the list it selects. */
module Capability {
  import opened Bytes
  import opened Wire
  import opened Algorithms
  import opened Codec
  import opened Lists

  const TPM_CAP_TPM_PROPERTIES: uint32 := 6
  const TPM_CAP_LAST: uint32 := 9
  const TPM_CAP_VENDOR_PROPERTY: uint32 := 0x100

  datatype CapabilityData = CapabilityData(capability: uint32, data: seq<Item>)

  /** The union member that a selector names, if it names one. */
  function KindOf(capability: uint32): Option<Kind> {
    if capability == 0 then Some(AlgProperties)
    else if capability == 1 then Some(Handles)
    else if capability == 2 then Some(CommandAttributes)
    else if capability == 3 then Some(Commands)
    else if capability == 4 then Some(Commands)
    else if capability == 5 then Some(PcrSelections)
    else if capability == TPM_CAP_TPM_PROPERTIES then Some(TaggedProperties)
    else if capability == 7 then Some(TaggedPcrSelects)
    else if capability == 8 then Some(Curves)
    else if capability == 9 then Some(TaggedPolicies)
    else None
  }

  predicate CapabilityOk(x: CapabilityData) {
    KindOf(x.capability).Some? && ItemsOk(KindOf(x.capability).value, x.data)
  }

  function CapabilitiesFields(selector: uint32, data: seq<Item>): seq<Field> {
    if KindOf(selector).Some? then ListFields(data) else []
  }

  function CapabilityFields(x: CapabilityData): seq<Field> {
    [BE(4, x.capability)] + CapabilitiesFields(x.capability, x.data)
  }

  function ParseCap(s: seq<byte>): (p: Parsed<uint32>)
    ensures p.Ok? ==> s == PutAll([BE(4, p.value)], p.rest)
    ensures p.Ok? ==> p.value <= TPM_CAP_LAST || p.value == TPM_CAP_VENDOR_PROPERTY
    ensures p.Err? ==> p.code != TPM_RC_SUCCESS
  {
    var (x, s1) :- ParseUint32(s);
    if x <= TPM_CAP_LAST || x == TPM_CAP_VENDOR_PROPERTY then Ok(x, s1) else Err(TPM_RC_VALUE)
  }

  function ParseCapabilities(s: seq<byte>, selector: uint32): (p: Parsed<seq<Item>>)
    ensures p.Ok? ==> KindOf(selector).Some? && ItemsOk(KindOf(selector).value, p.value)
    ensures p.Ok? ==> s == PutAll(ListFields(p.value), p.rest)
    ensures p.Err? ==> p.code != TPM_RC_SUCCESS
  {
    match KindOf(selector)
    case Some(kind) => ParseList(s, kind)
    case None => Err(TPM_RC_SELECTOR)
  }

  function ParseCapability(s: seq<byte>): (p: Parsed<CapabilityData>)
    ensures p.Ok? ==> CapabilityOk(p.value) && s == PutAll(CapabilityFields(p.value), p.rest)
    ensures p.Err? ==> p.code != TPM_RC_SUCCESS
  {
    var (capability, s1) :- ParseCap(s);
    var (data, s2) :- ParseCapabilities(s1, capability);
    Put2([BE(4, capability)], ListFields(data), s2);
    Ok(CapabilityData(capability, data), s2)
  }

  /** Every well-formed capability answer, of all ten kinds, reads back as itself. */
  lemma CapabilityRoundTrip(x: CapabilityData, rest: seq<byte>)
    requires CapabilityOk(x)
    ensures ParseCapability(PutAll(CapabilityFields(x), rest)) == Ok(x, rest)
  {
    var s1 := PutAll(ListFields(x.data), rest);
    Put2([BE(4, x.capability)], ListFields(x.data), rest);
    PutOne();
    CapRoundTrip(x.capability, s1);
    ListRoundTrip(KindOf(x.capability).value, x.data, rest);
  }

  lemma CapRoundTrip(capability: uint32, rest: seq<byte>)
    requires KindOf(capability).Some?
    ensures ParseCap(BE(4, capability) + rest) == Ok(capability, rest)
  {
    Widths();
    UintRoundTrip(4, capability, rest);
  }

  lemma CapabilityInverse()
    ensures Inverse(ParseCapability, CapabilityFields, CapabilityOk)
  {
    forall x: CapabilityData, rest: seq<byte> | CapabilityOk(x)
      ensures ParseCapability(PutAll(CapabilityFields(x), rest)) == Ok(x, rest)
    {
      CapabilityRoundTrip(x, rest);
    }
  }

  /** The unmarshaller accepts exactly the encodings of well-formed capability answers. */
  lemma CapabilityAcceptsExactly(s: seq<byte>)
    ensures ParseCapability(s).Ok?
            <==> exists x: CapabilityData, rest: seq<byte> :: CapabilityOk(x) && s == PutAll(CapabilityFields(x), rest)
  {
    CapabilityInverse();
    AcceptsExactly(ParseCapability, CapabilityFields, CapabilityOk, s);
  }

  /** What follows an accepted answer influences neither its value nor its extent. */
  lemma CapabilityIsLocal(s: seq<byte>, extra: seq<byte>)
    requires ParseCapability(s).Ok?
    ensures ParseCapability(s + extra) == Ok(ParseCapability(s).value, ParseCapability(s).rest + extra)
  {
    CapabilityInverse();
    Local(ParseCapability, CapabilityFields, CapabilityOk, s, extra);
  }

  /** No encoding is a prefix of another. */
  lemma CapabilityPrefixFree(x: CapabilityData, r: seq<byte>, y: CapabilityData, t: seq<byte>)
    requires CapabilityOk(x) && CapabilityOk(y) && PutAll(CapabilityFields(x), r) == PutAll(CapabilityFields(y), t)
    ensures x == y && r == t
  {
    CapabilityInverse();
    PrefixFree(ParseCapability, CapabilityFields, CapabilityOk, x, r, y, t);
  }

  /** The bounds derived from C element sizes suffice: no answer exceeds MAX_CAP_BUFFER, 1024 bytes. */
  lemma CapabilityFitsCapBuffer(x: CapabilityData)
    requires CapabilityOk(x)
    ensures Size(CapabilityFields(x)) <= 1024
  {
    SizeAppend([BE(4, x.capability)], ListFields(x.data));
    EmitOne(NoBuffer, BE(4, x.capability));
    ListSize(KindOf(x.capability).value, x.data);
  }

  /** An answer is refused for its selector exactly if the selector is the vendor property, which the
      check of the selector itself lets pass. */
  lemma VendorPropertyIsRefused(s: seq<byte>)
    ensures ParseCapability(s) == Err(TPM_RC_SELECTOR)
            <==> ParseCap(s).Ok? && ParseCap(s).value == TPM_CAP_VENDOR_PROPERTY
  {
    var cap := ParseCap(s);
    if cap.Ok? {
      var p := ParseCapabilities(cap.rest, cap.value);
      KindsCovered(cap.value);
      assert p == Err(TPM_RC_SELECTOR) <==> cap.value == TPM_CAP_VENDOR_PROPERTY by {
        if KindOf(cap.value).Some? {
          ListErrors(cap.rest, KindOf(cap.value).value);
        }
      }
      assert ParseCapability(s) == Err(TPM_RC_SELECTOR) <==> p == Err(TPM_RC_SELECTOR);
    }
  }

  lemma KindsCovered(capability: uint32)
    requires capability <= TPM_CAP_LAST || capability == TPM_CAP_VENDOR_PROPERTY
    ensures KindOf(capability).Some? <==> capability != TPM_CAP_VENDOR_PROPERTY
  {
  }

  method MarshalCapabilities(source: seq<Item>, buffer: Cursor?, size: Budget?, selector: uint32)
    returns (count: uint16)
    requires KindOf(selector).Some? ==>
               var kind := KindOf(selector).value;
               |source| <= MaxCount(kind) && forall i :: 0 <= i < |source| ==> ItemTyped(kind, source[i])
    requires Room(View(buffer, size), Size(CapabilitiesFields(selector, source)))
    modifies Frame(buffer, size)
    ensures Wrote(buffer, size, CapabilitiesFields(selector, source), count)
  {
    match KindOf(selector)
    case Some(kind) => count := MarshalList(kind, source, buffer, size);
    case None => count := 0;
  }

  method MarshalCapability(source: CapabilityData, buffer: Cursor?, size: Budget?) returns (result: uint16)
    requires KindOf(source.capability).Some? ==>
               var kind := KindOf(source.capability).value;
               |source.data| <= MaxCount(kind) && forall i :: 0 <= i < |source.data| ==> ItemTyped(kind, source.data[i])
    requires Room(View(buffer, size), Size(CapabilityFields(source)))
    modifies Frame(buffer, size)
    ensures Wrote(buffer, size, CapabilityFields(source), result)
  {
    Emit2(View(buffer, size), [BE(4, source.capability)], CapabilitiesFields(source.capability, source.data));
    result := 0;
    var n := MarshalUint32(source.capability, buffer, size); result := Add16(result, n);
    n := MarshalCapabilities(source.data, buffer, size, source.capability); result := Add16(result, n);
  }

  method UnmarshalCap(buffer: Cursor, size: Budget) returns (rc: uint32, target: uint32)
    requires Readable(buffer, size)
    modifies buffer, size
    ensures Read(buffer, size, ParseCap(old(Rest(buffer, size))), rc, target)
  {
    rc, target := UnmarshalUint32(buffer, size);
    if rc != TPM_RC_SUCCESS { return; }
    if target > TPM_CAP_LAST && target != TPM_CAP_VENDOR_PROPERTY {
      rc := TPM_RC_VALUE;
    }
  }

  method UnmarshalCapabilities(buffer: Cursor, size: Budget, selector: uint32) returns (rc: uint32, target: seq<Item>)
    requires Readable(buffer, size)
    modifies buffer, size
    ensures Read(buffer, size, ParseCapabilities(old(Rest(buffer, size)), selector), rc, target)
  {
    target := [];
    match KindOf(selector)
    case Some(kind) => rc, target := UnmarshalList(buffer, size, kind);
    case None => rc := TPM_RC_SELECTOR;
  }

  method UnmarshalCapability(buffer: Cursor, size: Budget) returns (rc: uint32, target: CapabilityData)
    requires Readable(buffer, size)
    modifies buffer, size
    ensures Read(buffer, size, ParseCapability(old(Rest(buffer, size))), rc, target)
  {
    target := CapabilityData(0, []);
    var capability, data;
    rc, capability := UnmarshalCap(buffer, size);
    if rc != TPM_RC_SUCCESS { return; }
    rc, data := UnmarshalCapabilities(buffer, size, capability);
    target := CapabilityData(capability, data);
  }
}
