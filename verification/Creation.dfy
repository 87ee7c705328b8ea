/** TPM2B_CREATION_DATA. */
module Creation {
  import opened Bytes
  import opened Wire
  import opened Algorithms
  import opened Blobs
  import opened Codec
  import opened Lists

  datatype CreationData = CreationData(pcrSelect: seq<Item>, pcrDigest: Blob, locality: byte, parentNameAlg: uint16,
                                       parentName: Blob, parentQualifiedName: Blob, outsideInfo: Blob)

  predicate PcrPartOk(x: CreationData) {
    ItemsOk(PcrSelections, x.pcrSelect) && |x.pcrDigest| <= SIZEOF_TPMU_HA
  }

  predicate NamePartOk(x: CreationData) {
    && |x.parentName| <= SIZEOF_TPMU_NAME
    && |x.parentQualifiedName| <= SIZEOF_TPMU_NAME
    && |x.outsideInfo| <= SIZEOF_TPMT_HA
  }

  predicate CreationOk(x: CreationData) {
    PcrPartOk(x) && NamePartOk(x)
  }

  predicate Creation2BOk(x: Sized<CreationData>) {
    CreationOk(x.body) && x.size == Size(CreationFields(x.body))
  }

  function PcrFields(x: CreationData): seq<Field> {
    ListFields(x.pcrSelect) + BlobFields(x.pcrDigest) + [BE(1, x.locality)] + [BE(2, x.parentNameAlg)]
  }

  function NameFields(x: CreationData): seq<Field> {
    BlobFields(x.parentName) + BlobFields(x.parentQualifiedName) + BlobFields(x.outsideInfo)
  }

  function CreationFields(x: CreationData): seq<Field> {
    PcrFields(x) + NameFields(x)
  }

  function Creation2BFields(x: Sized<CreationData>): seq<Field> {
    [BE(2, x.size)] + CreationFields(x.body)
  }

  const NO_CREATION := CreationData([], [], 0, 0, [], [], [])

  function ParsePcrPart(s: seq<byte>): (p: Parsed<CreationData>)
    ensures p.Ok? ==> PcrPartOk(p.value) && s == PutAll(PcrFields(p.value), p.rest)
    ensures p.Err? ==> p.code != TPM_RC_SUCCESS
  {
    var (pcrSelect, s1) :- ParseList(s, PcrSelections);
    var (x, s2) :- ParseAfterPcrs(s1, pcrSelect);
    Put4(ListFields(pcrSelect), BlobFields(x.pcrDigest), [BE(1, x.locality)], [BE(2, x.parentNameAlg)], s2);
    Ok(x, s2)
  }

  function ParseAfterPcrs(s: seq<byte>, pcrSelect: seq<Item>): (p: Parsed<CreationData>)
    ensures p.Ok? ==> p.value.pcrSelect == pcrSelect && |p.value.pcrDigest| <= SIZEOF_TPMU_HA
    ensures p.Ok? ==> s == PutAll(BlobFields(p.value.pcrDigest),
                                  PutAll([BE(1, p.value.locality)], PutAll([BE(2, p.value.parentNameAlg)], p.rest)))
    ensures p.Err? ==> p.code != TPM_RC_SUCCESS
  {
    var (pcrDigest, s1) :- ParseBlob(s, SIZEOF_TPMU_HA);
    var (locality, s2) :- ParseUint8(s1);
    var (parentNameAlg, s3) :- ParseUint16(s2);
    Ok(CreationData(pcrSelect, pcrDigest, locality, parentNameAlg, [], [], []), s3)
  }

  /** Fills in the names and the outside information of `x`. */
  function ParseNamePart(s: seq<byte>, x: CreationData): (p: Parsed<CreationData>)
    ensures p.Ok? ==> NamePartOk(p.value) && s == PutAll(NameFields(p.value), p.rest) && SamePcrPart(p.value, x)
    ensures p.Err? ==> p.code != TPM_RC_SUCCESS
  {
    var (parentName, s1) :- ParseBlob(s, SIZEOF_TPMU_NAME);
    var (parentQualifiedName, s2) :- ParseBlob(s1, SIZEOF_TPMU_NAME);
    var (outsideInfo, s3) :- ParseBlob(s2, SIZEOF_TPMT_HA);
    Put3(BlobFields(parentName), BlobFields(parentQualifiedName), BlobFields(outsideInfo), s3);
    Ok(x.(parentName := parentName, parentQualifiedName := parentQualifiedName, outsideInfo := outsideInfo), s3)
  }

  predicate SamePcrPart(x: CreationData, y: CreationData) {
    && x.pcrSelect == y.pcrSelect && x.pcrDigest == y.pcrDigest && x.locality == y.locality
    && x.parentNameAlg == y.parentNameAlg
  }

  function ParseCreation(s: seq<byte>): (p: Parsed<CreationData>)
    ensures p.Ok? ==> CreationOk(p.value) && s == PutAll(CreationFields(p.value), p.rest)
    ensures p.Err? ==> p.code != TPM_RC_SUCCESS
  {
    var (pcrPart, s1) :- ParsePcrPart(s);
    var (x, s2) :- ParseNamePart(s1, pcrPart);
    Put2(PcrFields(x), NameFields(x), s2);
    Ok(x, s2)
  }

  function ParseCreation2B(s: seq<byte>): (p: Parsed<Sized<CreationData>>)
    ensures p.Ok? ==> Creation2BOk(p.value) && s == PutAll(Creation2BFields(p.value), p.rest)
    ensures p.Err? ==> p.code != TPM_RC_SUCCESS
  {
    var (size, s1) :- ParseUint16(s);
    if size == 0 then Err(TPM_RC_SIZE)
    else
      var body := ParseCreation(s1);
      assert body.Ok? ==> |s1| - |body.rest| == Size(CreationFields(body.value)) by {
        if body.Ok? { SizeOfPut(CreationFields(body.value), body.rest); }
      }
      assert body.Ok? ==> PutAll([BE(2, size)] + CreationFields(body.value), body.rest) == s by {
        if body.Ok? { Put2([BE(2, size)], CreationFields(body.value), body.rest); }
      }
      CheckSize(size, |s1|, body)
  }

  lemma PcrPartRoundTrip(x: CreationData, rest: seq<byte>)
    requires PcrPartOk(x)
    ensures ParsePcrPart(PutAll(PcrFields(x), rest))
            == Ok(x.(parentName := [], parentQualifiedName := [], outsideInfo := []), rest)
  {
    Put4(ListFields(x.pcrSelect), BlobFields(x.pcrDigest), [BE(1, x.locality)], [BE(2, x.parentNameAlg)], rest);
    PutOne();
    WordRoundTrips();
    OtherUintRoundTrips();
    var s2 := BE(1, x.locality) + (BE(2, x.parentNameAlg) + rest);
    BlobRoundTrip(x.pcrDigest, SIZEOF_TPMU_HA, s2);
    ListRoundTrip(PcrSelections, x.pcrSelect, PutAll(BlobFields(x.pcrDigest), s2));
  }

  lemma NamePartRoundTrip(x: CreationData, y: CreationData, rest: seq<byte>)
    requires NamePartOk(x) && SamePcrPart(x, y)
    ensures ParseNamePart(PutAll(NameFields(x), rest), y) == Ok(x, rest)
  {
    Put3(BlobFields(x.parentName), BlobFields(x.parentQualifiedName), BlobFields(x.outsideInfo), rest);
    BlobRoundTrip(x.outsideInfo, SIZEOF_TPMT_HA, rest);
    var s2 := PutAll(BlobFields(x.outsideInfo), rest);
    BlobRoundTrip(x.parentQualifiedName, SIZEOF_TPMU_NAME, s2);
    BlobRoundTrip(x.parentName, SIZEOF_TPMU_NAME, PutAll(BlobFields(x.parentQualifiedName), s2));
  }

  lemma CreationRoundTrip(x: CreationData, rest: seq<byte>)
    requires CreationOk(x)
    ensures ParseCreation(PutAll(CreationFields(x), rest)) == Ok(x, rest)
  {
    Put2(PcrFields(x), NameFields(x), rest);
    PcrPartRoundTrip(x, PutAll(NameFields(x), rest));
    NamePartRoundTrip(x, x.(parentName := [], parentQualifiedName := [], outsideInfo := []), rest);
  }

  lemma CreationSize(x: CreationData)
    requires CreationOk(x)
    ensures 15 <= Size(CreationFields(x)) <= 305
  {
    SizeAppend(PcrFields(x), NameFields(x));
    Size4(ListFields(x.pcrSelect), BlobFields(x.pcrDigest), [BE(1, x.locality)], [BE(2, x.parentNameAlg)]);
    EmitOne(NoBuffer, BE(1, x.locality));
    EmitOne(NoBuffer, BE(2, x.parentNameAlg));
    ListSize(PcrSelections, x.pcrSelect);
    BlobSize(x.pcrDigest);
    SizeAppend(BlobFields(x.parentName) + BlobFields(x.parentQualifiedName), BlobFields(x.outsideInfo));
    SizeAppend(BlobFields(x.parentName), BlobFields(x.parentQualifiedName));
    BlobSize(x.parentName);
    BlobSize(x.parentQualifiedName);
    BlobSize(x.outsideInfo);
  }

  lemma Creation2BRoundTrip(x: Sized<CreationData>, rest: seq<byte>)
    requires Creation2BOk(x)
    ensures ParseCreation2B(PutAll(Creation2BFields(x), rest)) == Ok(x, rest)
  {
    Put2([BE(2, x.size)], CreationFields(x.body), rest);
    PutOne();
    WordRoundTrips();
    CreationRoundTrip(x.body, rest);
    SizeOfPut(CreationFields(x.body), rest);
    CreationSize(x.body);
  }

  lemma Creation2BInverse()
    ensures Inverse(ParseCreation2B, Creation2BFields, Creation2BOk)
  {
    forall x: Sized<CreationData>, rest: seq<byte> | Creation2BOk(x)
      ensures ParseCreation2B(PutAll(Creation2BFields(x), rest)) == Ok(x, rest)
    {
      Creation2BRoundTrip(x, rest);
    }
  }

  /** The unmarshaller accepts exactly the encodings of well-formed creation data. */
  lemma Creation2BAcceptsExactly(s: seq<byte>)
    ensures ParseCreation2B(s).Ok?
            <==> exists x: Sized<CreationData>, rest: seq<byte> ::
                   Creation2BOk(x) && s == PutAll(Creation2BFields(x), rest)
  {
    Creation2BInverse();
    AcceptsExactly(ParseCreation2B, Creation2BFields, Creation2BOk, s);
  }

  /** What follows accepted creation data influences neither its value nor its extent. */
  lemma Creation2BIsLocal(s: seq<byte>, extra: seq<byte>)
    requires ParseCreation2B(s).Ok?
    ensures ParseCreation2B(s + extra) == Ok(ParseCreation2B(s).value, ParseCreation2B(s).rest + extra)
  {
    Creation2BInverse();
    Local(ParseCreation2B, Creation2BFields, Creation2BOk, s, extra);
  }

  /** No encoding is a prefix of another. */
  lemma Creation2BPrefixFree(x: Sized<CreationData>, r: seq<byte>, y: Sized<CreationData>, t: seq<byte>)
    requires Creation2BOk(x) && Creation2BOk(y)
    requires PutAll(Creation2BFields(x), r) == PutAll(Creation2BFields(y), t)
    ensures x == y && r == t
  {
    Creation2BInverse();
    PrefixFree(ParseCreation2B, Creation2BFields, Creation2BOk, x, r, y, t);
  }

  /** The element types and array bounds of the C structure. */
  predicate CreationTyped(x: CreationData) {
    |x.pcrSelect| <= HASH_COUNT && forall i :: 0 <= i < |x.pcrSelect| ==> ItemTyped(PcrSelections, x.pcrSelect[i])
  }

  method MarshalCreation(source: CreationData, buffer: Cursor?, size: Budget?) returns (result: uint16)
    requires CreationTyped(source)
    requires Room(View(buffer, size), Size(CreationFields(source)))
    modifies Frame(buffer, size)
    ensures Wrote(buffer, size, CreationFields(source), result)
  {
    Emit2(View(buffer, size), PcrFields(source), NameFields(source));
    result := MarshalPcrPart(source, buffer, size);
    Low16Adds(Size(PcrFields(source)), Size(NameFields(source)));
    var n := MarshalNamePart(source, buffer, size); result := Add16(result, n);
  }

  method MarshalPcrPart(source: CreationData, buffer: Cursor?, size: Budget?) returns (result: uint16)
    requires CreationTyped(source)
    requires Room(View(buffer, size), Size(PcrFields(source)))
    modifies Frame(buffer, size)
    ensures Wrote(buffer, size, PcrFields(source), result)
  {
    Emit4(View(buffer, size), ListFields(source.pcrSelect), BlobFields(source.pcrDigest),
          [BE(1, source.locality)], [BE(2, source.parentNameAlg)]);
    result := 0;
    var n := MarshalList(PcrSelections, source.pcrSelect, buffer, size); result := Add16(result, n);
    n := MarshalBlob(source.pcrDigest, buffer, size); result := Add16(result, n);
    n := MarshalUint8(source.locality, buffer, size); result := Add16(result, n);
    n := MarshalUint16(source.parentNameAlg, buffer, size); result := Add16(result, n);
  }

  method MarshalNamePart(source: CreationData, buffer: Cursor?, size: Budget?) returns (result: uint16)
    requires Room(View(buffer, size), Size(NameFields(source)))
    modifies Frame(buffer, size)
    ensures Wrote(buffer, size, NameFields(source), result)
  {
    Emit3(View(buffer, size), BlobFields(source.parentName), BlobFields(source.parentQualifiedName),
          BlobFields(source.outsideInfo));
    result := 0;
    var n := MarshalBlob(source.parentName, buffer, size); result := Add16(result, n);
    n := MarshalBlob(source.parentQualifiedName, buffer, size); result := Add16(result, n);
    n := MarshalBlob(source.outsideInfo, buffer, size); result := Add16(result, n);
  }

  /** TPM2B_CREATION_DATA_Marshal, with the same deferred length as TPM2B_PUBLIC_Marshal. */
  method MarshalCreation2B(source: Sized<CreationData>, buffer: Cursor, size: Budget?) returns (result: uint16)
    requires CreationTyped(source.body)
    requires RoomSized(View(buffer, size), Size(CreationFields(source.body)))
    modifies Frame(buffer, size)
    ensures View(buffer, size) == EmitSized(old(View(buffer, size)), CreationFields(source.body))
    ensures result == Low16(Size(CreationFields(source.body)) + 2)
  {
    EmitSizedFits(View(buffer, size), CreationFields(source.body));
    var sizeField := new Cursor(buffer.data, buffer.pos);
    buffer.pos := buffer.pos + 2;
    assert View(buffer, size) == old(View(buffer, size)).(pos := old(buffer.pos) + 2);
    result := MarshalCreation(source.body, buffer, size);
    assert View(sizeField, size) == View(buffer, size).(pos := sizeField.pos);
    var n := WriteLength(result, sizeField, buffer, size);
    Low16Adds(Size(CreationFields(source.body)), 2);
    result := Add16(result, n);
  }

  method UnmarshalPcrPart(buffer: Cursor, size: Budget) returns (rc: uint32, target: CreationData)
    requires Readable(buffer, size)
    modifies buffer, size
    ensures Read(buffer, size, ParsePcrPart(old(Rest(buffer, size))), rc, target)
  {
    target := NO_CREATION;
    var pcrSelect, pcrDigest, locality, parentNameAlg;
    rc, pcrSelect := UnmarshalList(buffer, size, PcrSelections);
    if rc != TPM_RC_SUCCESS { return; }
    rc, pcrDigest := UnmarshalBlob(buffer, size, SIZEOF_TPMU_HA);
    if rc != TPM_RC_SUCCESS { return; }
    rc, locality := UnmarshalUint8(buffer, size);
    if rc != TPM_RC_SUCCESS { return; }
    rc, parentNameAlg := UnmarshalUint16(buffer, size);
    target := CreationData(pcrSelect, pcrDigest, locality, parentNameAlg, [], [], []);
  }

  method UnmarshalNamePart(buffer: Cursor, size: Budget, x: CreationData) returns (rc: uint32, target: CreationData)
    requires Readable(buffer, size)
    modifies buffer, size
    ensures Read(buffer, size, ParseNamePart(old(Rest(buffer, size)), x), rc, target)
  {
    target := x;
    var parentName, parentQualifiedName, outsideInfo;
    rc, parentName := UnmarshalBlob(buffer, size, SIZEOF_TPMU_NAME);
    if rc != TPM_RC_SUCCESS { return; }
    rc, parentQualifiedName := UnmarshalBlob(buffer, size, SIZEOF_TPMU_NAME);
    if rc != TPM_RC_SUCCESS { return; }
    rc, outsideInfo := UnmarshalBlob(buffer, size, SIZEOF_TPMT_HA);
    target := x.(parentName := parentName, parentQualifiedName := parentQualifiedName, outsideInfo := outsideInfo);
  }

  method UnmarshalCreation(buffer: Cursor, size: Budget) returns (rc: uint32, target: CreationData)
    requires Readable(buffer, size)
    modifies buffer, size
    ensures Read(buffer, size, ParseCreation(old(Rest(buffer, size))), rc, target)
  {
    rc, target := UnmarshalPcrPart(buffer, size);
    if rc != TPM_RC_SUCCESS { return; }
    rc, target := UnmarshalNamePart(buffer, size, target);
  }

  method UnmarshalSizedCreation(buffer: Cursor, size: Budget, length: uint16)
    returns (rc: uint32, target: Sized<CreationData>)
    requires Readable(buffer, size) && size.left >= 0
    modifies buffer, size
    ensures Read(buffer, size, CheckSize(length, old(size.left), ParseCreation(old(Rest(buffer, size)))), rc, target)
  {
    target := Sized(0, NO_CREATION);
    var startSize := size.left;
    var creation;
    rc, creation := UnmarshalCreation(buffer, size);
    if rc != TPM_RC_SUCCESS { return; }
    if length != startSize - size.left { rc := TPM_RC_SIZE; return; }
    target := Sized(length, creation);
  }

  method UnmarshalCreation2B(buffer: Cursor, size: Budget) returns (rc: uint32, target: Sized<CreationData>)
    requires Readable(buffer, size)
    modifies buffer, size
    ensures Read(buffer, size, ParseCreation2B(old(Rest(buffer, size))), rc, target)
  {
    target := Sized(0, NO_CREATION);
    var length;
    rc, length := UnmarshalUint16(buffer, size);
    if rc != TPM_RC_SUCCESS { return; }
    if length == 0 { rc := TPM_RC_SIZE; return; }
    ghost var s1 := Rest(buffer, size);
    assert ParseCreation2B(old(Rest(buffer, size))) == CheckSize(length, |s1|, ParseCreation(s1));
    rc, target := UnmarshalSizedCreation(buffer, size, length);
  }
}
