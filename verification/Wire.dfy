/** The cursor and budget that every marshaller and unmarshaller threads through, and what a
    sequence of field writes or reads does to them. */
module Wire {
  import opened Bytes

  const TPM_RC_SUCCESS: uint32 := 0
  const TPM_RC_INSUFFICIENT: uint32 := 0x9A
  const TPM_RC_SIZE: uint32 := 0x95

  /** One atomic write: a marshaller writes all of a field's bytes or none of them. */
  type Field = seq<byte>

  /** The bytes of `fields`, in order, followed by `rest`. */
  function PutAll(fields: seq<Field>, rest: seq<byte>): seq<byte> {
    if fields == [] then rest else fields[0] + PutAll(fields[1..], rest)
  }

  function Size(fields: seq<Field>): nat {
    if fields == [] then 0 else |fields[0]| + Size(fields[1..])
  }

  lemma {:induction false} PutAllAppend(a: seq<Field>, b: seq<Field>, rest: seq<byte>)
    ensures PutAll(a + b, rest) == PutAll(a, PutAll(b, rest))
  {
    if a == [] {
      assert a + b == b;
    } else {
      PutAllAppend(a[1..], b, rest);
      assert (a + b)[1..] == a[1..] + b;
    }
  }

  lemma {:induction false} SizeAppend(a: seq<Field>, b: seq<Field>)
    ensures Size(a + b) == Size(a) + Size(b)
  {
    if a == [] {
      assert a + b == b;
    } else {
      SizeAppend(a[1..], b);
      assert (a + b)[1..] == a[1..] + b;
    }
  }

  /** Lets the solver split any concatenation of fields it meets. */
  lemma SplitPut()
    ensures forall a: seq<Field>, b: seq<Field>, rest: seq<byte> {:trigger PutAll(a + b, rest)} ::
              PutAll(a + b, rest) == PutAll(a, PutAll(b, rest))
    ensures forall f: Field, rest: seq<byte> {:trigger PutAll([f], rest)} :: PutAll([f], rest) == f + rest
    ensures forall rest: seq<byte> {:trigger PutAll([], rest)} :: PutAll([], rest) == rest
  {
    forall a: seq<Field>, b: seq<Field>, rest: seq<byte>
      ensures PutAll(a + b, rest) == PutAll(a, PutAll(b, rest))
    {
      PutAllAppend(a, b, rest);
    }
    forall f: Field, rest: seq<byte> ensures PutAll([f], rest) == f + rest {
      assert [f][1..] == [];
    }
  }

  /** The same for the structures whose parts are themselves structures, one split at a time. */
  lemma PutOne()
    ensures forall f: Field, rest: seq<byte> {:trigger PutAll([f], rest)} :: PutAll([f], rest) == f + rest
  {
    forall f: Field, rest: seq<byte> ensures PutAll([f], rest) == f + rest {
      assert [f][1..] == [];
    }
  }

  lemma Put2(a: seq<Field>, b: seq<Field>, rest: seq<byte>)
    ensures PutAll(a + b, rest) == PutAll(a, PutAll(b, rest))
  {
    PutAllAppend(a, b, rest);
  }

  lemma Put3(a: seq<Field>, b: seq<Field>, c: seq<Field>, rest: seq<byte>)
    ensures PutAll(a + b + c, rest) == PutAll(a, PutAll(b, PutAll(c, rest)))
  {
    PutAllAppend(a + b, c, rest);
    PutAllAppend(a, b, PutAll(c, rest));
  }

  lemma Put4(a: seq<Field>, b: seq<Field>, c: seq<Field>, d: seq<Field>, rest: seq<byte>)
    ensures PutAll(a + b + c + d, rest) == PutAll(a, PutAll(b, PutAll(c, PutAll(d, rest))))
  {
    PutAllAppend(a + b + c, d, rest);
    Put3(a, b, c, PutAll(d, rest));
  }

  lemma {:induction false} SizeOfPut(fields: seq<Field>, rest: seq<byte>)
    ensures |PutAll(fields, rest)| == Size(fields) + |rest|
    ensures PutAll(fields, rest) == PutAll(fields, []) + rest
  {
    if fields != [] {
      SizeOfPut(fields[1..], rest);
      SizeOfPut(fields[1..], []);
    }
  }

  // ----- Writing

  class Cursor {
    const data: array<byte>
    var pos: nat

    constructor (data: array<byte>, pos: nat)
      ensures this.data == data && this.pos == pos
    {
      this.data := data;
      this.pos := pos;
    }
  }

  class Budget {
    var left: int

    constructor (left: int)
      ensures this.left == left
    {
      this.left := left;
    }
  }

  /** A snapshot of a marshaller's target: nothing (dry run), or memory, position and the
      budget, if there is one. */
  datatype Out = NoBuffer | Buffer(mem: seq<byte>, pos: nat, left: Option<int>)

  function Frame(buffer: Cursor?, size: Budget?): set<object> {
    if buffer == null then {}
    else {buffer, buffer.data} + if size == null then {} else {size}
  }

  ghost function View(buffer: Cursor?, size: Budget?): Out
    reads Frame(buffer, size)
  {
    if buffer == null then NoBuffer
    else Buffer(buffer.data[..], buffer.pos, if size == null then None else Some(size.left))
  }

  function Overwrite(mem: seq<byte>, pos: nat, f: Field): (m: seq<byte>)
    ensures |m| == |mem|
  {
    if pos + |f| <= |mem| then mem[..pos] + f + mem[pos + |f|..] else mem
  }

  /** The common text of all primitive marshallers: the budget is charged first and the bytes
      are written only while it is not overdrawn. */
  function Emit(o: Out, f: Field): Out {
    match o
    case NoBuffer => o
    case Buffer(mem, pos, None) => Buffer(Overwrite(mem, pos, f), pos + |f|, None)
    case Buffer(mem, pos, Some(left)) =>
      if left - |f| >= 0 then Buffer(Overwrite(mem, pos, f), pos + |f|, Some(left - |f|))
      else Buffer(mem, pos, Some(left - |f|))
  }

  function EmitAll(o: Out, fields: seq<Field>): Out
    decreases fields
  {
    if fields == [] then o else EmitAll(Emit(o, fields[0]), fields[1..])
  }

  /** The memory a caller must own for `n` bytes to be marshalled: without a budget, all `n`;
      with one, no more than the budget allows. */
  predicate Room(o: Out, n: nat) {
    match o
    case NoBuffer => true
    case Buffer(mem, pos, None) => pos + n <= |mem|
    case Buffer(mem, pos, Some(left)) => left >= 0 ==> pos + left <= |mem| || pos + n <= |mem|
  }

  lemma {:induction false} EmitAllAppend(o: Out, a: seq<Field>, b: seq<Field>)
    ensures EmitAll(o, a + b) == EmitAll(EmitAll(o, a), b)
    decreases a
  {
    if a == [] {
      assert a + b == b;
    } else {
      EmitAllAppend(Emit(o, a[0]), a[1..], b);
      assert (a + b)[1..] == a[1..] + b;
    }
  }

  lemma {:induction false} RoomAfter(o: Out, a: seq<Field>, n: nat)
    requires Room(o, Size(a) + n)
    ensures Room(EmitAll(o, a), n)
    decreases a
  {
    if a != [] {
      RoomAfter(Emit(o, a[0]), a[1..], n);
    }
  }

  lemma SplitSize()
    ensures forall a: seq<Field>, b: seq<Field> {:trigger Size(a + b)} :: Size(a + b) == Size(a) + Size(b)
    ensures forall f: Field {:trigger Size([f])} :: Size([f]) == |f|
  {
    forall a: seq<Field>, b: seq<Field> ensures Size(a + b) == Size(a) + Size(b) {
      SizeAppend(a, b);
    }
    forall f: Field ensures Size([f]) == |f| {
      assert [f][1..] == [];
    }
  }

  lemma Size4(a: seq<Field>, b: seq<Field>, c: seq<Field>, d: seq<Field>)
    ensures Size(a + b + c + d) == Size(a) + Size(b) + Size(c) + Size(d)
  {
    SizeAppend(a + b + c, d);
    SizeAppend(a + b, c);
    SizeAppend(a, b);
  }

  lemma SplitRoom()
    ensures forall o: Out, a: seq<Field>, n: nat {:trigger Room(EmitAll(o, a), n)} ::
              Room(o, Size(a) + n) ==> Room(EmitAll(o, a), n)
  {
    forall o: Out, a: seq<Field>, n: nat | Room(o, Size(a) + n) ensures Room(EmitAll(o, a), n) {
      RoomAfter(o, a, n);
    }
  }

  lemma SplitEmitAll()
    ensures forall o: Out, a: seq<Field>, b: seq<Field> {:trigger EmitAll(o, a + b)} ::
              EmitAll(o, a + b) == EmitAll(EmitAll(o, a), b)
  {
    forall o: Out, a: seq<Field>, b: seq<Field>
      ensures EmitAll(o, a + b) == EmitAll(EmitAll(o, a), b)
    {
      EmitAllAppend(o, a, b);
    }
  }

  /** Lets the solver follow a chain of marshaller calls. */
  lemma SplitEmit()
    ensures forall o: Out, a: seq<Field>, b: seq<Field> {:trigger EmitAll(o, a + b)} ::
              EmitAll(o, a + b) == EmitAll(EmitAll(o, a), b)
    ensures forall a: seq<Field>, b: seq<Field> {:trigger Size(a + b)} :: Size(a + b) == Size(a) + Size(b)
    ensures forall o: Out, a: seq<Field>, n: nat {:trigger Room(EmitAll(o, a), n)} ::
              Room(o, Size(a) + n) ==> Room(EmitAll(o, a), n)
    ensures forall f: Field {:trigger Size([f])} :: Size([f]) == |f|
    ensures forall a: nat, b: nat {:trigger Add16(Low16(a), Low16(b))} :: Add16(Low16(a), Low16(b)) == Low16(a + b)
    ensures forall a: nat {:trigger Low16(a)} :: Add16(0, Low16(a)) == Low16(a)
  {
    forall a: nat, b: nat ensures Add16(Low16(a), Low16(b)) == Low16(a + b) {
      Low16Adds(a, b);
    }
    forall a: nat ensures Add16(0, Low16(a)) == Low16(a) {
      Low16Adds(a, 0);
    }
    SplitSize();
    SplitRoom();
    SplitEmitAll();
  }

  /** The same for the structures whose parts are themselves structures. */
  lemma Emit2(o: Out, a: seq<Field>, b: seq<Field>)
    requires Room(o, Size(a + b))
    ensures Room(o, Size(a)) && Room(EmitAll(o, a), Size(b))
    ensures EmitAll(o, a + b) == EmitAll(EmitAll(o, a), b)
    ensures Size(a + b) == Size(a) + Size(b)
    ensures Add16(Add16(0, Low16(Size(a))), Low16(Size(b))) == Low16(Size(a + b))
  {
    Low16Adds(Size(a), Size(b));
    SizeAppend(a, b);
    RoomAfter(o, a, Size(b));
    EmitAllAppend(o, a, b);
  }

  lemma Emit3(o: Out, a: seq<Field>, b: seq<Field>, c: seq<Field>)
    requires Room(o, Size(a + b + c))
    ensures Room(o, Size(a)) && Room(EmitAll(o, a), Size(b)) && Room(EmitAll(EmitAll(o, a), b), Size(c))
    ensures EmitAll(o, a + b + c) == EmitAll(EmitAll(EmitAll(o, a), b), c)
    ensures Add16(Add16(Add16(0, Low16(Size(a))), Low16(Size(b))), Low16(Size(c))) == Low16(Size(a + b + c))
  {
    Low16Adds(Size(a + b), Size(c));
    Emit2(o, a + b, c);
    Emit2(o, a, b);
  }

  lemma Emit4(o: Out, a: seq<Field>, b: seq<Field>, c: seq<Field>, d: seq<Field>)
    requires Room(o, Size(a + b + c + d))
    ensures Room(o, Size(a)) && Room(EmitAll(o, a), Size(b)) && Room(EmitAll(EmitAll(o, a), b), Size(c))
    ensures Room(EmitAll(EmitAll(EmitAll(o, a), b), c), Size(d))
    ensures EmitAll(o, a + b + c + d) == EmitAll(EmitAll(EmitAll(EmitAll(o, a), b), c), d)
    ensures Add16(Add16(Add16(Add16(0, Low16(Size(a))), Low16(Size(b))), Low16(Size(c))), Low16(Size(d)))
            == Low16(Size(a + b + c + d))
  {
    Low16Adds(Size(a + b + c), Size(d));
    Emit2(o, a + b + c, d);
    Emit3(o, a, b, c);
  }

  // ----- Sticky overflow

  /** How many leading fields fit in `left` bytes. */
  function Fitting(fields: seq<Field>, left: int): (k: nat)
    ensures k <= |fields| && Size(fields[..k]) <= (if left < 0 then 0 else left)
    decreases fields
  {
    if fields == [] || |fields[0]| > left then 0
    else
      var k := Fitting(fields[1..], left - |fields[0]|);
      assert fields[..k + 1][1..] == fields[1..][..k];
      k + 1
  }

  /** Once a budget is overdrawn nothing more is written, by any number of later calls. */
  lemma {:induction false} OverdrawnIsSticky(o: Out, fields: seq<Field>)
    requires o.Buffer? && o.left.Some? && o.left.value < 0
    ensures EmitAll(o, fields) == o.(left := Some(o.left.value - Size(fields)))
    decreases fields
  {
    if fields != [] {
      OverdrawnIsSticky(Emit(o, fields[0]), fields[1..]);
    }
  }

  lemma OverwriteTwice(mem: seq<byte>, pos: nat, f: seq<byte>, g: seq<byte>)
    requires pos + |f| + |g| <= |mem|
    ensures Overwrite(Overwrite(mem, pos, f), pos + |f|, g) == Overwrite(mem, pos, f + g)
  {
  }

  /** `left` bytes of budget spent on `fields`: the leading fields that fit are written, and the
      charge for all of them is taken. */
  function Truncated(mem: seq<byte>, pos: nat, left: nat, fields: seq<Field>): Out {
    var written := PutAll(fields[..Fitting(fields, left)], []);
    Buffer(Overwrite(mem, pos, written), pos + |written|, Some(left - Size(fields)))
  }

  lemma PrefixSize(fields: seq<Field>, k: nat)
    requires k <= |fields|
    ensures Size(fields[..k]) <= Size(fields)
  {
    assert fields == fields[..k] + fields[k..];
    SizeAppend(fields[..k], fields[k..]);
  }

  lemma PutFirsts(fields: seq<Field>, k: nat)
    requires 0 < k <= |fields|
    ensures PutAll(fields[..k], []) == fields[0] + PutAll(fields[1..][..k - 1], [])
    ensures |PutAll(fields[1..][..k - 1], [])| == Size(fields[..k]) - |fields[0]|
  {
    assert fields[..k][1..] == fields[1..][..k - 1] && fields[..k][0] == fields[0];
    SizeOfPut(fields[1..][..k - 1], []);
  }

  lemma TruncatedStep(mem: seq<byte>, pos: nat, left: nat, fields: seq<Field>)
    requires fields != [] && |fields[0]| <= left && pos + Size(fields[..Fitting(fields, left)]) <= |mem|
    ensures Truncated(mem, pos, left, fields)
            == Truncated(Overwrite(mem, pos, fields[0]), pos + |fields[0]|, left - |fields[0]|, fields[1..])
  {
    var k := Fitting(fields, left);
    assert k == Fitting(fields[1..], left - |fields[0]|) + 1;
    PutFirsts(fields, k);
    OverwriteTwice(mem, pos, fields[0], PutAll(fields[1..][..k - 1], []));
  }

  lemma NothingFits(mem: seq<byte>, pos: nat, left: nat, fields: seq<Field>)
    requires pos <= |mem| && (fields == [] || |fields[0]| > left)
    ensures EmitAll(Buffer(mem, pos, Some(left)), fields) == Truncated(mem, pos, left, fields)
  {
    if fields != [] {
      OverdrawnIsSticky(Emit(Buffer(mem, pos, Some(left)), fields[0]), fields[1..]);
    }
    assert fields[..0] == [] && Overwrite(mem, pos, []) == mem;
  }

  /** From any budget of at least zero: the bytes written are the longest whole-field prefix that
      fits, they stay inside the budget, the rest of memory is untouched, and the budget ends at
      its start minus the full size, whether or not everything fitted. */
  lemma {:induction false} StickyOverflow(mem: seq<byte>, pos: nat, left: nat, fields: seq<Field>)
    requires pos + left <= |mem| || pos + Size(fields) <= |mem|
    ensures EmitAll(Buffer(mem, pos, Some(left)), fields) == Truncated(mem, pos, left, fields)
    decreases fields
  {
    if fields == [] || |fields[0]| > left {
      NothingFits(mem, pos, left, fields);
    } else {
      PrefixSize(fields, Fitting(fields, left));
      TruncatedStep(mem, pos, left, fields);
      var mem' := Overwrite(mem, pos, fields[0]);
      assert Emit(Buffer(mem, pos, Some(left)), fields[0]) == Buffer(mem', pos + |fields[0]|, Some(left - |fields[0]|));
      StickyOverflow(mem', pos + |fields[0]|, left - |fields[0]|, fields[1..]);
    }
  }

  lemma {:induction false} FittingIsMaximal(fields: seq<Field>, left: nat)
    ensures var k := Fitting(fields, left);
            Size(fields[..k]) <= left && (k < |fields| ==> Size(fields[..k]) + |fields[k]| > left)
    decreases fields
  {
    if fields != [] && |fields[0]| <= left {
      FittingIsMaximal(fields[1..], left - |fields[0]|);
      var k := Fitting(fields, left);
      assert fields[..k][1..] == fields[1..][..k - 1];
    }
  }

  lemma {:induction false} AllFit(fields: seq<Field>, left: nat)
    requires Size(fields) <= left
    ensures Fitting(fields, left) == |fields|
    decreases fields
  {
    if fields != [] {
      AllFit(fields[1..], left - |fields[0]|);
    }
  }

  /** With budget for everything, everything is written in order. */
  lemma EmitsAll(mem: seq<byte>, pos: nat, left: nat, fields: seq<Field>)
    requires Size(fields) <= left && pos + Size(fields) <= |mem|
    ensures EmitAll(Buffer(mem, pos, Some(left)), fields)
            == Buffer(Overwrite(mem, pos, PutAll(fields, [])), pos + Size(fields), Some(left - Size(fields)))
  {
    StickyOverflow(mem, pos, left, fields);
    AllFit(fields, left);
    assert fields[..|fields|] == fields;
    SizeOfPut(fields, []);
  }

  /** Without a budget too; and without a buffer nothing happens. */
  lemma {:induction false} EmitsAllUnbudgeted(mem: seq<byte>, pos: nat, fields: seq<Field>)
    requires pos + Size(fields) <= |mem|
    ensures EmitAll(Buffer(mem, pos, None), fields)
            == Buffer(Overwrite(mem, pos, PutAll(fields, [])), pos + Size(fields), None)
    ensures EmitAll(NoBuffer, fields) == NoBuffer
    decreases fields
  {
    if fields == [] {
      assert Overwrite(mem, pos, []) == mem;
    } else {
      var f, more := fields[0], PutAll(fields[1..], []);
      assert |more| == Size(fields[1..]) by {
        SizeOfPut(fields[1..], []);
      }
      OverwriteTwice(mem, pos, f, more);
      var mem' := Overwrite(mem, pos, f);
      EmitsAllUnbudgeted(mem', pos + |f|, fields[1..]);
      assert Emit(Buffer(mem, pos, None), f) == Buffer(mem', pos + |f|, None);
    }
  }

  // ----- Structures whose length is written after their body

  /** The deferred-length marshallers: skip two bytes, marshal the body, then charge and write
      the length into the gap. */
  ghost function EmitSized(o: Out, body: seq<Field>): Out
    requires o.Buffer?
  {
    EmitKeeps(o.(pos := o.pos + 2), body);
    var written := EmitAll(o.(pos := o.pos + 2), body);
    var patched := Emit(written.(pos := o.pos), BE(2, Low16(Size(body))));
    patched.(pos := written.pos)
  }

  predicate RoomSized(o: Out, n: nat) {
    o.Buffer? && o.pos + 2 <= |o.mem| && Room(o.(pos := o.pos + 2), n)
  }

  /** Emission never loses its buffer and never moves back. */
  lemma {:induction false} EmitKeeps(o: Out, fields: seq<Field>)
    requires o.Buffer?
    ensures var e := EmitAll(o, fields); e.Buffer? && e.pos >= o.pos && |e.mem| == |o.mem|
    decreases fields
  {
    if fields != [] {
      EmitKeeps(Emit(o, fields[0]), fields[1..]);
    }
  }

  /** Deferred marshalling equals in-order marshalling if the budget covers the length field as well as
      the body. With less, the length is never written. */
  lemma DeferredLength(mem: seq<byte>, pos: nat, left: nat, body: seq<Field>)
    requires Size(body) < 0x1_0000
    requires pos + 2 + left <= |mem| || pos + 2 + Size(body) <= |mem|
    ensures var o := Buffer(mem, pos, Some(left));
            var e := EmitSized(o, body);
            && e.Buffer? && |e.mem| == |mem| && e.left == Some(left - 2 - Size(body))
            && (left >= 2 + Size(body) ==> e == EmitAll(o, [BE(2, Size(body))] + body))
            && (left < 2 + Size(body) ==> e.mem[pos..pos + 2] == mem[pos..pos + 2])
  {
    EmitKeeps(Buffer(mem, pos + 2, Some(left)), body);
    if left >= 2 + Size(body) {
      DeferredFits(mem, pos, left, body);
    } else {
      StickyOverflow(mem, pos + 2, left, body);
    }
  }

  lemma {:induction false} FittingGrows(fields: seq<Field>, left: int, more: int)
    requires left <= more
    ensures Fitting(fields, left) <= Fitting(fields, more)
    decreases fields
  {
    if fields != [] && |fields[0]| <= left {
      FittingGrows(fields[1..], left - |fields[0]|, more - |fields[0]|);
    }
  }

  /** Leading fields of the same size hold the same bytes. */
  lemma SameSizeSameBytes(fields: seq<Field>, k: nat, n: nat)
    requires k <= n <= |fields| && Size(fields[..k]) == Size(fields[..n])
    ensures PutAll(fields[..k], []) == PutAll(fields[..n], [])
  {
    var extra := fields[k..n];
    assert fields[..n] == fields[..k] + extra;
    SizeAppend(fields[..k], extra);
    PutAllAppend(fields[..k], extra, []);
    SizeOfPut(extra, []);
  }

  lemma GapMatters(mem: seq<byte>, pos: nat, head: seq<byte>, tail: seq<byte>)
    requires pos + |head| + |tail| <= |mem|
    ensures Overwrite(mem, pos + |head|, tail) == Overwrite(Overwrite(mem, pos, head), pos + |head|, tail)
            <==> mem[pos..pos + |head|] == head
  {
    var a, b := Overwrite(mem, pos + |head|, tail), Overwrite(Overwrite(mem, pos, head), pos + |head|, tail);
    assert a[..pos + |head|] == mem[..pos + |head|] && b[..pos + |head|] == mem[..pos] + head;
    assert a[pos..pos + |head|] == a[..pos + |head|][pos..] && b[pos..pos + |head|] == b[..pos + |head|][pos..];
    if mem[pos..pos + |head|] == head {
      assert Overwrite(mem, pos, head) == mem;
    }
  }

  /** Deferred marshalling with a budget that does not cover both. */
  lemma ShortDeferred(mem: seq<byte>, pos: nat, left: nat, body: seq<Field>)
    requires Size(body) < 0x1_0000 && left < 2 + Size(body)
    requires pos + 2 + left <= |mem| || pos + 2 + Size(body) <= |mem|
    ensures var written := PutAll(body[..Fitting(body, left)], []);
            && pos + 2 + |written| <= |mem| && |written| == Size(body[..Fitting(body, left)])
            && EmitSized(Buffer(mem, pos, Some(left)), body)
               == Buffer(Overwrite(mem, pos + 2, written), pos + 2 + |written|, Some(left - 2 - Size(body)))
  {
    PrefixSize(body, Fitting(body, left));
    SizeOfPut(body[..Fitting(body, left)], []);
    StickyOverflow(mem, pos + 2, left, body);
  }

  /** In-order marshalling with the same budget. */
  lemma ShortInOrder(mem: seq<byte>, pos: nat, left: nat, head: Field, body: seq<Field>)
    requires |head| == 2 && left < 2 + Size(body)
    requires pos + 2 + left <= |mem| || pos + 2 + Size(body) <= |mem|
    ensures var written := PutAll(body[..Fitting(body, left - 2)], []);
            && |written| == Size(body[..Fitting(body, left - 2)])
            && EmitAll(Buffer(mem, pos, Some(left)), [head] + body)
               == if left < 2 then Buffer(mem, pos, Some(left - 2 - Size(body)))
                  else Buffer(Overwrite(Overwrite(mem, pos, head), pos + 2, written), pos + 2 + |written|,
                              Some(left - 2 - Size(body)))
  {
    var o := Buffer(mem, pos, Some(left));
    assert ([head] + body)[1..] == body;
    SizeOfPut(body[..Fitting(body, left - 2)], []);
    if left < 2 {
      OverdrawnIsSticky(Emit(o, head), body);
    } else {
      StickyOverflow(Overwrite(mem, pos, head), pos + 2, left - 2, body);
    }
  }

  lemma SameEffect(mem: seq<byte>, pos: nat, left: nat, head: Field, body: seq<Field>, charge: int)
    requires |head| == 2 && 2 <= left && pos + 2 + Size(body[..Fitting(body, left)]) <= |mem|
    ensures var w, v := PutAll(body[..Fitting(body, left)], []), PutAll(body[..Fitting(body, left - 2)], []);
            Buffer(Overwrite(mem, pos + 2, w), pos + 2 + |w|, Some(charge))
            == Buffer(Overwrite(Overwrite(mem, pos, head), pos + 2, v), pos + 2 + |v|, Some(charge))
            <==> mem[pos..pos + 2] == head
                 && Size(body[..Fitting(body, left)]) == Size(body[..Fitting(body, left - 2)])
  {
    var k, n := Fitting(body, left - 2), Fitting(body, left);
    SizeOfPut(body[..k], []);
    SizeOfPut(body[..n], []);
    if Size(body[..n]) == Size(body[..k]) {
      FittingGrows(body, left - 2, left);
      SameSizeSameBytes(body, k, n);
      GapMatters(mem, pos, head, PutAll(body[..n], []));
    }
  }

  lemma ShortExactly(mem: seq<byte>, pos: nat, left: nat, head: Field, body: seq<Field>, sized: Out)
    requires |head| == 2 && left < 2 + Size(body)
    requires pos + 2 + left <= |mem| || pos + 2 + Size(body) <= |mem|
    requires var written := PutAll(body[..Fitting(body, left)], []);
             && pos + 2 + |written| <= |mem| && |written| == Size(body[..Fitting(body, left)])
             && sized == Buffer(Overwrite(mem, pos + 2, written), pos + 2 + |written|, Some(left - 2 - Size(body)))
    ensures sized == EmitAll(Buffer(mem, pos, Some(left)), [head] + body)
            <==> && left >= 2 && mem[pos..pos + 2] == head
                 && Size(body[..Fitting(body, left)]) == Size(body[..Fitting(body, left - 2)])
  {
    ShortInOrder(mem, pos, left, head, body);
    if left >= 2 {
      SameEffect(mem, pos, left, head, body, left - 2 - Size(body));
    }
  }

  /** Deferred and in-order marshalling have the same effect exactly if the budget covers length and
      body, or the length is in memory already and the two bytes withheld make no field fall short. */
  lemma DeferredExactly(mem: seq<byte>, pos: nat, left: nat, body: seq<Field>)
    requires Size(body) < 0x1_0000
    requires pos + 2 + left <= |mem| || pos + 2 + Size(body) <= |mem|
    ensures var o := Buffer(mem, pos, Some(left));
            EmitSized(o, body) == EmitAll(o, [BE(2, Size(body))] + body)
            <==> || left >= 2 + Size(body)
                 || (left >= 2 && mem[pos..pos + 2] == BE(2, Size(body))
                     && Size(body[..Fitting(body, left)]) == Size(body[..Fitting(body, left - 2)]))
  {
    var head := BE(2, Size(body));
    if left >= 2 + Size(body) {
      DeferredFits(mem, pos, left, body);
    } else {
      ShortExactly(mem, pos, left, head, body, EmitSized(Buffer(mem, pos, Some(left)), body)) by {
        ShortDeferred(mem, pos, left, body);
      }
    }
  }

  lemma DeferredFits(mem: seq<byte>, pos: nat, left: nat, body: seq<Field>)
    requires Size(body) < 0x1_0000 && 2 + Size(body) <= left && pos + 2 + Size(body) <= |mem|
    ensures var o := Buffer(mem, pos, Some(left));
            && EmitSized(o, body) == EmitAll(o, [BE(2, Size(body))] + body)
            && EmitSized(o, body) == Buffer(Overwrite(mem, pos, BE(2, Size(body)) + PutAll(body, [])),
                                            pos + 2 + Size(body), Some(left - 2 - Size(body)))
  {
    var head, tail := BE(2, Size(body)), PutAll(body, []);
    SizeOfPut(body, []);
    EmitsAll(mem, pos + 2, left, body);
    OverwriteGap(mem, pos, head, tail);
    SizeAppend([head], body);
    EmitOne(Buffer(mem, pos, Some(left)), head);
    EmitsAll(mem, pos, left, [head] + body);
    PutAllAppend([head], body, []);
    PutOne();
  }

  lemma OverwriteGap(mem: seq<byte>, pos: nat, f: seq<byte>, g: seq<byte>)
    requires pos + |f| + |g| <= |mem|
    ensures Overwrite(Overwrite(mem, pos + |f|, g), pos, f) == Overwrite(mem, pos, f + g)
  {
  }

  /** The same memory seen through the second cursor that the length is written with. */
  lemma EmitSizedFits(o: Out, body: seq<Field>)
    requires RoomSized(o, Size(body))
    ensures var written := EmitAll(o.(pos := o.pos + 2), body);
            written.Buffer? && Room(written.(pos := o.pos), 2)
  {
    var o2 := o.(pos := o.pos + 2);
    EmitKeeps(o2, body);
    RoomAfter(o2, body, 0);
  }

  /** What every marshaller does: its fields, in order, through the budget; and it returns
      their number of bytes as a UINT16, whatever became of them. */
  twostate predicate Wrote(buffer: Cursor?, size: Budget?, fields: seq<Field>, count: uint16)
    reads Frame(buffer, size)
  {
    && View(buffer, size) == EmitAll(old(View(buffer, size)), fields)
    && count == Low16(Size(fields))
  }

  method MarshalUint8(source: byte, buffer: Cursor?, size: Budget?) returns (count: uint16)
    requires Room(View(buffer, size), 1)
    modifies Frame(buffer, size)
    ensures Wrote(buffer, size, [BE(1, source)], count)
  {
    if buffer != null {
      if size != null { size.left := size.left - 1; }
      if size == null || size.left >= 0 {
        buffer.data[buffer.pos] := source;
        buffer.pos := buffer.pos + 1;
      }
    }
    count := 1;
    assert BE(1, source) == [source];
    EmitOne(old(View(buffer, size)), BE(1, source));
  }

  method MarshalUint16(source: uint16, buffer: Cursor?, size: Budget?) returns (count: uint16)
    requires Room(View(buffer, size), 2)
    modifies Frame(buffer, size)
    ensures Wrote(buffer, size, [BE(2, source)], count)
  {
    if buffer != null {
      if size != null { size.left := size.left - 2; }
      if size == null || size.left >= 0 {
        Uint16ToByteArray(source, buffer.data, buffer.pos);
        buffer.pos := buffer.pos + 2;
      }
    }
    count := 2;
    EmitOne(old(View(buffer, size)), BE(2, source));
  }

  method MarshalUint32(source: uint32, buffer: Cursor?, size: Budget?) returns (count: uint16)
    requires Room(View(buffer, size), 4)
    modifies Frame(buffer, size)
    ensures Wrote(buffer, size, [BE(4, source)], count)
  {
    if buffer != null {
      if size != null { size.left := size.left - 4; }
      if size == null || size.left >= 0 {
        Uint32ToByteArray(source, buffer.data, buffer.pos);
        buffer.pos := buffer.pos + 4;
      }
    }
    count := 4;
    EmitOne(old(View(buffer, size)), BE(4, source));
  }

  method MarshalByteArray(source: seq<byte>, buffer: Cursor?, size: Budget?) returns (count: uint16)
    requires Room(View(buffer, size), |source|)
    modifies Frame(buffer, size)
    ensures Wrote(buffer, size, [source], count)
  {
    if buffer != null {
      if size != null { size.left := size.left - |source|; }
      if size == null || size.left >= 0 {
        CopyBytes(source, buffer.data, buffer.pos);
        buffer.pos := buffer.pos + |source|;
      }
    }
    count := Low16(|source|);
    EmitOne(old(View(buffer, size)), source);
  }

  method CopyBytes(source: seq<byte>, a: array<byte>, at: nat)
    requires at + |source| <= a.Length
    modifies a
    ensures a[..] == old(a[..at]) + source + old(a[at + |source|..])
  {
    forall i | 0 <= i < |source| {
      a[at + i] := source[i];
    }
  }

  /** Writes a length into the gap left for it, through a second cursor on the same memory and budget. */
  method WriteLength(length: uint16, gap: Cursor, buffer: Cursor, size: Budget?) returns (count: uint16)
    requires gap != buffer && gap.data == buffer.data && Room(View(gap, size), 2)
    modifies Frame(gap, size)
    ensures count == 2
    ensures var o := old(View(gap, size));
            && View(buffer, size).Buffer? && Emit(o, BE(2, length)).Buffer?
            && View(buffer, size) == Emit(o, BE(2, length)).(pos := old(buffer.pos))
  {
    EmitOne(View(gap, size), BE(2, length));
    count := MarshalUint16(length, gap, size);
    assert View(buffer, size) == View(gap, size).(pos := buffer.pos);
  }

  lemma EmitOne(o: Out, f: Field)
    ensures EmitAll(o, [f]) == Emit(o, f)
    ensures Size([f]) == |f|
  {
    assert [f][1..] == [];
  }

  // ----- Reading

  datatype Parsed<+T> = Ok(value: T, rest: seq<byte>) | Err(code: uint32) {
    predicate IsFailure() { Err? }
    function PropagateFailure<U>(): Parsed<U>
      requires Err?
    {
      Err(code)
    }
    function Extract(): (T, seq<byte>)
      requires Ok?
    {
      (value, rest)
    }
  }

  predicate Readable(buffer: Cursor, size: Budget)
    reads buffer, size
  {
    size.left >= 0 ==> buffer.pos + size.left <= buffer.data.Length
  }

  /** The bytes still covered by the budget: all that an unmarshaller may look at. A negative budget
      covers none. */
  ghost function Rest(buffer: Cursor, size: Budget): seq<byte>
    requires Readable(buffer, size)
    reads buffer, size, buffer.data
  {
    if size.left < 0 then [] else buffer.data[buffer.pos..buffer.pos + size.left]
  }

  /** What every unmarshaller does. On success the cursor advanced by exactly the decrease of the
      budget; on failure neither has left the bytes that were covered at the start. */
  twostate predicate Read<T>(buffer: Cursor, size: Budget, p: Parsed<T>, rc: uint32, new target: T)
    requires old(Readable(buffer, size))
    reads buffer, size, buffer.data
  {
    match p
    case Ok(value, rest) =>
      && rc == TPM_RC_SUCCESS && target == value
      && Readable(buffer, size) && Rest(buffer, size) == rest
      && buffer.pos + size.left == old(buffer.pos + size.left)
      && old(buffer.pos) <= buffer.pos && (if old(size.left) < 0 then buffer.pos == old(buffer.pos) else size.left >= 0)
    case Err(code) =>
      && rc == code && rc != TPM_RC_SUCCESS
      && old(buffer.pos) <= buffer.pos <= old(buffer.pos) + (if old(size.left) < 0 then 0 else old(size.left))
      && size.left <= old(size.left)
  }

  /** A TPM2B whose contents are a structure: its length field and the structure. */
  datatype Sized<+T> = Sized(size: uint16, body: T)

  /** The outcome of a sized structure whose length field read `size` and whose body began with
      `available` bytes covered: the body must have used exactly `size` of them. */
  function CheckSize<T>(size: uint16, available: nat, body: Parsed<T>): Parsed<Sized<T>> {
    match body
    case Err(code) => Err(code)
    case Ok(x, rest) => if size != available - |rest| then Err(TPM_RC_SIZE) else Ok(Sized(size, x), rest)
  }

  function ParseUint(n: nat, s: seq<byte>): (p: Parsed<nat>)
    ensures p.Ok? ==> p.value < Pow256(n) && s == BE(n, p.value) + p.rest
    ensures p.Err? ==> p.code != TPM_RC_SUCCESS
  {
    if |s| < n then Err(TPM_RC_INSUFFICIENT)
    else
      EncodeDecode(s[..n]);
      Ok(FromBE(s[..n]), s[n..])
  }

  function ParseUint8(s: seq<byte>): (p: Parsed<byte>)
    ensures p.Ok? ==> s == PutAll([BE(1, p.value)], p.rest)
    ensures p.Err? ==> p.code != TPM_RC_SUCCESS
  {
    Widths(); SplitPut();
    var (x, s1) :- ParseUint(1, s);
    Ok(x, s1)
  }

  function ParseUint16(s: seq<byte>): (p: Parsed<uint16>)
    ensures p.Ok? ==> s == PutAll([BE(2, p.value)], p.rest)
    ensures p.Err? ==> p.code != TPM_RC_SUCCESS
  {
    Widths(); SplitPut();
    var (x, s1) :- ParseUint(2, s);
    Ok(x, s1)
  }

  function ParseUint32(s: seq<byte>): (p: Parsed<uint32>)
    ensures p.Ok? ==> s == PutAll([BE(4, p.value)], p.rest)
    ensures p.Err? ==> p.code != TPM_RC_SUCCESS
  {
    Widths(); SplitPut();
    var (x, s1) :- ParseUint(4, s);
    Ok(x, s1)
  }

  function ParseByteArray(s: seq<byte>, count: nat): (p: Parsed<seq<byte>>)
    ensures p.Ok? ==> s == PutAll([p.value], p.rest) && |p.value| == count
    ensures p.Err? ==> p.code != TPM_RC_SUCCESS
  {
    SplitPut();
    if |s| < count then Err(TPM_RC_INSUFFICIENT) else Ok(s[..count], s[count..])
  }

  lemma UintRoundTrip(n: nat, x: nat, rest: seq<byte>)
    requires x < Pow256(n)
    ensures ParseUint(n, BE(n, x) + rest) == Ok(x, rest)
  {
    DecodeEncode(n, x);
    assert (BE(n, x) + rest)[..n] == BE(n, x);
    assert (BE(n, x) + rest)[n..] == rest;
  }

  /** Reading back a UINT16 that was written, whatever follows it. */
  lemma WordRoundTrips()
    ensures forall x: uint16, rest: seq<byte> {:trigger BE(2, x) + rest} ::
              ParseUint16(BE(2, x) + rest) == Ok(x, rest)
  {
    Widths();
    forall x: uint16, rest: seq<byte> ensures ParseUint16(BE(2, x) + rest) == Ok(x, rest) {
      UintRoundTrip(2, x, rest);
    }
  }

  lemma OtherUintRoundTrips()
    ensures forall x: byte, rest: seq<byte> {:trigger BE(1, x) + rest} ::
              ParseUint8(BE(1, x) + rest) == Ok(x, rest)
    ensures forall x: uint32, rest: seq<byte> {:trigger BE(4, x) + rest} ::
              ParseUint32(BE(4, x) + rest) == Ok(x, rest)
  {
    Widths();
    forall x: byte, rest: seq<byte> ensures ParseUint8(BE(1, x) + rest) == Ok(x, rest) {
      UintRoundTrip(1, x, rest);
    }
    forall x: uint32, rest: seq<byte> ensures ParseUint32(BE(4, x) + rest) == Ok(x, rest) {
      UintRoundTrip(4, x, rest);
    }
  }

  lemma ByteArrayRoundTrip(s: seq<byte>, rest: seq<byte>)
    ensures ParseByteArray(s + rest, |s|) == Ok(s, rest)
  {
    assert (s + rest)[..|s|] == s && (s + rest)[|s|..] == rest;
  }

  /** What a read looks at, and what it leaves. */
  lemma CoveredPrefix(data: array<byte>, pos: nat, left: nat, n: nat)
    requires n <= left && pos + left <= data.Length
    ensures data[pos..pos + left][..n] == data[pos..pos + n]
    ensures data[pos..pos + left][n..] == data[pos + n..pos + left]
  {
  }

  lemma FirstByte(s: seq<byte>)
    requires s != []
    ensures ParseUint8(s) == Ok(s[0], s[1..])
  {
    assert s[..1] == [s[0]] && [s[0]][..0] == [];
    assert FromBE([s[0]]) == s[0];
  }

  method UnmarshalUint8(buffer: Cursor, size: Budget) returns (rc: uint32, target: byte)
    requires Readable(buffer, size)
    modifies buffer, size
    ensures Read(buffer, size, ParseUint8(old(Rest(buffer, size))), rc, target)
  {
    target := 0;
    ghost var s := Rest(buffer, size);
    size.left := size.left - 1;
    if size.left < 0 {
      rc := TPM_RC_INSUFFICIENT;
    } else {
      target := buffer.data[buffer.pos];
      assert s[0] == target;
      FirstByte(s);
      buffer.pos := buffer.pos + 1;
      assert Rest(buffer, size) == s[1..];
      rc := TPM_RC_SUCCESS;
    }
  }

  method UnmarshalUint16(buffer: Cursor, size: Budget) returns (rc: uint32, target: uint16)
    requires Readable(buffer, size)
    modifies buffer, size
    ensures Read(buffer, size, ParseUint16(old(Rest(buffer, size))), rc, target)
  {
    target := 0;
    ghost var s := Rest(buffer, size);
    size.left := size.left - 2;
    if size.left < 0 {
      rc := TPM_RC_INSUFFICIENT;
    } else {
      target := ByteArrayToUint16(buffer.data, buffer.pos);
      CoveredPrefix(buffer.data, buffer.pos, old(size.left), 2);
      assert ParseUint16(s) == Ok(target, s[2..]);
      buffer.pos := buffer.pos + 2;
      assert Rest(buffer, size) == s[2..];
      rc := TPM_RC_SUCCESS;
    }
  }

  method UnmarshalUint32(buffer: Cursor, size: Budget) returns (rc: uint32, target: uint32)
    requires Readable(buffer, size)
    modifies buffer, size
    ensures Read(buffer, size, ParseUint32(old(Rest(buffer, size))), rc, target)
  {
    target := 0;
    ghost var s := Rest(buffer, size);
    size.left := size.left - 4;
    if size.left < 0 {
      rc := TPM_RC_INSUFFICIENT;
    } else {
      target := ByteArrayToUint32(buffer.data, buffer.pos);
      CoveredPrefix(buffer.data, buffer.pos, old(size.left), 4);
      assert ParseUint32(s) == Ok(target, s[4..]);
      buffer.pos := buffer.pos + 4;
      assert Rest(buffer, size) == s[4..];
      rc := TPM_RC_SUCCESS;
    }
  }

  method UnmarshalByteArray(buffer: Cursor, size: Budget, count: nat) returns (rc: uint32, target: seq<byte>)
    requires Readable(buffer, size)
    modifies buffer, size
    ensures Read(buffer, size,
                 if old(size.left) < 0 then Err(TPM_RC_INSUFFICIENT)
                 else ParseByteArray(old(Rest(buffer, size)), count),
                 rc, target)
  {
    target := [];
    ghost var s := Rest(buffer, size);
    if size.left < count {
      rc := TPM_RC_INSUFFICIENT;
    } else {
      target := buffer.data[buffer.pos..buffer.pos + count];
      CoveredPrefix(buffer.data, buffer.pos, old(size.left), count);
      assert ParseByteArray(s, count) == Ok(target, s[count..]);
      size.left := size.left - count;
      buffer.pos := buffer.pos + count;
      assert Rest(buffer, size) == s[count..];
      rc := TPM_RC_SUCCESS;
    }
  }
}
