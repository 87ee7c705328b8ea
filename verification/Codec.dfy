/** Laws of a parser and a printer that are inverse to each other, and their lift to arrays. */
module Codec {
  import opened Bytes
  import opened Wire

  type Parser<!T> = seq<byte> -> Parsed<T>

  /** Printing a value that is `ok` and parsing it, before any suffix, gives the value back; and
      whatever is parsed is `ok` and prints as the bytes consumed. */
  ghost predicate Inverse<T(!new)>(parse: Parser<T>, fields: T -> seq<Field>, ok: T -> bool) {
    && (forall v: T, rest: seq<byte> {:trigger PutAll(fields(v), rest)} ::
          ok(v) ==> parse(PutAll(fields(v), rest)) == Ok(v, rest))
    && (forall s: seq<byte> {:trigger parse(s)} ::
          parse(s).Ok? ==> ok(parse(s).value) && s == PutAll(fields(parse(s).value), parse(s).rest))
    && (forall s: seq<byte> {:trigger parse(s)} :: parse(s).Err? ==> parse(s).code != TPM_RC_SUCCESS)
  }

  /** The parser accepts exactly the encodings of `ok` values, followed by anything. */
  lemma AcceptsExactly<T(!new)>(parse: Parser<T>, fields: T -> seq<Field>, ok: T -> bool, s: seq<byte>)
    requires Inverse(parse, fields, ok)
    ensures parse(s).Ok? <==> exists v: T, rest: seq<byte> :: ok(v) && s == PutAll(fields(v), rest)
  {
    if parse(s).Ok? {
      var v, rest := parse(s).value, parse(s).rest;
      assert ok(v) && s == PutAll(fields(v), rest);
    }
  }

  /** No two encodings begin alike: a value has one encoding and none is a prefix of another's. */
  lemma PrefixFree<T(!new)>(parse: Parser<T>, fields: T -> seq<Field>, ok: T -> bool,
                            v: T, r: seq<byte>, w: T, t: seq<byte>)
    requires Inverse(parse, fields, ok)
    requires ok(v) && ok(w) && PutAll(fields(v), r) == PutAll(fields(w), t)
    ensures v == w && r == t
  {
    assert parse(PutAll(fields(v), r)) == Ok(v, r);
    assert parse(PutAll(fields(w), t)) == Ok(w, t);
  }

  /** A successful parse depends only on the bytes it consumed: more bytes after them, or none,
      change neither the value nor how many are consumed. */
  lemma Local<T(!new)>(parse: Parser<T>, fields: T -> seq<Field>, ok: T -> bool, s: seq<byte>, extra: seq<byte>)
    requires Inverse(parse, fields, ok) && parse(s).Ok?
    ensures var p := parse(s);
            && |p.rest| <= |s|
            && parse(s + extra) == Ok(p.value, p.rest + extra)
            && parse(s[..|s| - |p.rest|]) == Ok(p.value, [])
  {
    var p := parse(s);
    var encoded := PutAll(fields(p.value), []);
    SizeOfPut(fields(p.value), p.rest);
    assert s[..|s| - |p.rest|] == encoded;
    SizeOfPut(fields(p.value), p.rest + extra);
    assert s + extra == encoded + (p.rest + extra);
  }

  /** A value is read from some bytes exactly if it is well formed and they start with its encoding. */
  lemma ReadsPrefix<T(!new)>(parse: Parser<T>, fields: T -> seq<Field>, ok: T -> bool, s: seq<byte>, v: T)
    requires Inverse(parse, fields, ok)
    ensures parse(s).Ok? && parse(s).value == v <==> ok(v) && PutAll(fields(v), []) <= s
  {
    if parse(s).Ok? {
      SizeOfPut(fields(parse(s).value), parse(s).rest);
    }
    var encoded := PutAll(fields(v), []);
    if ok(v) && encoded <= s {
      SizeOfPut(fields(v), s[|encoded|..]);
      assert s == PutAll(fields(v), s[|encoded|..]);
    }
  }

  // ----- Arrays of elements

  function ManyFields<T>(items: seq<T>, fields: T -> seq<Field>): seq<Field> {
    if items == [] then [] else ManyFields(items[..|items| - 1], fields) + fields(items[|items| - 1])
  }

  /** The first `n` elements, as an unmarshalling loop reads them. */
  function ParseMany<T>(s: seq<byte>, parse: Parser<T>, n: nat): Parsed<seq<T>>
    decreases n
  {
    if n == 0 then Ok([], s)
    else
      var (front, s1) :- ParseMany(s, parse, n - 1);
      var (x, s2) :- parse(s1);
      Ok(front + [x], s2)
  }

  lemma {:induction false} ManySound<T(!new)>(s: seq<byte>, parse: Parser<T>, fields: T -> seq<Field>,
                                              ok: T -> bool, n: nat)
    requires Inverse(parse, fields, ok)
    ensures var p := ParseMany(s, parse, n);
            && (p.Ok? ==> |p.value| == n && (forall i :: 0 <= i < n ==> ok(p.value[i])))
            && (p.Ok? ==> s == PutAll(ManyFields(p.value, fields), p.rest))
            && (p.Err? ==> p.code != TPM_RC_SUCCESS)
  {
    var p := ParseMany(s, parse, n);
    if n != 0 {
      ManySound(s, parse, fields, ok, n - 1);
      if p.Ok? {
        var front, x := p.value[..n - 1], p.value[n - 1];
        assert ParseMany(s, parse, n - 1).value == front;
        Put2(ManyFields(front, fields), fields(x), p.rest);
      }
    }
  }

  lemma {:induction false} ManyRoundTrip<T(!new)>(items: seq<T>, parse: Parser<T>, fields: T -> seq<Field>,
                                                  ok: T -> bool, rest: seq<byte>)
    requires Inverse(parse, fields, ok) && forall i :: 0 <= i < |items| ==> ok(items[i])
    ensures ParseMany(PutAll(ManyFields(items, fields), rest), parse, |items|) == Ok(items, rest)
    decreases |items|
  {
    if items != [] {
      var front, x := items[..|items| - 1], items[|items| - 1];
      Put2(ManyFields(front, fields), fields(x), rest);
      ManyRoundTrip(front, parse, fields, ok, PutAll(fields(x), rest));
      assert front + [x] == items;
    }
  }

  /** One turn of an unmarshalling loop. */
  lemma ManyNext<T>(s: seq<byte>, parse: Parser<T>, i: nat, front: seq<T>, rest: seq<byte>)
    requires ParseMany(s, parse, i) == Ok(front, rest)
    ensures ParseMany(s, parse, i + 1) == match parse(rest)
                                          case Ok(x, r) => Ok(front + [x], r)
                                          case Err(code) => Err(code)
  {
  }

  /** A failing element fails every longer array with the same code. */
  lemma {:induction false} ManyFailsEarly<T>(s: seq<byte>, parse: Parser<T>, k: nat, n: nat)
    requires k <= n && ParseMany(s, parse, k).Err?
    ensures ParseMany(s, parse, n) == ParseMany(s, parse, k)
  {
    if k < n {
      ManyFailsEarly(s, parse, k, n - 1);
    }
  }

  /** An array fails only with a code of its elements. */
  lemma {:induction false} ManyErrors<T>(s: seq<byte>, parse: Parser<T>, n: nat, code: uint32)
    requires forall t: seq<byte> {:trigger parse(t)} :: parse(t).Err? ==> parse(t).code != code
    ensures ParseMany(s, parse, n).Err? ==> ParseMany(s, parse, n).code != code
  {
    if n != 0 {
      ManyErrors(s, parse, n - 1, code);
    }
  }

  lemma {:induction false} ManySize<T>(items: seq<T>, fields: T -> seq<Field>, max: nat)
    requires forall i :: 0 <= i < |items| ==> Size(fields(items[i])) <= max
    ensures Size(ManyFields(items, fields)) <= |items| * max
    decreases |items|
  {
    if items != [] {
      var front, x := items[..|items| - 1], items[|items| - 1];
      SizeAppend(ManyFields(front, fields), fields(x));
      ManySize(front, fields, max);
      OneMore(|front|, max);
    }
  }

  lemma OneMore(n: nat, max: nat)
    ensures (n + 1) * max == n * max + max
  {
  }

  lemma {:induction false} ManyPrefix<T>(items: seq<T>, fields: T -> seq<Field>, k: nat)
    requires k <= |items|
    ensures Size(ManyFields(items[..k], fields)) <= Size(ManyFields(items, fields))
    decreases |items|
  {
    if k == |items| {
      assert items[..k] == items;
    } else {
      var front := items[..|items| - 1];
      assert front[..k] == items[..k];
      ManyPrefix(front, fields, k);
      SizeAppend(ManyFields(front, fields), fields(items[|items| - 1]));
    }
  }

  /** One turn of a marshalling loop: element `i` follows the elements before it. */
  lemma MarshalTurn<T>(o: Out, items: seq<T>, fields: T -> seq<Field>, i: nat)
    requires i < |items| && Room(o, Size(ManyFields(items, fields)))
    ensures var done, next := ManyFields(items[..i], fields), fields(items[i]);
            && ManyFields(items[..i + 1], fields) == done + next
            && Room(EmitAll(o, done), Size(next))
            && EmitAll(o, done + next) == EmitAll(EmitAll(o, done), next)
            && Add16(Low16(Size(done)), Low16(Size(next))) == Low16(Size(done + next))
  {
    assert items[..i + 1][..i] == items[..i];
    ManyPrefix(items, fields, i + 1);
    var done, next := ManyFields(items[..i], fields), fields(items[i]);
    assert Room(o, Size(done + next)) by {
      RoomShrinks(o, Size(done + next), Size(ManyFields(items, fields)));
    }
    Emit2(o, done, next);
    Low16Adds(Size(done), Size(next));
  }

  lemma RoomShrinks(o: Out, m: nat, n: nat)
    requires m <= n && Room(o, n)
    ensures Room(o, m)
  {
  }
}
