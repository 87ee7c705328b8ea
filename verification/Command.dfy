/** TSS_BuildCommand: a command is marshalled front to back, with its two length fields patched in
    once they are known; and a reference parser that reads such a command. */
module Command {
  import opened Bytes
  import opened Wire
  import opened Blobs
  import opened Codec
  import opened Auth
  import opened Grammar
  import opened ListGrammar

  const TPM_ST_NO_SESSIONS: uint16 := 0x8001
  const TPM_ST_SESSIONS: uint16 := 0x8002
  const STD_RESPONSE_HEADER := 10
  const CC_FIRST: uint32 := 0x11F
  const CC_LAST: uint32 := 0x193
  const TPM_RC_BAD_TAG: uint32 := 0x1E
  const TPM_RC_COMMAND_SIZE: uint32 := 0x142
  const TPM_RC_AUTHSIZE: uint32 := 0x144

  datatype CommandData = CommandData(tag: uint16, code: uint32, handles: seq<uint32>, sessions: seq<AuthCommand>,
                                     params: seq<byte>)

  // ----- The layout

  function HandleFields(h: uint32): seq<Field> {
    [BE(4, h)]
  }

  function PrefixFields(c: CommandData): seq<Field> {
    [BE(4, c.code)] + ManyFields(c.handles, HandleFields)
  }

  function AuthAreaFields(c: CommandData, authSize: nat): seq<Field> {
    if c.sessions == [] then [] else [BE(4, authSize)] + ManyFields(c.sessions, AuthFields)
  }

  function ParamsFields(c: CommandData): seq<Field> {
    if c.params == [] then [] else [c.params]
  }

  /** The fields with given contents of the two length fields. */
  function Layout(c: CommandData, cmdSize: nat, authSize: nat): seq<Field> {
    [BE(2, c.tag)] + [BE(4, cmdSize)] + PrefixFields(c) + AuthAreaFields(c, authSize) + ParamsFields(c)
  }

  function AuthSizeOf(c: CommandData): nat {
    Size(ManyFields(c.sessions, AuthFields))
  }

  /** What the command says its size is: the parameters are counted as a UINT16. */
  function ClaimedSize(c: CommandData): nat {
    10 + 4 * |c.handles| + (if c.sessions == [] then 0 else 4 + AuthSizeOf(c)) + Low16(|c.params|)
  }

  function CommandFields(c: CommandData): seq<Field> {
    Layout(c, ClaimedSize(c), AuthSizeOf(c))
  }

  function CommandBytes(c: CommandData): seq<byte> {
    PutAll(CommandFields(c), [])
  }

  lemma {:induction false} HandlesSize(hs: seq<uint32>)
    ensures Size(ManyFields(hs, HandleFields)) == 4 * |hs|
    decreases |hs|
  {
    if hs != [] {
      var front, h := hs[..|hs| - 1], hs[|hs| - 1];
      HandlesSize(front);
      SizeAppend(ManyFields(front, HandleFields), HandleFields(h));
      EmitOne(NoBuffer, BE(4, h));
    }
  }

  lemma LayoutSize(c: CommandData, cmdSize: nat, authSize: nat)
    ensures Size(Layout(c, cmdSize, authSize))
            == 10 + 4 * |c.handles| + (if c.sessions == [] then 0 else 4 + AuthSizeOf(c)) + |c.params|
  {
    HandlesSize(c.handles);
    SplitSize();
  }

  /** The size a command claims is its real size exactly when its parameters fit a UINT16: it counts them
      modulo 65536. */
  lemma ClaimIsTrue(c: CommandData)
    ensures ClaimedSize(c) == |CommandBytes(c)| <==> |c.params| < 0x1_0000
    ensures ClaimedSize(c) == |CommandBytes(c)| - |c.params| + |c.params| % 0x1_0000
  {
    LayoutSize(c, ClaimedSize(c), AuthSizeOf(c));
    SizeOfPut(CommandFields(c), []);
    Low16IsModulo(|c.params|);
  }

  // ----- The layout in numbers

  function WordsBytes(xs: seq<uint32>): seq<byte> {
    if xs == [] then [] else BE(4, xs[0]) + WordsBytes(xs[1..])
  }

  function SessionsBytes(sessions: seq<AuthCommand>): seq<byte> {
    if sessions == [] then [] else AuthBytes(sessions[0]) + SessionsBytes(sessions[1..])
  }

  function AreaBytes(sessions: seq<AuthCommand>): seq<byte> {
    if sessions == [] then [] else BE(4, |SessionsBytes(sessions)|) + SessionsBytes(sessions)
  }

  lemma {:induction false} WordsInBytes(xs: seq<uint32>)
    ensures Printed(ManyFields(xs, HandleFields)) == WordsBytes(xs)
    decreases |xs|
  {
    if xs != [] {
      ManyCons(xs[0], xs[1..], HandleFields);
      assert [xs[0]] + xs[1..] == xs;
      PrintAppend(HandleFields(xs[0]), ManyFields(xs[1..], HandleFields));
      PrintOne(BE(4, xs[0]));
      WordsInBytes(xs[1..]);
    }
  }

  lemma {:induction false} SessionsInBytes(sessions: seq<AuthCommand>)
    ensures Printed(ManyFields(sessions, AuthFields)) == SessionsBytes(sessions)
    ensures Size(ManyFields(sessions, AuthFields)) == |SessionsBytes(sessions)|
    decreases |sessions|
  {
    SizeOfPut(ManyFields(sessions, AuthFields), []);
    if sessions != [] {
      ManyCons(sessions[0], sessions[1..], AuthFields);
      assert [sessions[0]] + sessions[1..] == sessions;
      PrintAppend(AuthFields(sessions[0]), ManyFields(sessions[1..], AuthFields));
      AuthInBytes(sessions[0]);
      SessionsInBytes(sessions[1..]);
    }
  }

  lemma AreaInBytes(c: CommandData)
    ensures Printed(AuthAreaFields(c, AuthSizeOf(c))) == AreaBytes(c.sessions)
    ensures |AreaBytes(c.sessions)| == if c.sessions == [] then 0 else 4 + AuthSizeOf(c)
  {
    SessionsInBytes(c.sessions);
    PrintOne(BE(4, AuthSizeOf(c)));
    if c.sessions != [] {
      PrintAppend([BE(4, AuthSizeOf(c))], ManyFields(c.sessions, AuthFields));
    }
  }

  /** A command is exactly these bytes; its size field counts the parameters modulo 65536. */
  lemma CommandInBytes(c: CommandData)
    ensures ClaimedSize(c) == 10 + 4 * |c.handles| + |AreaBytes(c.sessions)| + |c.params| % 0x1_0000
    ensures CommandBytes(c)
            == BE(2, c.tag) + (BE(4, ClaimedSize(c)) + (BE(4, c.code)
               + (WordsBytes(c.handles) + (AreaBytes(c.sessions) + c.params))))
  {
    AreaInBytes(c);
    WordsInBytes(c.handles);
    Low16IsModulo(|c.params|);
    PutLayout(c);
    SizeOfPut(AuthAreaFields(c, AuthSizeOf(c)), c.params);
    SizeOfPut(ManyFields(c.handles, HandleFields), AreaBytes(c.sessions) + c.params);
  }

  // ----- Patching

  lemma OverwritesCommute(mem: seq<byte>, at: nat, g: Field, pos: nat, f: Field)
    requires at + |g| <= pos && pos + |f| <= |mem|
    ensures Overwrite(Overwrite(mem, at, g), pos, f) == Overwrite(Overwrite(mem, pos, f), at, g)
  {
  }

  /** Overwriting memory behind the position commutes with any later emission. */
  lemma {:induction false} PatchCommutes(mem: seq<byte>, pos: nat, left: int, fields: seq<Field>, at: nat, g: Field)
    requires at + |g| <= pos <= |mem|
    requires left >= 0 ==> pos + left <= |mem|
    ensures var e := EmitAll(Buffer(mem, pos, Some(left)), fields);
            && e.Buffer?
            && EmitAll(Buffer(Overwrite(mem, at, g), pos, Some(left)), fields)
               == Buffer(Overwrite(e.mem, at, g), e.pos, e.left)
    decreases fields
  {
    if fields != [] {
      var f := fields[0];
      if left - |f| >= 0 {
        OverwritesCommute(mem, at, g, pos, f);
        assert Emit(Buffer(Overwrite(mem, at, g), pos, Some(left)), f)
            == Buffer(Overwrite(Overwrite(mem, pos, f), at, g), pos + |f|, Some(left - |f|));
        PatchCommutes(Overwrite(mem, pos, f), pos + |f|, left - |f|, fields[1..], at, g);
      } else {
        PatchCommutes(mem, pos, left - |f|, fields[1..], at, g);
      }
    }
  }

  lemma EmitMiddle(mem: seq<byte>, left: nat, a: seq<Field>, f: Field, b: seq<Field>)
    requires Size(a) + |f| <= left <= |mem|
    ensures EmitAll(Buffer(mem, 0, Some(left)), a + [f] + b)
            == EmitAll(Buffer(Overwrite(Overwrite(mem, 0, PutAll(a, [])), Size(a), f), Size(a) + |f|,
                              Some(left - Size(a) - |f|)), b)
  {
    var o := Buffer(mem, 0, Some(left));
    EmitAllAppend(o, a + [f], b);
    EmitAllAppend(o, a, [f]);
    EmitsAll(mem, 0, left, a);
    EmitOne(EmitAll(o, a), f);
  }

  lemma OverwriteAgain(mem: seq<byte>, at: nat, f: Field, g: Field)
    requires |f| == |g|
    ensures Overwrite(Overwrite(mem, at, f), at, g) == Overwrite(mem, at, g)
  {
  }

  /** Patching a field that was written in full gives the emission of the patched fields. */
  lemma PatchField(mem: seq<byte>, left: nat, a: seq<Field>, f: Field, g: Field, b: seq<Field>)
    requires Size(a) + |f| <= left <= |mem| && |f| == |g|
    ensures var e := EmitAll(Buffer(mem, 0, Some(left)), a + [f] + b);
            && e.Buffer?
            && EmitAll(Buffer(mem, 0, Some(left)), a + [g] + b)
               == Buffer(Overwrite(e.mem, Size(a), g), e.pos, e.left)
  {
    var m := Overwrite(mem, 0, PutAll(a, []));
    EmitMiddle(mem, left, a, f, b);
    EmitMiddle(mem, left, a, g, b);
    OverwriteAgain(m, Size(a), f, g);
    PatchCommutes(Overwrite(m, Size(a), f), Size(a) + |f|, left - Size(a) - |f|, b, Size(a), g);
  }

  // ----- A capacity that does not reach the size of the authorization area

  function HeadFields(c: CommandData): seq<Field> {
    [BE(2, c.tag)] + [BE(4, 2)] + PrefixFields(c)
  }

  /** Whether the placeholder of that size does not fit. It is patched all the same, since patching
      charges no budget. */
  predicate Short(c: CommandData, capacity: nat) {
    c.sessions != [] && 14 + 4 * |c.handles| > capacity
  }

  /** Where the placeholder is taken to be: after the leading fields that fit. */
  function AuthPlace(c: CommandData, capacity: nat): nat {
    Size(HeadFields(c)[..Fitting(HeadFields(c), capacity)])
  }

  /** What the patch does beside the placeholder. */
  function Stray(o: Out, c: CommandData, capacity: nat): Out {
    if Short(c, capacity) && o.Buffer? then
      o.(mem := Overwrite(o.mem, AuthPlace(c, capacity), BE(4, AuthSizeOf(c))))
    else o
  }

  lemma {:induction false} ChargeIsTotal(o: Out, fields: seq<Field>)
    requires o.Buffer? && o.left.Some?
    ensures var e := EmitAll(o, fields); e.Buffer? && e.left == Some(o.left.value - Size(fields))
    decreases fields
  {
    if fields != [] {
      ChargeIsTotal(Emit(o, fields[0]), fields[1..]);
    }
  }

  /** Where marshalling the head ends, whether or not all of it fits. */
  lemma HeadEnds(c: CommandData, mem: seq<byte>, capacity: nat)
    requires STD_RESPONSE_HEADER <= capacity <= |mem|
    ensures var e := EmitAll(Buffer(mem, 0, Some(capacity)), HeadFields(c));
            && e.Buffer? && e.pos == AuthPlace(c, capacity) && e.left == Some(capacity - 10 - 4 * |c.handles|)
            && |e.mem| == |mem|
  {
    var head := HeadFields(c);
    StickyOverflow(mem, 0, capacity, head);
    SizeOfPut(head[..Fitting(head, capacity)], []);
    HeadSize(c);
  }

  /** Nothing is written once a field of four bytes did not fit. */
  lemma NothingMoreFits(o: Out, f: Field, more: seq<Field>)
    requires o.Buffer? && o.left.Some? && o.left.value < |f|
    ensures EmitAll(o, [f] + more) == o.(left := Some(o.left.value - |f| - Size(more)))
  {
    assert EmitAll(o, [f] + more) == EmitAll(Emit(o, f), more) by {
      EmitAllAppend(o, [f], more);
      EmitOne(o, f);
    }
    OverdrawnIsSticky(Emit(o, f), more);
  }

  /** The tag and the total size always fit. */
  lemma HeaderFits(c: CommandData, capacity: nat)
    requires STD_RESPONSE_HEADER <= capacity
    ensures Fitting(HeadFields(c), capacity) >= 2
  {
    var head := HeadFields(c);
    LaterFieldsAreWords(c);
    assert head[1..][0] == head[1];
  }

  /** The placeholder is at least six bytes into the buffer and then reaches over the capacity, by at
      most four bytes. */
  lemma StrayIsOutside(c: CommandData, capacity: nat)
    requires STD_RESPONSE_HEADER <= capacity && Short(c, capacity)
    ensures 6 <= AuthPlace(c, capacity) <= capacity < AuthPlace(c, capacity) + 4
  {
    var head := HeadFields(c);
    var k := Fitting(head, capacity);
    FittingIsMaximal(head, capacity);
    HeaderFits(c, capacity);
    HeadSize(c);
    LaterFieldsAreWords(c);
    assert head[..|head|] == head;
    if k < |head| {
      assert |head[k]| <= 4;
    }
    PrefixSize(head[..k], 2);
    assert head[..k][..2] == [BE(2, c.tag)] + [BE(4, 2)];
    SplitSize();
  }

  lemma {:induction false} HandleWords(hs: seq<uint32>)
    ensures forall f :: f in ManyFields(hs, HandleFields) ==> |f| == 4
    decreases |hs|
  {
    if hs != [] {
      HandleWords(hs[..|hs| - 1]);
    }
  }

  lemma LaterFieldsAreWords(c: CommandData)
    ensures |HeadFields(c)| >= 2 && |HeadFields(c)[0]| == 2 && |HeadFields(c)[1]| == 4
    ensures forall i :: 0 <= i < |HeadFields(c)| ==> |HeadFields(c)[i]| <= 4
  {
    HandleWords(c.handles);
  }

  // ----- Building

  /** A budget that stays inside memory leaves room for anything. */
  predicate Budgeted(o: Out) {
    o.Buffer? && o.left.Some? && (o.left.value >= 0 ==> o.pos + o.left.value <= |o.mem|)
  }

  lemma {:induction false} StaysBudgeted(o: Out, fields: seq<Field>)
    requires Budgeted(o)
    ensures Budgeted(EmitAll(o, fields)) && |EmitAll(o, fields).mem| == |o.mem|
    decreases fields
  {
    if fields != [] {
      StaysBudgeted(Emit(o, fields[0]), fields[1..]);
    }
  }

  method MarshalHandles(handles: array<uint32>, n: nat, buffer: Cursor, size: Budget) returns (total: nat)
    requires n <= handles.Length && Budgeted(View(buffer, size))
    modifies Frame(buffer, size)
    ensures View(buffer, size) == EmitAll(old(View(buffer, size)), ManyFields(handles[..n], HandleFields))
    ensures total == 4 * n
  {
    total := 0;
    ghost var hs := handles[..n];
    for i := 0 to n
      invariant total == 4 * i
      invariant View(buffer, size) == EmitAll(old(View(buffer, size)), ManyFields(hs[..i], HandleFields))
    {
      MarshalTurn(old(View(buffer, size)), hs, HandleFields, i);
      StaysBudgeted(old(View(buffer, size)), ManyFields(hs[..i], HandleFields));
      var c := MarshalUint32(handles[i], buffer, size);
      total := total + c;
    }
    assert hs[..n] == hs;
  }

  method MarshalSessions(sessions: array<AuthCommand>, n: nat, buffer: Cursor, size: Budget) returns (authSize: nat)
    requires n <= sessions.Length && forall i :: 0 <= i < n ==> AuthSized(sessions[i])
    requires Budgeted(View(buffer, size))
    modifies Frame(buffer, size)
    ensures View(buffer, size) == EmitAll(old(View(buffer, size)), ManyFields(sessions[..n], AuthFields))
    ensures authSize == Size(ManyFields(sessions[..n], AuthFields))
  {
    authSize := 0;
    ghost var ss := sessions[..n];
    for i := 0 to n
      invariant authSize == Size(ManyFields(ss[..i], AuthFields))
      invariant View(buffer, size) == EmitAll(old(View(buffer, size)), ManyFields(ss[..i], AuthFields))
    {
      MarshalTurn(old(View(buffer, size)), ss, AuthFields, i);
      StaysBudgeted(old(View(buffer, size)), ManyFields(ss[..i], AuthFields));
      var c := MarshalAuth(sessions[i], buffer, size);
      AuthSize(ss[i]);
      SizeAppend(ManyFields(ss[..i], AuthFields), AuthFields(ss[i]));
      authSize := authSize + c;
    }
    assert ss[..n] == ss;
  }

  /** Writes a size into the place remembered for it, without charging a budget. */
  method PatchAt(value: uint32, field: Cursor, buffer: Cursor, size: Budget)
    requires field != buffer && field.data == buffer.data && field.pos + 4 <= buffer.data.Length
    modifies field, buffer.data
    ensures var o := old(View(buffer, size));
            o.Buffer? && View(buffer, size) == o.(mem := Overwrite(o.mem, old(field.pos), BE(4, value)))
  {
    EmitOne(View(field, null), BE(4, value));
    var _ := MarshalUint32(value, field, null);
  }

  lemma PatchLayout(mem: seq<byte>, capacity: nat, c: CommandData, value: uint32)
    requires STD_RESPONSE_HEADER <= capacity <= |mem|
    ensures var o := Buffer(mem, 0, Some(capacity));
            var e := EmitAll(o, Layout(c, 2, AuthSizeOf(c)));
            && e.Buffer? && |e.mem| == |mem|
            && EmitAll(o, Layout(c, value, AuthSizeOf(c))) == e.(mem := Overwrite(e.mem, 2, BE(4, value)))
  {
    EmitOne(NoBuffer, BE(2, c.tag));
    SplitLayout(c, 2);
    SplitLayout(c, value);
    PatchField(mem, capacity, [BE(2, c.tag)], BE(4, 2), BE(4, value), AfterSize(c));
    StaysBudgeted(Buffer(mem, 0, Some(capacity)), Layout(c, 2, AuthSizeOf(c)));
  }

  /** Patching the total size, last of all, commutes with a stray patch. */
  lemma SizePatched(mem: seq<byte>, capacity: nat, c: CommandData, value: uint32)
    requires STD_RESPONSE_HEADER <= capacity <= |mem|
    requires Short(c, capacity) ==> AuthPlace(c, capacity) + 4 <= |mem|
    ensures var o := Buffer(mem, 0, Some(capacity));
            var e := Stray(EmitAll(o, Layout(c, 2, AuthSizeOf(c))), c, capacity);
            && e.Buffer?
            && Stray(EmitAll(o, Layout(c, value, AuthSizeOf(c))), c, capacity)
               == e.(mem := Overwrite(e.mem, 2, BE(4, value)))
  {
    PatchLayout(mem, capacity, c, value);
    if Short(c, capacity) {
      var e := EmitAll(Buffer(mem, 0, Some(capacity)), Layout(c, 2, AuthSizeOf(c)));
      StrayIsOutside(c, capacity);
      OverwritesCommute(e.mem, 2, BE(4, value), AuthPlace(c, capacity), BE(4, AuthSizeOf(c)));
    }
  }

  /** The fields up to and with the authorization area. */
  function ThroughArea(c: CommandData, authSize: nat): seq<Field> {
    HeadFields(c) + AuthAreaFields(c, authSize)
  }

  /** The authorization area without its size: a placeholder, then the sessions. */
  method MarshalUnsizedArea(sessions: array<AuthCommand>, n: nat, buffer: Cursor, size: Budget)
    returns (authSize: nat, pAuthSize: Cursor)
    requires n <= sessions.Length && forall i :: 0 <= i < n ==> AuthSized(sessions[i])
    requires Budgeted(View(buffer, size))
    modifies Frame(buffer, size)
    ensures fresh(pAuthSize) && pAuthSize.data == buffer.data && pAuthSize.pos == old(buffer.pos)
    ensures authSize == Size(ManyFields(sessions[..n], AuthFields))
    ensures View(buffer, size) == EmitAll(old(View(buffer, size)), [BE(4, 0)] + ManyFields(sessions[..n], AuthFields))
  {
    ghost var o := View(buffer, size);
    pAuthSize := new Cursor(buffer.data, buffer.pos);
    var _ := MarshalUint32(0, buffer, size);
    EmitOne(o, BE(4, 0));
    StaysBudgeted(o, [BE(4, 0)]);
    EmitAllAppend(o, [BE(4, 0)], ManyFields(sessions[..n], AuthFields));
    authSize := MarshalSessions(sessions, n, buffer, size);
  }

  /** The authorization area, with its size patched in where the area was to start. */
  method MarshalAuthArea(sessions: array<AuthCommand>, n: nat, buffer: Cursor, size: Budget) returns (authSize: nat)
    requires n <= sessions.Length && forall i :: 0 <= i < n ==> AuthSized(sessions[i])
    requires Size(ManyFields(sessions[..n], AuthFields)) < 0x1_0000_0000
    requires Budgeted(View(buffer, size)) && buffer.pos + 4 <= buffer.data.Length
    modifies Frame(buffer, size)
    ensures authSize == Size(ManyFields(sessions[..n], AuthFields))
    ensures var e := EmitAll(old(View(buffer, size)), [BE(4, 0)] + ManyFields(sessions[..n], AuthFields));
            && e.Buffer?
            && View(buffer, size) == e.(mem := Overwrite(e.mem, old(buffer.pos), BE(4, authSize)))
  {
    var pAuthSize: Cursor;
    authSize, pAuthSize := MarshalUnsizedArea(sessions, n, buffer, size);
    PatchAt(authSize, pAuthSize, buffer, size);
  }

  /** A placeholder that does not fit is not written, whatever its contents. */
  lemma ShortArea(mem: seq<byte>, capacity: nat, c: CommandData, f: Field, more: seq<Field>)
    requires STD_RESPONSE_HEADER <= capacity <= |mem| && Short(c, capacity) && |f| == 4
    ensures var o := Buffer(mem, 0, Some(capacity));
            EmitAll(EmitAll(o, HeadFields(c)), [BE(4, 0)] + more) == EmitAll(o, HeadFields(c) + [f] + more)
  {
    var o, head := Buffer(mem, 0, Some(capacity)), HeadFields(c);
    HeadEnds(c, mem, capacity);
    EmitAllAppend(o, head, [f] + more);
    assert head + [f] + more == head + ([f] + more);
    NothingMoreFits(EmitAll(o, head), f, more);
    NothingMoreFits(EmitAll(o, head), BE(4, 0), more);
  }

  /** A placeholder that fits is at its place and is patched there. */
  lemma WholeArea(mem: seq<byte>, capacity: nat, c: CommandData, f: Field, more: seq<Field>)
    requires STD_RESPONSE_HEADER <= capacity <= |mem| && 14 + 4 * |c.handles| <= capacity && |f| == 4
    ensures var o := Buffer(mem, 0, Some(capacity));
            var e := EmitAll(EmitAll(o, HeadFields(c)), [BE(4, 0)] + more);
            && e.Buffer?
            && EmitAll(o, HeadFields(c) + [f] + more) == e.(mem := Overwrite(e.mem, AuthPlace(c, capacity), f))
  {
    var o, head := Buffer(mem, 0, Some(capacity)), HeadFields(c);
    HeadSize(c);
    AllFit(head, capacity);
    assert head[..|head|] == head;
    EmitAllAppend(o, head, [BE(4, 0)] + more);
    assert head + [BE(4, 0)] + more == head + ([BE(4, 0)] + more);
    PatchField(mem, capacity, head, BE(4, 0), f, more);
  }

  /** What marshalling the authorization area does: its fields with a placeholder for the size, and the
      size written where the area was to start. */
  ghost function AreaEffect(o: Out, c: CommandData): Out {
    if c.sessions == [] then o
    else
      var e := EmitAll(o, [BE(4, 0)] + ManyFields(c.sessions, AuthFields));
      if o.Buffer? && e.Buffer? then e.(mem := Overwrite(e.mem, o.pos, BE(4, AuthSizeOf(c)))) else e
  }

  /** That gives the area with its size in front, although the size was written last; and the stray write
      if the placeholder did not fit. */
  lemma AreaPatched(mem: seq<byte>, capacity: nat, c: CommandData)
    requires STD_RESPONSE_HEADER <= capacity <= |mem|
    ensures var o := Buffer(mem, 0, Some(capacity));
            AreaEffect(EmitAll(o, HeadFields(c)), c)
            == Stray(EmitAll(o, ThroughArea(c, AuthSizeOf(c))), c, capacity)
  {
    var o, f := Buffer(mem, 0, Some(capacity)), BE(4, AuthSizeOf(c));
    var auths := ManyFields(c.sessions, AuthFields);
    HeadEnds(c, mem, capacity);
    StaysBudgeted(o, HeadFields(c));
    if c.sessions == [] {
      assert ThroughArea(c, AuthSizeOf(c)) == HeadFields(c);
    } else {
      assert ThroughArea(c, AuthSizeOf(c)) == HeadFields(c) + [f] + auths;
      StaysBudgeted(EmitAll(o, HeadFields(c)), [BE(4, 0)] + auths);
      if Short(c, capacity) {
        ShortArea(mem, capacity, c, f, auths);
      } else {
        WholeArea(mem, capacity, c, f, auths);
      }
    }
  }

  /** The head leaves room for whatever comes next, and memory for the size of the area. */
  lemma HeadLeaves(mem: seq<byte>, capacity: nat, c: CommandData)
    requires STD_RESPONSE_HEADER <= capacity <= |mem|
    requires Short(c, capacity) ==> AuthPlace(c, capacity) + 4 <= |mem|
    ensures var e := EmitAll(Buffer(mem, 0, Some(capacity)), HeadFields(c));
            Budgeted(e) && (c.sessions != [] ==> e.pos + 4 <= |e.mem|)
  {
    HeadEnds(c, mem, capacity);
    StaysBudgeted(Buffer(mem, 0, Some(capacity)), HeadFields(c));
    if c.sessions != [] && !Short(c, capacity) {
      HeadSize(c);
      AllFit(HeadFields(c), capacity);
      assert HeadFields(c)[..|HeadFields(c)|] == HeadFields(c);
    }
  }

  /** The tag, then a placeholder for the total size, which is remembered. */
  method MarshalHeader(tag: uint16, buffer: Cursor, size: Budget) returns (cmdSize: nat, pCmdSize: Cursor)
    requires Budgeted(View(buffer, size)) && buffer.pos == 0 && size.left >= STD_RESPONSE_HEADER
    modifies Frame(buffer, size)
    ensures pCmdSize.data == buffer.data && pCmdSize.pos == 2 && fresh(pCmdSize)
    ensures cmdSize == 6
    ensures View(buffer, size) == EmitAll(old(View(buffer, size)), [BE(2, tag)] + [BE(4, 2)])
  {
    ghost var o := View(buffer, size);
    EmitOne(o, BE(2, tag));
    EmitAllAppend(o, [BE(2, tag)], [BE(4, 2)]);
    var n := MarshalUint16(tag, buffer, size);
    cmdSize := n;
    pCmdSize := new Cursor(buffer.data, buffer.pos);
    n := MarshalUint32(cmdSize, buffer, size);
    cmdSize := cmdSize + n;
  }

  method MarshalPrefix(tag: uint16, code: uint32, handles: array?<uint32>, numHandles: int, buffer: Cursor,
                       size: Budget, ghost c: CommandData)
    returns (cmdSize: nat, pCmdSize: Cursor)
    requires numHandles > 0 ==> handles != null && numHandles <= handles.Length
    requires c.tag == tag && c.code == code
    requires c.handles == if numHandles > 0 then handles[..numHandles] else []
    requires Budgeted(View(buffer, size)) && buffer.pos == 0 && size.left >= STD_RESPONSE_HEADER
    modifies Frame(buffer, size)
    ensures pCmdSize.data == buffer.data && pCmdSize.pos == 2 && fresh(pCmdSize)
    ensures cmdSize == 10 + 4 * |c.handles|
    ensures View(buffer, size) == EmitAll(old(View(buffer, size)), HeadFields(c))
  {
    ghost var o, header := View(buffer, size), [BE(2, tag)] + [BE(4, 2)];
    EmitAllAppend(o, header, PrefixFields(c));
    StaysBudgeted(o, header);
    cmdSize, pCmdSize := MarshalHeader(tag, buffer, size);
    ghost var o1 := View(buffer, size);
    EmitAllAppend(o1, [BE(4, code)], ManyFields(c.handles, HandleFields));
    StaysBudgeted(o1, [BE(4, code)]);
    EmitOne(o1, BE(4, code));
    var n := MarshalUint32(code, buffer, size);
    cmdSize := cmdSize + n;
    if numHandles > 0 {
      var total := MarshalHandles(handles, numHandles, buffer, size);
      cmdSize := cmdSize + total;
    }
  }

  ghost predicate Rejected(cmdCode: uint32, handles: array?<uint32>, numHandles: int, sessions: array?<AuthCommand>,
                           numSessions: int, params: array?<byte>, paramsSize: int, cmdBuffer: array?<byte>,
                           bufCapacity: int)
  {
    || cmdCode < CC_FIRST || cmdCode > CC_LAST
    || (handles == null && numHandles != 0)
    || (sessions == null && numSessions != 0)
    || (params == null && paramsSize != 0)
    || bufCapacity < 0
    || cmdBuffer == null || bufCapacity < STD_RESPONSE_HEADER
  }

  /** The command that the arguments describe. */
  ghost function Described(cmdCode: uint32, handles: array?<uint32>, numHandles: int, sessions: array?<AuthCommand>,
                           numSessions: int, params: array?<byte>, paramsSize: int): CommandData
    requires handles != null ==> numHandles <= handles.Length
    requires sessions != null ==> numSessions <= sessions.Length
    requires params != null ==> 0 <= paramsSize <= params.Length
    reads if handles == null then {} else {handles}, if sessions == null then {} else {sessions},
          if params == null then {} else {params}
  {
    CommandData(if sessions != null then TPM_ST_SESSIONS else TPM_ST_NO_SESSIONS, cmdCode,
                if handles != null && numHandles > 0 then handles[..numHandles] else [],
                if sessions != null && numSessions > 0 then sessions[..numSessions] else [],
                if params != null then params[..paramsSize] else [])
  }

  /** The bytes of a command of `size` bytes, from its arguments: the tag by the sessions pointer, the size,
      the code, the handles, the sessions preceded by their length if there are any, the parameters. */
  ghost function InNumbers(cmdCode: uint32, handles: array?<uint32>, numHandles: int, sessions: array?<AuthCommand>,
                           numSessions: int, params: array?<byte>, paramsSize: int, size: nat): seq<byte>
    requires handles != null ==> numHandles <= handles.Length
    requires sessions != null ==> numSessions <= sessions.Length
    requires params != null ==> 0 <= paramsSize <= params.Length
    reads if handles == null then {} else {handles}, if sessions == null then {} else {sessions},
          if params == null then {} else {params}
  {
    BE(2, if sessions == null then 0x8001 else 0x8002) + (BE(4, size) + (BE(4, cmdCode)
    + (WordsBytes(if handles == null || numHandles <= 0 then [] else handles[..numHandles])
       + (AreaBytes(if sessions == null || numSessions <= 0 then [] else sessions[..numSessions])
          + (if params == null then [] else params[..paramsSize])))))
  }

  /** TSS_BuildCommand. Whatever does not fit is dropped by whole fields, and the returned size, which
      does not depend on the capacity, then exceeds it. The size of the authorization area is patched
      without a budget, also if there was no room for it; the memory it goes to must exist. */
  method BuildCommand(cmdCode: uint32, handles: array?<uint32>, numHandles: int, sessions: array?<AuthCommand>,
                      numSessions: int, params: array?<byte>, paramsSize: int, cmdBuffer: array?<byte>,
                      bufCapacity: int)
    returns (result: uint32)
    requires handles != null ==> numHandles <= handles.Length
    requires sessions != null ==> numSessions <= sessions.Length
    requires sessions != null ==> forall i :: 0 <= i < numSessions ==> AuthSized(sessions[i])
    requires params != null ==> 0 <= paramsSize <= params.Length
    requires cmdBuffer != null ==> bufCapacity <= cmdBuffer.Length && cmdBuffer != params
    requires !Rejected(cmdCode, handles, numHandles, sessions, numSessions, params, paramsSize, cmdBuffer,
                       bufCapacity) &&
             numSessions > 0 ==>
               var c := Described(cmdCode, handles, numHandles, sessions, numSessions, params, paramsSize);
               Short(c, bufCapacity) ==> AuthPlace(c, bufCapacity) + 4 <= cmdBuffer.Length
    requires !Rejected(cmdCode, handles, numHandles, sessions, numSessions, params, paramsSize, cmdBuffer,
                       bufCapacity) ==>
               ClaimedSize(Described(cmdCode, handles, numHandles, sessions, numSessions, params, paramsSize))
               < 0x1_0000_0000
    modifies if cmdBuffer == null then {} else {cmdBuffer}
    ensures Rejected(cmdCode, handles, numHandles, sessions, numSessions, params, paramsSize, cmdBuffer,
                     bufCapacity) ==>
              result == 0 && (cmdBuffer != null ==> cmdBuffer[..] == old(cmdBuffer[..]))
    ensures !Rejected(cmdCode, handles, numHandles, sessions, numSessions, params, paramsSize, cmdBuffer,
                      bufCapacity) ==>
              var c := old(Described(cmdCode, handles, numHandles, sessions, numSessions, params, paramsSize));
              var e := EmitAll(Buffer(old(cmdBuffer[..]), 0, Some(bufCapacity)), CommandFields(c));
              result == ClaimedSize(c) && e.Buffer? && cmdBuffer[..] == Stray(e, c, bufCapacity).mem
    ensures result != 0
            <==> && 0x11F <= cmdCode <= 0x193
                 && (handles == null ==> numHandles == 0) && (sessions == null ==> numSessions == 0)
                 && (params == null ==> paramsSize == 0) && cmdBuffer != null && bufCapacity >= 10
    ensures result != 0 && result <= bufCapacity && (params != null ==> paramsSize < 0x1_0000) ==>
              result <= cmdBuffer.Length &&
              cmdBuffer[..result] == old(InNumbers(cmdCode, handles, numHandles, sessions, numSessions, params,
                                                   paramsSize, result))
  {
    ghost var mem := if cmdBuffer == null then [] else cmdBuffer[..];
    if || cmdCode < CC_FIRST || cmdCode > CC_LAST
       || (handles == null && numHandles != 0)
       || (sessions == null && numSessions != 0)
       || (params == null && paramsSize != 0)
       || bufCapacity < 0
       || cmdBuffer == null || bufCapacity < STD_RESPONSE_HEADER
    {
      return 0;
    }
    ghost var c := Described(cmdCode, handles, numHandles, sessions, numSessions, params, paramsSize);
    CommandInBytes(c);
    ClaimIsTrue(c);
    if |CommandBytes(c)| <= bufCapacity { FittingCommand(mem, bufCapacity, c); }
    result := BuildChecked(cmdCode, handles, numHandles, sessions, numSessions, params, paramsSize, cmdBuffer,
                           bufCapacity, c);
  }

  method BuildChecked(cmdCode: uint32, handles: array?<uint32>, numHandles: int, sessions: array?<AuthCommand>,
                      numSessions: int, params: array?<byte>, paramsSize: int, cmdBuffer: array<byte>,
                      bufCapacity: nat, ghost c: CommandData)
    returns (result: uint32)
    requires numHandles > 0 ==> handles != null && numHandles <= handles.Length
    requires numSessions > 0 ==> sessions != null && numSessions <= sessions.Length
    requires numSessions > 0 ==> forall i :: 0 <= i < numSessions ==> AuthSized(sessions[i])
    requires params != null ==> 0 <= paramsSize <= params.Length && params != cmdBuffer
    requires c.tag == (if sessions != null then TPM_ST_SESSIONS else TPM_ST_NO_SESSIONS) && c.code == cmdCode
    requires c.handles == if numHandles > 0 then handles[..numHandles] else []
    requires c.sessions == if numSessions > 0 then sessions[..numSessions] else []
    requires c.params == if params != null then params[..paramsSize] else []
    requires STD_RESPONSE_HEADER <= bufCapacity <= cmdBuffer.Length
    requires Short(c, bufCapacity) ==> AuthPlace(c, bufCapacity) + 4 <= cmdBuffer.Length
    requires ClaimedSize(c) < 0x1_0000_0000
    modifies cmdBuffer
    ensures result == ClaimedSize(c)
    ensures var e := EmitAll(Buffer(old(cmdBuffer[..]), 0, Some(bufCapacity)), CommandFields(c));
            e.Buffer? && cmdBuffer[..] == Stray(e, c, bufCapacity).mem
  {
    var buffer := new Cursor(cmdBuffer, 0);
    var size := new Budget(bufCapacity);
    var cmdSize, pCmdSize := MarshalUnpatched(cmdCode, handles, numHandles, sessions, numSessions, params, paramsSize,
                                              buffer, size, c);
    SizePatched(old(cmdBuffer[..]), bufCapacity, c, cmdSize);
    PatchAt(cmdSize, pCmdSize, buffer, size);
    StaysBudgeted(Buffer(old(cmdBuffer[..]), 0, Some(bufCapacity)), CommandFields(c));
    result := cmdSize;
  }

  /** Everything up to patching the total size, which still holds the count of the tag. */
  method MarshalUnpatched(cmdCode: uint32, handles: array?<uint32>, numHandles: int, sessions: array?<AuthCommand>,
                          numSessions: int, params: array?<byte>, paramsSize: int, buffer: Cursor, size: Budget,
                          ghost c: CommandData)
    returns (cmdSize: nat, pCmdSize: Cursor)
    requires numHandles > 0 ==> handles != null && numHandles <= handles.Length
    requires numSessions > 0 ==> sessions != null && numSessions <= sessions.Length
    requires numSessions > 0 ==> forall i :: 0 <= i < numSessions ==> AuthSized(sessions[i])
    requires params != null ==> 0 <= paramsSize <= params.Length && params != buffer.data
    requires c.tag == (if sessions != null then TPM_ST_SESSIONS else TPM_ST_NO_SESSIONS) && c.code == cmdCode
    requires c.handles == if numHandles > 0 then handles[..numHandles] else []
    requires c.sessions == if numSessions > 0 then sessions[..numSessions] else []
    requires c.params == if params != null then params[..paramsSize] else []
    requires buffer.pos == 0 && STD_RESPONSE_HEADER <= size.left <= buffer.data.Length
    requires Short(c, size.left) ==> AuthPlace(c, size.left) + 4 <= buffer.data.Length
    requires ClaimedSize(c) < 0x1_0000_0000
    modifies Frame(buffer, size)
    ensures pCmdSize.data == buffer.data && pCmdSize.pos == 2 && fresh(pCmdSize)
    ensures cmdSize == ClaimedSize(c)
    ensures View(buffer, size)
            == Stray(EmitAll(old(View(buffer, size)), Layout(c, 2, AuthSizeOf(c))), c, old(size.left))
  {
    var tag := if sessions != null then TPM_ST_SESSIONS else TPM_ST_NO_SESSIONS;
    ghost var mem, capacity := buffer.data[..], size.left;
    cmdSize, pCmdSize := MarshalPrefix(tag, cmdCode, handles, numHandles, buffer, size, c);
    HeadLeaves(mem, capacity, c);
    var n := MarshalOptionalArea(sessions, numSessions, buffer, size, c);
    AreaPatched(mem, capacity, c);
    cmdSize := cmdSize + n;
    StrayParams(mem, capacity, c);
    n := MarshalParams(params, paramsSize, buffer, size, c);
    cmdSize := cmdSize + n;
  }

  /** The authorization area, if there are sessions; `n` is what it adds to the size. */
  method MarshalOptionalArea(sessions: array?<AuthCommand>, numSessions: int, buffer: Cursor, size: Budget,
                             ghost c: CommandData)
    returns (n: nat)
    requires numSessions > 0 ==> sessions != null && numSessions <= sessions.Length
    requires numSessions > 0 ==> forall i :: 0 <= i < numSessions ==> AuthSized(sessions[i])
    requires c.sessions == (if numSessions > 0 then sessions[..numSessions] else []) && ClaimedSize(c) < 0x1_0000_0000
    requires Budgeted(View(buffer, size)) && (c.sessions != [] ==> buffer.pos + 4 <= buffer.data.Length)
    modifies Frame(buffer, size)
    ensures n == if c.sessions == [] then 0 else 4 + AuthSizeOf(c)
    ensures View(buffer, size) == AreaEffect(old(View(buffer, size)), c)
  {
    n := 0;
    if numSessions > 0 {
      var authSize := MarshalAuthArea(sessions, numSessions, buffer, size);
      n := 4 + authSize;
    }
  }

  method MarshalParams(params: array?<byte>, paramsSize: int, buffer: Cursor, size: Budget, ghost c: CommandData)
    returns (n: nat)
    requires params != null ==> 0 <= paramsSize <= params.Length && params != buffer.data
    requires c.params == if params != null then params[..paramsSize] else []
    requires Budgeted(View(buffer, size))
    modifies Frame(buffer, size)
    ensures n == Low16(|c.params|)
    ensures View(buffer, size) == EmitAll(old(View(buffer, size)), ParamsFields(c))
  {
    n := 0;
    if params != null && paramsSize != 0 {
      EmitOne(View(buffer, size), c.params);
      n := MarshalByteArray(params[..paramsSize], buffer, size);
    }
  }

  /** Parameters after a stray patch are dropped, as the budget is overdrawn. */
  lemma StrayParams(mem: seq<byte>, capacity: nat, c: CommandData)
    requires STD_RESPONSE_HEADER <= capacity <= |mem|
    ensures var o, through := Buffer(mem, 0, Some(capacity)), ThroughArea(c, AuthSizeOf(c));
            && Stray(EmitAll(o, Layout(c, 2, AuthSizeOf(c))), c, capacity)
               == EmitAll(Stray(EmitAll(o, through), c, capacity), ParamsFields(c))
            && Budgeted(Stray(EmitAll(o, through), c, capacity))
  {
    var o, through := Buffer(mem, 0, Some(capacity)), ThroughArea(c, AuthSizeOf(c));
    var e := EmitAll(o, through);
    EmitAllAppend(o, through, ParamsFields(c));
    assert Layout(c, 2, AuthSizeOf(c)) == through + ParamsFields(c);
    StaysBudgeted(o, through);
    ChargeIsTotal(o, through);
    if Short(c, capacity) {
      SizeAppend(HeadFields(c), AuthAreaFields(c, AuthSizeOf(c)));
      HeadSize(c);
      assert AuthAreaFields(c, AuthSizeOf(c))[0] == BE(4, AuthSizeOf(c));
      OverdrawnIsSticky(e, ParamsFields(c));
      OverdrawnIsSticky(Stray(e, c, capacity), ParamsFields(c));
    }
  }

  function AfterSize(c: CommandData): seq<Field> {
    PrefixFields(c) + AuthAreaFields(c, AuthSizeOf(c)) + ParamsFields(c)
  }

  lemma SplitLayout(c: CommandData, cmdSize: nat)
    ensures Layout(c, cmdSize, AuthSizeOf(c)) == [BE(2, c.tag)] + [BE(4, cmdSize)] + AfterSize(c)
  {
  }

  lemma HeadSize(c: CommandData)
    ensures Size(HeadFields(c)) == 10 + 4 * |c.handles|
  {
    HandlesSize(c.handles);
    SplitSize();
  }

  lemma OverwriteStart(mem: seq<byte>, f: seq<byte>)
    requires |f| <= |mem|
    ensures Overwrite(mem, 0, f) == f + mem[|f|..]
  {
    assert mem[..0] == [];
  }

  lemma FittingFields(mem: seq<byte>, capacity: nat, fields: seq<Field>)
    requires Size(fields) <= capacity <= |mem|
    ensures var e, n := EmitAll(Buffer(mem, 0, Some(capacity)), fields), Size(fields);
            e.Buffer? && |PutAll(fields, [])| == n && e.mem == PutAll(fields, []) + mem[n..]
  {
    SizeOfPut(fields, []);
    OverwriteStart(mem, PutAll(fields, []));
    EmitsAll(mem, 0, capacity, fields);
  }

  /** If the command fits the capacity, the buffer starts with exactly its bytes and is unchanged
      after them. */
  lemma FittingCommand(mem: seq<byte>, capacity: nat, c: CommandData)
    requires |CommandBytes(c)| <= capacity <= |mem|
    ensures var e := EmitAll(Buffer(mem, 0, Some(capacity)), CommandFields(c));
            && e.Buffer? && e.mem == CommandBytes(c) + mem[|CommandBytes(c)|..]
            && !Short(c, capacity) && |c.params| <= capacity
  {
    SizeOfPut(CommandFields(c), []);
    LayoutSize(c, ClaimedSize(c), AuthSizeOf(c));
    FittingFields(mem, capacity, CommandFields(c));
  }

  // ----- A reference parser

  function ParseAuths(s: seq<byte>): (p: Parsed<seq<AuthCommand>>)
    decreases |s|
  {
    if s == [] then Ok([], [])
    else
      var (a, s1) :- ParseAuth(s);
      SizeOfPut(AuthFields(a), s1);
      AuthSize(a);
      var (more, s2) :- ParseAuths(s1);
      Ok([a] + more, s2)
  }

  function ParseAuthArea(s: seq<byte>): Parsed<seq<AuthCommand>> {
    var (authSize, s1) :- ParseUint32(s);
    if authSize > |s1| then Err(TPM_RC_AUTHSIZE)
    else
      var (sessions, _) :- ParseAuths(s1[..authSize]);
      Ok(sessions, s1[authSize..])
  }

  function HandleParser(): Parser<uint32> {
    s => ParseUint32(s)
  }

  /** Reads a command whose code is known to take `numHandles` handles. */
  function ParseCommand(s: seq<byte>, numHandles: nat): Parsed<CommandData> {
    var (tag, s1) :- ParseUint16(s);
    if tag != TPM_ST_SESSIONS && tag != TPM_ST_NO_SESSIONS then Err(TPM_RC_BAD_TAG)
    else
      var (size, s2) :- ParseUint32(s1);
      if size != |s| then Err(TPM_RC_COMMAND_SIZE)
      else
        var (code, s3) :- ParseUint32(s2);
        var (handles, s4) :- ParseMany(s3, HandleParser(), numHandles);
        if tag == TPM_ST_NO_SESSIONS then Ok(CommandData(tag, code, handles, [], s4), [])
        else
          var (sessions, s5) :- ParseAuthArea(s4);
          Ok(CommandData(tag, code, handles, sessions, s5), [])
  }

  /** What TSS_BuildCommand's argument check leaves: sessions only under the sessions tag. */
  predicate CommandOk(c: CommandData) {
    && (c.tag == TPM_ST_SESSIONS || (c.tag == TPM_ST_NO_SESSIONS && c.sessions == []))
    && |c.params| < 0x1_0000
    && (forall i :: 0 <= i < |c.sessions| ==> AuthOk(c.sessions[i]))
    && ClaimedSize(c) < 0x1_0000_0000
  }

  lemma HandlesInverse()
    ensures Inverse(HandleParser(), HandleFields, (h: uint32) => true)
  {
    PutOne();
    OtherUintRoundTrips();
  }

  lemma {:induction false} ManyCons<T>(x: T, xs: seq<T>, fields: T -> seq<Field>)
    ensures ManyFields([x] + xs, fields) == fields(x) + ManyFields(xs, fields)
    decreases |xs|
  {
    if xs == [] {
      assert [x] + xs == [x];
      assert ManyFields([x], fields) == ManyFields([], fields) + fields(x);
    } else {
      var front := xs[..|xs| - 1];
      assert ([x] + xs)[..|xs|] == [x] + front;
      ManyCons(x, front, fields);
    }
  }

  lemma {:induction false} AuthsRoundTrip(sessions: seq<AuthCommand>)
    requires forall i :: 0 <= i < |sessions| ==> AuthOk(sessions[i])
    ensures ParseAuths(PutAll(ManyFields(sessions, AuthFields), [])) == Ok(sessions, [])
    decreases |sessions|
  {
    if sessions != [] {
      var a, more := sessions[0], sessions[1..];
      assert sessions == [a] + more;
      ManyCons(a, more, AuthFields);
      var s1 := PutAll(ManyFields(more, AuthFields), []);
      PutAllAppend(AuthFields(a), ManyFields(more, AuthFields), []);
      AuthRoundTrip(a, s1);
      SizeOfPut(AuthFields(a), s1);
      AuthSize(a);
      AuthsRoundTrip(more);
    }
  }

  lemma AuthAreaRoundTrip(c: CommandData, rest: seq<byte>)
    requires CommandOk(c) && c.sessions != []
    ensures ParseAuthArea(PutAll(AuthAreaFields(c, AuthSizeOf(c)), rest)) == Ok(c.sessions, rest)
  {
    var auths := ManyFields(c.sessions, AuthFields);
    Put2([BE(4, AuthSizeOf(c))], auths, rest);
    PutOne();
    OtherUintRoundTrips();
    SizeOfPut(auths, rest);
    AuthsRoundTrip(c.sessions);
    var s1 := PutAll(auths, rest);
    assert s1[..AuthSizeOf(c)] == PutAll(auths, []) && s1[AuthSizeOf(c)..] == rest;
  }

  lemma PutLayout(c: CommandData)
    ensures CommandBytes(c)
            == BE(2, c.tag) + (BE(4, ClaimedSize(c)) + (BE(4, c.code) + PutAll(ManyFields(c.handles, HandleFields),
                 PutAll(AuthAreaFields(c, AuthSizeOf(c)), c.params))))
  {
    var area := AuthAreaFields(c, AuthSizeOf(c));
    var head := [BE(2, c.tag)] + [BE(4, ClaimedSize(c))];
    Put4(head, PrefixFields(c), area, ParamsFields(c), []);
    PutOne();
    assert PutAll(ParamsFields(c), []) == c.params;
    Put2([BE(4, c.code)], ManyFields(c.handles, HandleFields), PutAll(area, c.params));
    Put2([BE(2, c.tag)], [BE(4, ClaimedSize(c))], PutAll(PrefixFields(c), PutAll(area, c.params)));
  }

  /** The reference parser recovers every part of a command exactly when the sessions pointer was
      null or came with at least one session. */
  lemma CommandRoundTrip(c: CommandData)
    requires CommandOk(c)
    ensures ParseCommand(CommandBytes(c), |c.handles|) == Ok(c, [])
            <==> (c.tag == TPM_ST_SESSIONS ==> c.sessions != [])
  {
    PutLayout(c);
    ClaimIsTrue(c);
    var area := PutAll(AuthAreaFields(c, AuthSizeOf(c)), c.params);
    var handles := PutAll(ManyFields(c.handles, HandleFields), area);
    Widths();
    UintRoundTrip(2, c.tag, BE(4, ClaimedSize(c)) + (BE(4, c.code) + handles));
    UintRoundTrip(4, ClaimedSize(c), BE(4, c.code) + handles);
    UintRoundTrip(4, c.code, handles);
    HandlesInverse();
    ManyRoundTrip(c.handles, HandleParser(), HandleFields, (h: uint32) => true, area);
    if c.sessions != [] {
      AuthAreaRoundTrip(c, c.params);
    } else if c.tag == TPM_ST_SESSIONS {
      assert area == c.params;
      AuthAreaConsumes(c.params);
    }
  }

  /** A command that TSS_BuildCommand makes of a session array without sessions, and that no parser
      accepts as what it was made from. */
  lemma EmptySessionArray()
    ensures var c := CommandData(TPM_ST_SESSIONS, CC_FIRST, [], [], []);
            CommandOk(c) && ParseCommand(CommandBytes(c), 0) != Ok(c, [])
  {
    var c := CommandData(TPM_ST_SESSIONS, CC_FIRST, [], [], []);
    assert CommandOk(c);
    CommandRoundTrip(c);
  }

  /** An authorization area takes at least its size field. */
  lemma AuthAreaConsumes(s: seq<byte>)
    ensures ParseAuthArea(s).Ok? ==> |ParseAuthArea(s).rest| < |s|
  {
  }
}
