/** SignData: a token is signed in one command, or split over an HMAC sequence, with the same
    signature either way. */
module Signing {
  import opened Bytes
  import opened Wire
  import opened Lists
  import opened Capability

  const MAX_DIGEST_BUFFER := 1024
  const SHA256_DIGEST_SIZE := 32
  const TPM_PT_INPUT_BUFFER: uint32 := 0x10D
  const DPS_ID_KEY_HANDLE: uint32 := 0x8100_0100
  const TSS_BAD_PROPERTY: uint32 := 0xFFFF_FFFF
  const TPM_RC_HANDLE: uint32 := 0x8B

  type Digest = d: seq<byte> | |d| == SHA256_DIGEST_SIZE witness seq(SHA256_DIGEST_SIZE, _ => 0)

  const NO_DIGEST: Digest := seq(SHA256_DIGEST_SIZE, _ => 0)

  // ----- The TPM's side

  datatype Cmd =
    | GetCapability(property: uint32)
    | Start(key: uint32)
    | Update(handle: nat, data: seq<byte>)
    | Complete(handle: nat, data: seq<byte>)
    | Hmac(key: uint32, data: seq<byte>)

  datatype Sequence = Sequence(key: uint32, data: seq<byte>)

  /** The answer to a command that names a sequence. */
  function HandleRc(c: uint32, known: bool): uint32 {
    if c != TPM_RC_SUCCESS then c else if known then TPM_RC_SUCCESS else TPM_RC_HANDLE
  }

  function Fed(sequences: map<nat, Sequence>, handle: nat, data: seq<byte>): map<nat, Sequence>
    requires handle in sequences
  {
    var s := sequences[handle];
    sequences[handle := s.(data := s.data + data)]
  }

  /** A TPM with one unknown HMAC function. It answers its i-th command with `code(i)`, which is
      arbitrary, and a command answered with a failure has had no effect. */
  class Tpm {
    const hmac: (uint32, seq<byte>) -> Digest
    const code: nat -> uint32
    const capability: CapabilityData
    var log: seq<Cmd>
    var sequences: map<nat, Sequence>
    var nextHandle: nat

    ghost predicate Valid()
      reads this
    {
      forall h :: h in sequences ==> h < nextHandle
    }

    constructor (hmac: (uint32, seq<byte>) -> Digest, code: nat -> uint32, capability: CapabilityData)
      ensures Valid() && log == [] && sequences == map[]
      ensures this.hmac == hmac && this.code == code && this.capability == capability
    {
      this.hmac, this.code, this.capability := hmac, code, capability;
      log, sequences, nextHandle := [], map[], 0;
    }

    method Execute(cmd: Cmd) returns (rc: uint32)
      modifies this`log
      ensures log == old(log) + [cmd] && rc == code(|old(log)|)
    {
      rc := code(|log|);
      log := log + [cmd];
    }

    method HmacStart(key: uint32) returns (rc: uint32, handle: nat)
      requires Valid()
      modifies this
      ensures Valid() && log == old(log) + [Start(key)] && rc == code(|old(log)|)
      ensures rc != TPM_RC_SUCCESS ==> sequences == old(sequences) && nextHandle == old(nextHandle)
      ensures rc == TPM_RC_SUCCESS ==>
                handle == old(nextHandle) && sequences == old(sequences)[handle := Sequence(key, [])]
    {
      handle := nextHandle;
      rc := Execute(Start(key));
      if rc == TPM_RC_SUCCESS {
        sequences := sequences[handle := Sequence(key, [])];
        nextHandle := nextHandle + 1;
      }
    }

    method SequenceUpdate(handle: nat, data: seq<byte>) returns (rc: uint32)
      requires Valid()
      modifies this`log, this`sequences
      ensures Valid() && log == old(log) + [Update(handle, data)]
      ensures rc == HandleRc(code(|old(log)|), handle in old(sequences))
      ensures sequences == if rc == TPM_RC_SUCCESS then Fed(old(sequences), handle, data) else old(sequences)
    {
      rc := Execute(Update(handle, data));
      rc := HandleRc(rc, handle in sequences);
      if rc == TPM_RC_SUCCESS {
        sequences := Fed(sequences, handle, data);
      }
    }

    method SequenceComplete(handle: nat, data: seq<byte>) returns (rc: uint32, digest: Digest)
      requires Valid()
      modifies this`log, this`sequences
      ensures Valid() && log == old(log) + [Complete(handle, data)]
      ensures rc == HandleRc(code(|old(log)|), handle in old(sequences))
      ensures rc != TPM_RC_SUCCESS ==> sequences == old(sequences)
      ensures rc == TPM_RC_SUCCESS ==>
                var s := old(sequences)[handle];
                digest == hmac(s.key, s.data + data) && sequences == old(sequences) - {handle}
    {
      digest := NO_DIGEST;
      rc := Execute(Complete(handle, data));
      rc := HandleRc(rc, handle in sequences);
      if rc == TPM_RC_SUCCESS {
        var s := sequences[handle];
        digest := hmac(s.key, s.data + data);
        sequences := sequences - {handle};
      }
    }

    method HmacOnce(key: uint32, data: seq<byte>) returns (rc: uint32, digest: Digest)
      requires Valid()
      modifies this`log
      ensures Valid() && log == old(log) + [Hmac(key, data)] && rc == code(|old(log)|)
      ensures digest == hmac(key, data)
    {
      digest := hmac(key, data);
      rc := Execute(Hmac(key, data));
    }
  }

  // ----- The library's side

  /** What TSS_GetTpmProperty makes of the answer to TPM2_GetCapability. */
  function TpmProperty(rc: uint32, x: CapabilityData, property: uint32): uint32 {
    if rc != TPM_RC_SUCCESS || x.capability != TPM_CAP_TPM_PROPERTIES then TSS_BAD_PROPERTY
    else if |x.data| != 1 then TSS_BAD_PROPERTY
    else if x.data[0].TaggedProperty? && x.data[0].property == property then x.data[0].value
    else TSS_BAD_PROPERTY
  }

  /** The answer that holds one property. */
  function OneProperty(property: uint32, value: uint32): CapabilityData {
    CapabilityData(TPM_CAP_TPM_PROPERTIES, [TaggedProperty(property, value)])
  }

  /** A value other than the marker is returned exactly for a successful answer that holds this one
      property with this value and nothing else. */
  lemma PropertyIsAnswered(rc: uint32, x: CapabilityData, property: uint32, value: uint32)
    requires value != TSS_BAD_PROPERTY
    ensures TpmProperty(rc, x, property) == value
            <==> rc == 0 && x == CapabilityData(6, [TaggedProperty(property, value)])
  {
    if |x.data| == 1 && x.data[0].TaggedProperty? {
      assert x.data == [x.data[0]];
    }
  }

  /** TSS_GetTpmProperty: the value, exactly if the answer is this one property. */
  method GetTpmProperty(tpm: Tpm, property: uint32) returns (result: uint32)
    requires tpm.Valid()
    modifies tpm`log
    ensures tpm.Valid() && tpm.log == old(tpm.log) + [GetCapability(property)]
    ensures result == TpmProperty(tpm.code(|old(tpm.log)|), tpm.capability, property)
    ensures forall v: uint32 :: v != TSS_BAD_PROPERTY ==>
              (result == v
               <==> tpm.code(|old(tpm.log)|) == TPM_RC_SUCCESS && tpm.capability == OneProperty(property, v))
  {
    var rc := tpm.Execute(GetCapability(property));
    var capData := tpm.capability;
    if rc != TPM_RC_SUCCESS || capData.capability != TPM_CAP_TPM_PROPERTIES {
      result := TSS_BAD_PROPERTY;
    } else if |capData.data| != 1 {
      result := TSS_BAD_PROPERTY;
    } else if !capData.data[0].TaggedProperty? || capData.data[0].property != property {
      result := TSS_BAD_PROPERTY;
    } else {
      result := capData.data[0].value;
    }
    forall v: uint32 | v != TSS_BAD_PROPERTY
      ensures TpmProperty(rc, capData, property) == v
              <==> rc == TPM_RC_SUCCESS && capData == OneProperty(property, v)
    {
      PropertyIsAnswered(rc, capData, property, v);
    }
  }

  /** TSS_SequenceUpdate: too much data is refused before anything is sent. */
  method TssSequenceUpdate(tpm: Tpm, handle: nat, data: seq<byte>) returns (rc: uint32)
    requires tpm.Valid()
    modifies tpm`log, tpm`sequences
    ensures tpm.Valid()
    ensures |data| > MAX_DIGEST_BUFFER ==> rc == TPM_RC_SIZE && tpm.log == old(tpm.log)
    ensures |data| <= MAX_DIGEST_BUFFER ==>
              && tpm.log == old(tpm.log) + [Update(handle, data)]
              && rc == HandleRc(tpm.code(|old(tpm.log)|), handle in old(tpm.sequences))
    ensures tpm.sequences == if rc == TPM_RC_SUCCESS then Fed(old(tpm.sequences), handle, data) else old(tpm.sequences)
  {
    if |data| > MAX_DIGEST_BUFFER { return TPM_RC_SIZE; }
    rc := tpm.SequenceUpdate(handle, data);
  }

  /** TSS_SequenceComplete. */
  method TssSequenceComplete(tpm: Tpm, handle: nat, data: seq<byte>) returns (rc: uint32, digest: Digest)
    requires tpm.Valid()
    modifies tpm`log, tpm`sequences
    ensures tpm.Valid()
    ensures |data| > MAX_DIGEST_BUFFER ==> rc == TPM_RC_SIZE && tpm.log == old(tpm.log)
    ensures |data| <= MAX_DIGEST_BUFFER ==>
              && tpm.log == old(tpm.log) + [Complete(handle, data)]
              && rc == HandleRc(tpm.code(|old(tpm.log)|), handle in old(tpm.sequences))
    ensures rc != TPM_RC_SUCCESS ==> tpm.sequences == old(tpm.sequences)
    ensures rc == TPM_RC_SUCCESS ==>
              && handle in old(tpm.sequences)
              && var s := old(tpm.sequences)[handle];
                 digest == tpm.hmac(s.key, s.data + data) && tpm.sequences == old(tpm.sequences) - {handle}
  {
    if |data| > MAX_DIGEST_BUFFER {
      rc, digest := TPM_RC_SIZE, NO_DIGEST;
    } else {
      rc, digest := tpm.SequenceComplete(handle, data);
    }
  }

  method TssHmac(tpm: Tpm, key: uint32, data: seq<byte>) returns (rc: uint32, digest: Digest)
    requires tpm.Valid()
    modifies tpm`log
    ensures tpm.Valid()
    ensures |data| > MAX_DIGEST_BUFFER ==> rc == TPM_RC_SIZE && tpm.log == old(tpm.log)
    ensures |data| <= MAX_DIGEST_BUFFER ==>
              tpm.log == old(tpm.log) + [Hmac(key, data)] && rc == tpm.code(|old(tpm.log)|)
    ensures rc == TPM_RC_SUCCESS ==> digest == tpm.hmac(key, data)
  {
    if |data| > MAX_DIGEST_BUFFER {
      rc, digest := TPM_RC_SIZE, NO_DIGEST;
    } else {
      rc, digest := tpm.HmacOnce(key, data);
    }
  }

  // ----- How a token is split

  /** Pieces of exactly `max` bytes, and a last piece of what remains. */
  function Chunks(s: seq<byte>, max: nat): (c: seq<seq<byte>>)
    requires max > 0
    ensures c != []
    decreases |s|
  {
    if |s| <= max then [s] else [s[..max]] + Chunks(s[max..], max)
  }

  /** The pieces make up the token, all but the last are full, and the last is not empty unless the
      token is. */
  lemma {:induction false} ChunksCover(s: seq<byte>, max: nat)
    requires max > 0
    ensures var c := Chunks(s, max);
            && Flatten(c) == s
            && (forall i :: 0 <= i < |c| - 1 ==> |c[i]| == max)
            && |c[|c| - 1]| <= max && (s != [] ==> c[|c| - 1] != [])
    decreases |s|
  {
    if |s| > max {
      ChunksCover(s[max..], max);
      var rest := Chunks(s[max..], max);
      assert ([s[..max]] + rest)[1..] == rest;
    } else {
      assert [s][1..] == [];
    }
  }

  lemma {:induction false} ChunksCount(s: seq<byte>, max: nat)
    requires max > 0 && s != []
    ensures var n := |Chunks(s, max)|; (n - 1) * max < |s| <= n * max
    decreases |s|
  {
    if |s| > max {
      ChunksCount(s[max..], max);
      var n := |Chunks(s[max..], max)|;
      assert (n - 1 + 1) * max == (n - 1) * max + max && (n + 1) * max == n * max + max;
    }
  }

  /** One update for each piece but the last, which completes the sequence. */
  function Trace(handle: nat, pieces: seq<seq<byte>>): seq<Cmd>
    requires pieces != []
  {
    if |pieces| == 1 then [Complete(handle, pieces[0])]
    else [Update(handle, pieces[0])] + Trace(handle, pieces[1..])
  }

  lemma {:induction false} TraceLength(handle: nat, pieces: seq<seq<byte>>)
    requires pieces != []
    ensures |Trace(handle, pieces)| == |pieces|
  {
    if |pieces| > 1 {
      TraceLength(handle, pieces[1..]);
    }
  }

  /** The commands that sign a token, if all succeed. */
  function SignTrace(token: seq<byte>, max: nat, handle: nat): seq<Cmd>
    requires max > 0 || token == []
  {
    if |token| > max then [Start(DPS_ID_KEY_HANDLE)] + Trace(handle, Chunks(token, max))
    else [Hmac(DPS_ID_KEY_HANDLE, token)]
  }

  /** Signing takes one command, or two more than the full pieces before the last. */
  lemma SignatureCost(token: seq<byte>, max: nat, handle: nat)
    requires max > 0
    ensures var n := |SignTrace(token, max, handle)|;
            if |token| <= max then n == 1 else n > 2 && (n - 2) * max < |token| <= (n - 1) * max
  {
    if |token| > max {
      ChunksCount(token, max);
      TraceLength(handle, Chunks(token, max));
    }
  }

  predicate AllSucceed(code: nat -> uint32, from: nat, n: nat) {
    forall i :: from <= i < from + n ==> code(i) == TPM_RC_SUCCESS
  }

  /** Whether no single command would carry more data than a TPM2B_MAX_BUFFER holds. */
  predicate Carries(token: seq<byte>, max: nat) {
    (if |token| > max then max else |token|) <= MAX_DIGEST_BUFFER
  }

  /** The sequence that SignData opened, with what it has been fed; all others are untouched. */
  predicate Holds(sequences: map<nat, Sequence>, before: map<nat, Sequence>, handle: nat, data: seq<byte>) {
    handle !in before && sequences == before[handle := Sequence(DPS_ID_KEY_HANDLE, data)]
  }

  lemma FeedHolds(sequences: map<nat, Sequence>, before: map<nat, Sequence>, handle: nat, data: seq<byte>,
                  more: seq<byte>)
    requires Holds(sequences, before, handle, data)
    ensures Holds(Fed(sequences, handle, more), before, handle, data + more)
    ensures sequences - {handle} == before
  {
  }

  /** The data that a sequence has been fed by the successful updates in the log from `from` on. */
  function Absorbed(code: nat -> uint32, log: seq<Cmd>, from: nat, handle: nat): seq<byte>
    decreases |log|
  {
    if |log| <= from then []
    else
      var last := |log| - 1;
      Absorbed(code, log[..last], from, handle)
      + if log[last].Update? && log[last].handle == handle && code(last) == TPM_RC_SUCCESS then log[last].data else []
  }

  lemma AbsorbOne(code: nat -> uint32, log: seq<Cmd>, from: nat, handle: nat, cmd: Cmd)
    requires from <= |log|
    ensures Absorbed(code, log + [cmd], from, handle)
            == Absorbed(code, log, from, handle)
               + if cmd.Update? && cmd.handle == handle && code(|log|) == TPM_RC_SUCCESS then cmd.data else []
  {
    assert (log + [cmd])[..|log|] == log;
  }

  /** Updates without data. */
  function Idle(handle: nat, n: nat): seq<Cmd> {
    seq(n, _ => Update(handle, []))
  }

  lemma TraceStep(handle: nat, rest: seq<byte>, max: nat)
    requires 0 < max < |rest|
    ensures Trace(handle, Chunks(rest, max)) == [Update(handle, rest[..max])] + Trace(handle, Chunks(rest[max..], max))
  {
    assert Chunks(rest, max)[1..] == Chunks(rest[max..], max);
  }

  /** What both kinds of runs of the update loop keep with `curPos` bytes fed. */
  predicate FedSoFar(code: nat -> uint32, start: seq<Cmd>, log: seq<Cmd>, h: nat, token: seq<byte>, curPos: nat) {
    curPos <= |token| && start <= log && Absorbed(code, log, |start|, h) == token[..curPos]
  }

  lemma FeedMore(code: nat -> uint32, start: seq<Cmd>, log: seq<Cmd>, h: nat, token: seq<byte>, curPos: nat, n: nat)
    requires FedSoFar(code, start, log, h, token, curPos) && curPos + n <= |token| && code(|log|) == TPM_RC_SUCCESS
    ensures FedSoFar(code, start, log + [Update(h, token[curPos..curPos + n])], h, token, curPos + n)
  {
    var data := token[curPos..curPos + n];
    AbsorbOne(code, log, |start|, h, Update(h, data));
    assert token[..curPos + n] == token[..curPos] + data;
  }

  lemma FeedNothing(code: nat -> uint32, start: seq<Cmd>, log: seq<Cmd>, h: nat, token: seq<byte>, curPos: nat,
                    cmd: Cmd)
    requires FedSoFar(code, start, log, h, token, curPos) && (cmd.Update? ==> code(|log|) != TPM_RC_SUCCESS)
    ensures FedSoFar(code, start, log + [cmd], h, token, curPos)
  {
    AbsorbOne(code, log, |start|, h, cmd);
    assert token[..curPos] + [] == token[..curPos];
  }

  /** The commands still to be issued for what is left of the token. */
  function Remaining(h: nat, token: seq<byte>, max: nat, curPos: nat): seq<Cmd>
    requires max > 0 && curPos <= |token|
  {
    Trace(h, Chunks(token[curPos..], max))
  }

  lemma RemainingStep(h: nat, token: seq<byte>, max: nat, curPos: nat, log: seq<Cmd>)
    requires 0 < max && curPos + max < |token|
    ensures var u := Update(h, token[curPos..curPos + max]);
            && log + Remaining(h, token, max, curPos) == log + [u] + Remaining(h, token, max, curPos + max)
            && log + [u] <= log + Remaining(h, token, max, curPos)
  {
    var rest := token[curPos..];
    TraceStep(h, rest, max);
    assert rest[..max] == token[curPos..curPos + max] && rest[max..] == token[curPos + max..];
    var u, t := Update(h, token[curPos..curPos + max]), Remaining(h, token, max, curPos + max);
    assert log + ([u] + t) == log + [u] + t;
  }

  /** The state of the update loop: nothing failed, and what was issued and what remains to be issued make
      up `goal`; pieces of no size are issued without end. */
  predicate Feeding(code: nat -> uint32, start: seq<Cmd>, log: seq<Cmd>, h: nat, token: seq<byte>, max: nat,
                    curPos: nat, goal: seq<Cmd>)
  {
    && FedSoFar(code, start, log, h, token, curPos) && AllSucceed(code, |start|, |log| - |start|)
    && if max == 0 then curPos == 0 && log == start + Idle(h, |log| - |start|)
       else
         && goal == log + Remaining(h, token, max, curPos)
         && (if curPos == 0 then log == start else max <= MAX_DIGEST_BUFFER)
  }

  /** How the update loop ends: with everything but the last piece in the sequence, or at an update that
      was refused by the library or the TPM. */
  predicate FeedEnds(code: nat -> uint32, start: seq<Cmd>, log: seq<Cmd>, h: nat, token: seq<byte>, max: nat,
                     curPos: nat, complete: bool, goal: seq<Cmd>)
  {
    && FedSoFar(code, start, log, h, token, curPos)
    && if max == 0 then !complete && FailsIdling(code, start, log, h)
       else if complete then
         && goal == log + [Complete(h, token[curPos..])] && |token| - curPos <= max <= MAX_DIGEST_BUFFER
         && AllSucceed(code, |start|, |log| - |start|)
       else
         && log <= goal
         && if max > MAX_DIGEST_BUFFER then log == start
            else |log| > |start| && code(|log| - 1) != TPM_RC_SUCCESS && AllSucceed(code, |start|, |log| - |start| - 1)
  }

  /** Updates without data up to the first that fails. */
  predicate FailsIdling(code: nat -> uint32, start: seq<Cmd>, log: seq<Cmd>, handle: nat) {
    && |log| > |start| && code(|log| - 1) != TPM_RC_SUCCESS
    && log == start + Idle(handle, |log| - |start|)
    && AllSucceed(code, |start|, |log| - |start| - 1)
  }

  lemma IdleMore(start: seq<Cmd>, log: seq<Cmd>, handle: nat)
    requires start <= log && log == start + Idle(handle, |log| - |start|)
    ensures log + [Update(handle, [])] == start + Idle(handle, |log| + 1 - |start|)
  {
    assert Idle(handle, |log| - |start|) + [Update(handle, [])] == Idle(handle, |log| + 1 - |start|);
  }

  function FeedGoal(start: seq<Cmd>, h: nat, token: seq<byte>, max: nat): seq<Cmd> {
    if max == 0 then [] else start + Trace(h, Chunks(token, max))
  }

  lemma FeedStarts(code: nat -> uint32, start: seq<Cmd>, h: nat, token: seq<byte>, max: nat)
    ensures Feeding(code, start, start, h, token, max, 0, FeedGoal(start, h, token, max))
  {
    assert token[0..] == token && token[..0] == [];
  }

  lemma FeedGoesOn(code: nat -> uint32, start: seq<Cmd>, log: seq<Cmd>, h: nat, token: seq<byte>, max: nat,
                   curPos: nat, goal: seq<Cmd>)
    requires Feeding(code, start, log, h, token, max, curPos, goal) && |token| - curPos > max
    requires max <= MAX_DIGEST_BUFFER && code(|log|) == TPM_RC_SUCCESS
    ensures Feeding(code, start, log + [Update(h, token[curPos..curPos + max])], h, token, max, curPos + max, goal)
  {
    FeedMore(code, start, log, h, token, curPos, max);
    if max > 0 {
      RemainingStep(h, token, max, curPos, log);
    } else {
      IdleMore(start, log, h);
    }
  }

  lemma FeedCompletes(code: nat -> uint32, start: seq<Cmd>, log: seq<Cmd>, h: nat, token: seq<byte>, max: nat,
                      curPos: nat, goal: seq<Cmd>)
    requires Feeding(code, start, log, h, token, max, curPos, goal) && |token| - curPos <= max < |token|
    ensures FeedEnds(code, start, log, h, token, max, curPos, true, goal)
  {
  }

  /** At an update that the library refuses. */
  lemma FeedNotSent(code: nat -> uint32, start: seq<Cmd>, log: seq<Cmd>, h: nat, token: seq<byte>, max: nat,
                    curPos: nat, goal: seq<Cmd>)
    requires Feeding(code, start, log, h, token, max, curPos, goal) && max > MAX_DIGEST_BUFFER
    ensures FeedEnds(code, start, log, h, token, max, curPos, false, goal)
  {
  }

  /** At an update that the TPM refuses. */
  lemma FeedRefused(code: nat -> uint32, start: seq<Cmd>, log: seq<Cmd>, h: nat, token: seq<byte>, max: nat,
                    curPos: nat, goal: seq<Cmd>)
    requires Feeding(code, start, log, h, token, max, curPos, goal)
    requires |token| - curPos > max && max <= MAX_DIGEST_BUFFER && code(|log|) != TPM_RC_SUCCESS
    ensures FeedEnds(code, start, log + [Update(h, token[curPos..curPos + max])], h, token, max, curPos, false, goal)
  {
    FeedNothing(code, start, log, h, token, curPos, Update(h, token[curPos..curPos + max]));
    if max > 0 {
      RemainingStep(h, token, max, curPos, log);
    } else {
      IdleMore(start, log, h);
    }
  }

  /** One round of the update loop. */
  method FeedPiece(tpm: Tpm, token: seq<byte>, max: nat, hSeq: nat, curPos: nat, ghost before: map<nat, Sequence>,
                   ghost start: seq<Cmd>, ghost goal: seq<Cmd>)
    returns (rc: uint32)
    requires tpm.Valid() && curPos + max < |token| && Holds(tpm.sequences, before, hSeq, token[..curPos])
    requires Feeding(tpm.code, start, tpm.log, hSeq, token, max, curPos, goal)
    modifies tpm`log, tpm`sequences
    ensures tpm.Valid()
    ensures rc == TPM_RC_SUCCESS ==>
              && Feeding(tpm.code, start, tpm.log, hSeq, token, max, curPos + max, goal)
              && Holds(tpm.sequences, before, hSeq, token[..curPos + max])
              && |tpm.log| == |old(tpm.log)| + 1 && tpm.code(|old(tpm.log)|) == TPM_RC_SUCCESS
    ensures rc != TPM_RC_SUCCESS ==>
              && FeedEnds(tpm.code, start, tpm.log, hSeq, token, max, curPos, false, goal)
              && Holds(tpm.sequences, before, hSeq, token[..curPos])
  {
    ghost var fed, data, log := token[..curPos], token[curPos..curPos + max], tpm.log;
    assert token[..curPos + max] == fed + data;
    FeedHolds(tpm.sequences, before, hSeq, fed, data);
    rc := TssSequenceUpdate(tpm, hSeq, token[curPos..curPos + max]);
    if rc == TPM_RC_SUCCESS {
      FeedGoesOn(tpm.code, start, log, hSeq, token, max, curPos, goal);
    } else if max > MAX_DIGEST_BUFFER {
      FeedNotSent(tpm.code, start, log, hSeq, token, max, curPos, goal);
    } else {
      FeedRefused(tpm.code, start, log, hSeq, token, max, curPos, goal);
    }
  }

  /** The update loop. With pieces of no size only a refusal ends it. */
  method FeedSequence(tpm: Tpm, token: seq<byte>, max: nat, hSeq: nat, ghost before: map<nat, Sequence>)
    returns (complete: bool, curPos: nat)
    requires tpm.Valid() && max < |token| && Holds(tpm.sequences, before, hSeq, [])
    requires max > 0 || exists k :: k >= |tpm.log| && tpm.code(k) != TPM_RC_SUCCESS
    modifies tpm`log, tpm`sequences
    ensures tpm.Valid()
    ensures FeedEnds(tpm.code, old(tpm.log), tpm.log, hSeq, token, max, curPos, complete,
                     FeedGoal(old(tpm.log), hSeq, token, max))
    ensures Holds(tpm.sequences, before, hSeq, token[..curPos])
  {
    complete, curPos := true, 0;
    var bytesLeft := |token|;
    ghost var start, stop: nat := tpm.log, 0;
    if max == 0 {
      stop :| stop >= |tpm.log| && tpm.code(stop) != TPM_RC_SUCCESS;
    }
    ghost var goal := FeedGoal(start, hSeq, token, max);
    FeedStarts(tpm.code, start, hSeq, token, max);
    assert token[..0] == [];
    while bytesLeft > max
      invariant tpm.Valid() && bytesLeft == |token| - curPos >= 0
      invariant Holds(tpm.sequences, before, hSeq, token[..curPos])
      invariant Feeding(tpm.code, start, tpm.log, hSeq, token, max, curPos, goal)
      invariant max == 0 ==> |tpm.log| <= stop
      decreases bytesLeft, stop - |tpm.log|
    {
      var rc := FeedPiece(tpm, token, max, hSeq, curPos, before, start, goal);
      if rc != TPM_RC_SUCCESS {
        complete := false;
        break;
      }
      bytesLeft := bytesLeft - max;
      curPos := curPos + max;
    }
    if complete {
      FeedCompletes(tpm.code, start, tpm.log, hSeq, token, max, curPos, goal);
    }
  }

  /** Of the commands `trace`, leading ones were issued after `start`, up to the first that failed; all of them
      if the token was signed, which it was exactly if none carries too much and all succeed. */
  predicate Concludes(code: nat -> uint32, start: seq<Cmd>, log: seq<Cmd>, trace: seq<Cmd>, carries: bool,
                      signed: bool)
  {
    && start <= log <= start + trace && (signed ==> log == start + trace)
    && (signed <==> carries && AllSucceed(code, |start|, |trace|))
    && (forall i :: |start| <= i < |log| - 1 ==> code(i) == TPM_RC_SUCCESS)
    && (carries && !signed ==> |log| > |start| && code(|log| - 1) != TPM_RC_SUCCESS)
  }

  lemma ConcludesLast(code: nat -> uint32, start: seq<Cmd>, log: seq<Cmd>, trace: seq<Cmd>, last: Cmd, signed: bool)
    requires start <= log && start + trace == log + [last] && AllSucceed(code, |start|, |log| - |start|)
    requires signed <==> code(|log|) == TPM_RC_SUCCESS
    ensures Concludes(code, start, log + [last], trace, true, signed)
  {
    assert |log| + 1 == |start| + |trace|;
  }

  lemma ConcludesFirst(code: nat -> uint32, start: seq<Cmd>, log: seq<Cmd>, first: Cmd, trace: seq<Cmd>, carries: bool,
                       signed: bool)
    requires Concludes(code, start + [first], log, trace, carries, signed) && code(|start|) == TPM_RC_SUCCESS
    ensures Concludes(code, start, log, [first] + trace, carries, signed)
  {
    assert start + [first] + trace == start + ([first] + trace);
  }

  lemma ConcludesAtOnce(code: nat -> uint32, start: seq<Cmd>, first: Cmd, trace: seq<Cmd>, carries: bool)
    requires code(|start|) != TPM_RC_SUCCESS
    ensures Concludes(code, start, start + [first], [first] + trace, carries, false)
  {
    assert start + [first] + trace == start + ([first] + trace);
  }

  /** The outcome of the commands that SignData issued from `start` on. */
  predicate Signed(code: nat -> uint32, start: seq<Cmd>, log: seq<Cmd>, handle: nat, token: seq<byte>, max: nat,
                   signed: bool)
  {
    if max == 0 && token != [] then
      && !signed && start < log && log[|start|] == Start(DPS_ID_KEY_HANDLE)
      && if code(|start|) != TPM_RC_SUCCESS then |log| == |start| + 1
         else FailsIdling(code, start + [Start(DPS_ID_KEY_HANDLE)], log, handle)
    else
      && Concludes(code, start, log, SignTrace(token, max, handle), Carries(token, max), signed)
      && (!Carries(token, max) ==> |log| == |start| + if |token| > max then 1 else 0)
  }

  /** The same from the end of a start that succeeded. */
  predicate Finished(code: nat -> uint32, start: seq<Cmd>, log: seq<Cmd>, handle: nat, token: seq<byte>, max: nat,
                     signed: bool)
  {
    if max == 0 then !signed && FailsIdling(code, start, log, handle)
    else
      && Concludes(code, start, log, Trace(handle, Chunks(token, max)), max <= MAX_DIGEST_BUFFER, signed)
      && (max > MAX_DIGEST_BUFFER ==> log == start)
  }

  lemma StartedSigns(code: nat -> uint32, start: seq<Cmd>, log: seq<Cmd>, handle: nat, token: seq<byte>, max: nat,
                     signed: bool)
    requires max < |token| && code(|start|) == TPM_RC_SUCCESS
    requires Finished(code, start + [Start(DPS_ID_KEY_HANDLE)], log, handle, token, max, signed)
    ensures Signed(code, start, log, handle, token, max, signed)
  {
    if max > 0 {
      ConcludesFirst(code, start, log, Start(DPS_ID_KEY_HANDLE), Trace(handle, Chunks(token, max)),
                     max <= MAX_DIGEST_BUFFER, signed);
    }
  }

  lemma NotStarted(code: nat -> uint32, start: seq<Cmd>, handle: nat, token: seq<byte>, max: nat)
    requires max < |token| && code(|start|) != TPM_RC_SUCCESS
    ensures Signed(code, start, start + [Start(DPS_ID_KEY_HANDLE)], handle, token, max, false)
  {
    if max > 0 {
      ConcludesAtOnce(code, start, Start(DPS_ID_KEY_HANDLE), Trace(handle, Chunks(token, max)),
                      max <= MAX_DIGEST_BUFFER);
    }
  }

  // ----- The same in numbers

  /** Command `j` of those that feed `s` in `k` pieces and complete the sequence. */
  predicate IssuedAt(cmd: Cmd, handle: nat, s: seq<byte>, max: nat, k: nat, j: nat) {
    && j < k && j * max <= |s|
    && if j < k - 1 then j * max + max <= |s| && cmd == Update(handle, s[j * max..j * max + max])
       else cmd == Complete(handle, s[j * max..])
  }

  lemma IssuedLater(cmd: Cmd, handle: nat, s: seq<byte>, max: nat, k: nat, j: nat)
    requires max < |s| && k > 0 && IssuedAt(cmd, handle, s[max..], max, k, j)
    ensures IssuedAt(cmd, handle, s, max, k + 1, j + 1)
  {
    var at := j * max;
    assert (j + 1) * max == at + max;
    assert s[max..][at..] == s[at + max..];
    if j < k - 1 {
      assert s[max..][at..at + max] == s[at + max..at + max + max];
    }
  }

  lemma {:induction false} TraceAt(handle: nat, s: seq<byte>, max: nat, j: nat)
    requires max > 0 && j < |Chunks(s, max)|
    ensures |Trace(handle, Chunks(s, max))| == |Chunks(s, max)|
    ensures IssuedAt(Trace(handle, Chunks(s, max))[j], handle, s, max, |Chunks(s, max)|, j)
    decreases |s|
  {
    TraceLength(handle, Chunks(s, max));
    if |s| > max {
      TraceStep(handle, s, max);
      if j > 0 {
        TraceAt(handle, s[max..], max, j - 1);
        IssuedLater(Trace(handle, Chunks(s, max))[j], handle, s, max, |Chunks(s[max..], max)|, j - 1);
      }
    }
  }

  /** A token that fits one command is signed exactly if it has at most 1024 bytes and the command succeeds; a
      longer one is not sent. */
  lemma ShortInNumbers(code: nat -> uint32, start: seq<Cmd>, log: seq<Cmd>, handle: nat, token: seq<byte>, max: nat,
                       signed: bool)
    requires Signed(code, start, log, handle, token, max, signed) && |token| <= max
    ensures signed <==> |token| <= 1024 && code(|start|) == 0
    ensures log == start + if |token| <= 1024 then [Hmac(0x8100_0100, token)] else []
  {
    assert start + [] == start;
  }

  /** Any other is signed in k pieces of the size of the input buffer, the last of what remains: exactly if
      that size is at most 1024 and all k + 1 commands succeed. The commands are the start, an update for
      each piece but the last, and the completion; none is issued after the first that fails. */
  lemma LongInNumbers(code: nat -> uint32, start: seq<Cmd>, log: seq<Cmd>, handle: nat, token: seq<byte>, max: nat,
                      signed: bool)
    returns (k: nat)
    requires Signed(code, start, log, handle, token, max, signed) && 0 < max < |token|
    ensures k >= 2 && (k - 1) * max < |token| <= k * max
    ensures signed <==> max <= 1024 && forall i :: |start| <= i < |start| + 1 + k ==> code(i) == 0
    ensures start < log && |log| <= |start| + 1 + k && log[|start|] == Start(0x8100_0100)
    ensures forall i :: |start| < i < |log| ==> IssuedAt(log[i], handle, token, max, k, i - |start| - 1)
    ensures forall i :: |start| <= i < |log| - 1 ==> code(i) == 0
    ensures if max > 1024 then |log| == |start| + 1
            else if signed then |log| == |start| + 1 + k
            else code(|log| - 1) != 0
  {
    var c := Chunks(token, max);
    k := |c|;
    ChunksCount(token, max);
    TraceLength(handle, c);
    var trace := SignTrace(token, max, handle);
    assert |trace| == k + 1;
    forall i | |start| < i < |log| ensures IssuedAt(log[i], handle, token, max, k, i - |start| - 1) {
      TraceAt(handle, token, max, i - |start| - 1);
      assert log[i] == (start + trace)[i] == trace[i - |start|];
    }
    if |log| > |start| {
      assert log[|start|] == (start + trace)[|start|];
    }
  }

  /** What SignData leaves in the TPM: a sequence that was started is closed exactly if the token was
      signed, and otherwise stays open with what the successful updates fed it. */
  ghost predicate Leaves(tpm: Tpm, start: nat, handle: nat, token: seq<byte>, before: map<nat, Sequence>, started: bool,
                         signed: bool)
    reads tpm
  {
    if started && !signed then
      var fed := Absorbed(tpm.code, tpm.log, start, handle);
      fed <= token && Holds(tpm.sequences, before, handle, fed) && handle in tpm.sequences
    else tpm.sequences == before && handle !in tpm.sequences
  }

  method FinishSequence(tpm: Tpm, token: seq<byte>, curPos: nat, hSeq: nat, ghost before: map<nat, Sequence>)
    returns (signed: bool, digest: Digest)
    requires tpm.Valid() && curPos <= |token| && |token| - curPos <= MAX_DIGEST_BUFFER
    requires Holds(tpm.sequences, before, hSeq, token[..curPos])
    modifies tpm`log, tpm`sequences
    ensures tpm.Valid() && tpm.log == old(tpm.log) + [Complete(hSeq, token[curPos..])]
    ensures signed <==> tpm.code(|old(tpm.log)|) == TPM_RC_SUCCESS
    ensures signed ==> digest == tpm.hmac(DPS_ID_KEY_HANDLE, token) && tpm.sequences == before
    ensures !signed ==> Holds(tpm.sequences, before, hSeq, token[..curPos])
  {
    assert token == token[..curPos] + token[curPos..];
    FeedHolds(tpm.sequences, before, hSeq, token[..curPos], []);
    var rc;
    rc, digest := TssSequenceComplete(tpm, hSeq, token[curPos..]);
    signed := rc == TPM_RC_SUCCESS;
  }

  lemma FeedFinishes(code: nat -> uint32, start: seq<Cmd>, log: seq<Cmd>, h: nat, token: seq<byte>, max: nat,
                     curPos: nat, signed: bool)
    requires FeedEnds(code, start, log, h, token, max, curPos, true, FeedGoal(start, h, token, max))
    requires signed <==> code(|log|) == TPM_RC_SUCCESS
    ensures Finished(code, start, log + [Complete(h, token[curPos..])], h, token, max, signed)
    ensures FedSoFar(code, start, log + [Complete(h, token[curPos..])], h, token, curPos)
  {
    FeedNothing(code, start, log, h, token, curPos, Complete(h, token[curPos..]));
    if max > 0 {
      ConcludesLast(code, start, log, Trace(h, Chunks(token, max)), Complete(h, token[curPos..]), signed);
    }
  }

  lemma FeedFails(code: nat -> uint32, start: seq<Cmd>, log: seq<Cmd>, h: nat, token: seq<byte>, max: nat,
                  curPos: nat)
    requires FeedEnds(code, start, log, h, token, max, curPos, false, FeedGoal(start, h, token, max))
    ensures Finished(code, start, log, h, token, max, false)
  {
  }

  /** The branch of SignData for tokens that exceed one command, after the start. */
  method RunSequence(tpm: Tpm, token: seq<byte>, max: nat, hSeq: nat, ghost before: map<nat, Sequence>)
    returns (signed: bool, digest: Digest)
    requires tpm.Valid() && max < |token| && Holds(tpm.sequences, before, hSeq, [])
    requires max > 0 || exists k :: k >= |tpm.log| && tpm.code(k) != TPM_RC_SUCCESS
    modifies tpm`log, tpm`sequences
    ensures tpm.Valid()
    ensures Finished(tpm.code, old(tpm.log), tpm.log, hSeq, token, max, signed)
    ensures signed ==> digest == tpm.hmac(DPS_ID_KEY_HANDLE, token)
    ensures Leaves(tpm, |old(tpm.log)|, hSeq, token, before, true, signed)
  {
    signed, digest := false, NO_DIGEST;
    var complete, curPos := FeedSequence(tpm, token, max, hSeq, before);
    if complete {
      ghost var fed := tpm.log;
      signed, digest := FinishSequence(tpm, token, curPos, hSeq, before);
      FeedFinishes(tpm.code, old(tpm.log), fed, hSeq, token, max, curPos, signed);
    } else {
      FeedFails(tpm.code, old(tpm.log), tpm.log, hSeq, token, max, curPos);
    }
  }

  /** That branch from its start. */
  method SignInSequence(tpm: Tpm, token: seq<byte>, max: nat) returns (signed: bool, digest: Digest)
    requires tpm.Valid() && max < |token|
    requires max > 0 || exists k :: k >= |tpm.log| && tpm.code(k) != TPM_RC_SUCCESS
    modifies tpm
    ensures tpm.Valid()
    ensures Signed(tpm.code, old(tpm.log), tpm.log, old(tpm.nextHandle), token, max, signed)
    ensures signed ==> digest == tpm.hmac(DPS_ID_KEY_HANDLE, token)
    ensures Leaves(tpm, |old(tpm.log)| + 1, old(tpm.nextHandle), token, old(tpm.sequences),
                   tpm.code(|old(tpm.log)|) == TPM_RC_SUCCESS, signed)
  {
    signed, digest := false, NO_DIGEST;
    ghost var start, before, h := tpm.log, tpm.sequences, tpm.nextHandle;
    var rc, hSeq := tpm.HmacStart(DPS_ID_KEY_HANDLE);
    if rc == TPM_RC_SUCCESS {
      signed, digest := RunSequence(tpm, token, max, hSeq, before);
      StartedSigns(tpm.code, start, tpm.log, h, token, max, signed);
    } else {
      NotStarted(tpm.code, start, h, token, max);
    }
  }

  /** The choice between one command and a sequence. */
  method SignToken(tpm: Tpm, token: seq<byte>, max: nat) returns (signed: bool, digest: Digest)
    requires tpm.Valid()
    requires max > 0 || token == [] || exists k :: k >= |tpm.log| && tpm.code(k) != TPM_RC_SUCCESS
    modifies tpm
    ensures tpm.Valid()
    ensures Signed(tpm.code, old(tpm.log), tpm.log, old(tpm.nextHandle), token, max, signed)
    ensures signed ==> digest == tpm.hmac(DPS_ID_KEY_HANDLE, token)
    ensures Leaves(tpm, |old(tpm.log)| + 1, old(tpm.nextHandle), token, old(tpm.sequences),
                   |token| > max && tpm.code(|old(tpm.log)|) == TPM_RC_SUCCESS, signed)
  {
    if |token| > max {
      signed, digest := SignInSequence(tpm, token, max);
    } else {
      var rc;
      rc, digest := TssHmac(tpm, DPS_ID_KEY_HANDLE, token);
      signed := rc == TPM_RC_SUCCESS;
    }
  }

  /** SignData. With a reported input buffer of no size it ends only if some later command fails. */
  method SignData(tpm: Tpm, tokenData: array<byte>, tokenSize: uint32, signatureBuffer: array<byte>, sigBufSize: uint32)
    returns (result: uint32)
    requires tpm.Valid() && tokenSize <= tokenData.Length && sigBufSize <= signatureBuffer.Length
    requires || TpmProperty(tpm.code(|tpm.log|), tpm.capability, 0x10D) > 0 || tokenSize == 0
             || exists k :: k > |tpm.log| && tpm.code(k) != TPM_RC_SUCCESS
    modifies tpm, signatureBuffer
    ensures tpm.Valid() && (result == 0 || result == 32)
    ensures sigBufSize < 32 ==>
              && result == 32 && signatureBuffer[..] == old(signatureBuffer[..])
              && tpm.log == old(tpm.log) && tpm.sequences == old(tpm.sequences)
    ensures sigBufSize >= 32 ==>
              var token := old(tokenData[..tokenSize]);
              var max := TpmProperty(tpm.code(|old(tpm.log)|), tpm.capability, 0x10D);
              var n := |old(tpm.log)| + 1;
              && Signed(tpm.code, old(tpm.log) + [GetCapability(0x10D)], tpm.log, old(tpm.nextHandle),
                        token, max, result == 32)
              && signatureBuffer[..]
                 == (if result == 0 then old(signatureBuffer[..])
                     else tpm.hmac(0x8100_0100, token) + old(signatureBuffer[32..]))
              && Leaves(tpm, n + 1, old(tpm.nextHandle), token, old(tpm.sequences),
                        |token| > max && tpm.code(n) == TPM_RC_SUCCESS, result == 32)
  {
    if sigBufSize < SHA256_DIGEST_SIZE { return SHA256_DIGEST_SIZE; }
    var maxInputBuffer := GetTpmProperty(tpm, TPM_PT_INPUT_BUFFER);
    var token := tokenData[..tokenSize];
    var signed, digest := SignToken(tpm, token, maxInputBuffer);
    if signed {
      forall i | 0 <= i < SHA256_DIGEST_SIZE {
        signatureBuffer[i] := digest[i];
      }
      result := SHA256_DIGEST_SIZE;
    } else {
      result := 0;
    }
  }
}
