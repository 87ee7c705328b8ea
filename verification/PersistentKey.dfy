/** TSS_CreatePersistentKey: a transaction of up to four commands on the TPM's object table. */
module PersistentKey {
  import opened Bytes
  import opened Wire
  import opened PublicArea

  const TPM_RC_VALUE: uint32 := 0x84
  const TPM_RC_HANDLE: uint32 := 0x8B
  const TPM_RC_NV_DEFINED: uint32 := 0x14C
  const TPM_RC_OBJECT_MEMORY: uint32 := 0x902

  predicate IsTransient(h: uint32) {
    0x8000_0000 <= h < 0x8100_0000
  }

  predicate IsPersistent(h: uint32) {
    0x8100_0000 <= h < 0x8200_0000
  }

  /** The objects a TPM holds, by handle. */
  datatype Objects = Objects(persistent: map<uint32, Public>, transient: map<uint32, Public>) {
    predicate Ok() {
      && (forall h :: h in persistent ==> IsPersistent(h))
      && (forall h :: h in transient ==> IsTransient(h))
    }

    predicate Has(h: uint32) {
      h in persistent || h in transient
    }

    function Get(h: uint32): Public
      requires Has(h)
    {
      if h in persistent then persistent[h] else transient[h]
    }
  }

  // ----- The commands: `c` is a failure the TPM may report for its own reasons, or success

  function ReadRc(o: Objects, c: uint32, h: uint32): uint32 {
    if c != TPM_RC_SUCCESS then c else if o.Has(h) then TPM_RC_SUCCESS else TPM_RC_HANDLE
  }

  function CreateRc(o: Objects, c: uint32, slot: uint32): uint32 {
    if c != TPM_RC_SUCCESS then c
    else if IsTransient(slot) && slot !in o.transient then TPM_RC_SUCCESS
    else TPM_RC_OBJECT_MEMORY
  }

  function EvictRc(o: Objects, c: uint32, loaded: uint32, persistent: uint32): uint32 {
    if c != TPM_RC_SUCCESS then c
    else if !IsPersistent(persistent) then TPM_RC_VALUE
    else if loaded in o.transient then (if persistent in o.persistent then TPM_RC_NV_DEFINED else TPM_RC_SUCCESS)
    else if loaded == persistent && loaded in o.persistent then TPM_RC_SUCCESS
    else TPM_RC_HANDLE
  }

  /** A transient object is copied; a persistent one is removed. */
  function Evicted(o: Objects, loaded: uint32, persistent: uint32): Objects
    requires EvictRc(o, TPM_RC_SUCCESS, loaded, persistent) == TPM_RC_SUCCESS
  {
    if loaded in o.transient then o.(persistent := o.persistent[persistent := o.transient[loaded]])
    else o.(persistent := o.persistent - {loaded})
  }

  function FlushRc(o: Objects, c: uint32, h: uint32): uint32 {
    if c != TPM_RC_SUCCESS then c else if h in o.transient then TPM_RC_SUCCESS else TPM_RC_HANDLE
  }

  /** A TPM whose i-th command may fail with `code(i)`, and whose i-th command would load an object
      into `slot(i)`; `derive` completes a public template. */
  class Tpm {
    const code: nat -> uint32
    const slot: nat -> uint32
    const derive: Public -> Public
    var objects: Objects
    var issued: nat

    constructor (code: nat -> uint32, slot: nat -> uint32, derive: Public -> Public, objects: Objects)
      requires objects.Ok()
      ensures this.code == code && this.slot == slot && this.derive == derive
      ensures this.objects == objects && issued == 0
    {
      this.code, this.slot, this.derive, this.objects, issued := code, slot, derive, objects, 0;
    }

    method ReadPublic(h: uint32) returns (rc: uint32, outPub: Public)
      modifies this`issued
      ensures issued == old(issued) + 1 && rc == ReadRc(objects, code(old(issued)), h)
      ensures rc == TPM_RC_SUCCESS ==> objects.Has(h) && outPub == objects.Get(h)
    {
      rc := ReadRc(objects, code(issued), h);
      outPub := if rc == TPM_RC_SUCCESS then objects.Get(h) else NO_PUBLIC;
      issued := issued + 1;
    }

    method CreatePrimary(inPub: Public) returns (rc: uint32, h: uint32, outPub: Public)
      modifies this
      ensures issued == old(issued) + 1 && h == slot(old(issued))
      ensures rc == CreateRc(old(objects), code(old(issued)), h)
      ensures rc != TPM_RC_SUCCESS ==> objects == old(objects)
      ensures rc == TPM_RC_SUCCESS ==>
                outPub == derive(inPub) && objects == old(objects).(transient := old(objects).transient[h := outPub])
    {
      h := slot(issued);
      rc := CreateRc(objects, code(issued), h);
      outPub := NO_PUBLIC;
      if rc == TPM_RC_SUCCESS {
        outPub := derive(inPub);
        objects := objects.(transient := objects.transient[h := outPub]);
      }
      issued := issued + 1;
    }

    method EvictControl(loaded: uint32, persistent: uint32) returns (rc: uint32)
      modifies this
      ensures issued == old(issued) + 1 && rc == EvictRc(old(objects), code(old(issued)), loaded, persistent)
      ensures objects == if rc == TPM_RC_SUCCESS then Evicted(old(objects), loaded, persistent) else old(objects)
    {
      rc := EvictRc(objects, code(issued), loaded, persistent);
      if rc == TPM_RC_SUCCESS {
        objects := Evicted(objects, loaded, persistent);
      }
      issued := issued + 1;
    }

    method FlushContext(h: uint32) returns (rc: uint32)
      modifies this
      ensures issued == old(issued) + 1 && rc == FlushRc(old(objects), code(old(issued)), h)
      ensures objects == if rc != TPM_RC_SUCCESS then old(objects)
                         else old(objects).(transient := old(objects).transient - {h})
    {
      rc := FlushRc(objects, code(issued), h);
      if rc == TPM_RC_SUCCESS {
        objects := objects.(transient := objects.transient - {h});
      }
      issued := issued + 1;
    }
  }

  // ----- The transaction as a function of the table and the four answers

  /** The answers to the four commands, the handle that CreatePrimary would use and the public area
      it would return. */
  datatype Answers = Answers(read: uint32, create: uint32, evict: uint32, flush: uint32, slot: uint32, created: Public)

  datatype Outcome = Outcome(result: uint32, outPub: Option<Public>, objects: Objects)

  function CreatePersistentKey(o: Objects, request: uint32, a: Answers): Outcome {
    var rc := ReadRc(o, a.read, request);
    if rc == TPM_RC_SUCCESS then Outcome(request, Some(o.Get(request)), o)
    else if rc != TPM_RC_HANDLE then Outcome(0, None, o)
    else if CreateRc(o, a.create, a.slot) != TPM_RC_SUCCESS then Outcome(0, None, o)
    else
      var loaded := o.(transient := o.transient[a.slot := a.created]);
      if EvictRc(loaded, a.evict, a.slot, request) != TPM_RC_SUCCESS then Outcome(0, Some(a.created), loaded)
      else
        var kept := Evicted(loaded, a.slot, request);
        if FlushRc(kept, a.flush, a.slot) != TPM_RC_SUCCESS then Outcome(0, Some(a.created), kept)
        else Outcome(request, Some(a.created), kept.(transient := kept.transient - {a.slot}))
  }

  // ----- What happens when, by the answers and the tables

  /** The read succeeds: it is answered so, and the handle names an object. */
  predicate Found(o: Objects, request: uint32, a: Answers) {
    a.read == 0 && (request in o.persistent || request in o.transient)
  }

  /** The read is answered that there is no such handle. */
  predicate Missing(o: Objects, request: uint32, a: Answers) {
    a.read == 0x8B || (a.read == 0 && request !in o.persistent && request !in o.transient)
  }

  /** The key is then created in a free transient slot. */
  predicate Loaded(o: Objects, request: uint32, a: Answers) {
    && Missing(o, request, a) && a.create == 0
    && 0x8000_0000 <= a.slot < 0x8100_0000 && a.slot !in o.transient
  }

  /** And made persistent under a free persistent handle. */
  predicate Stored(o: Objects, request: uint32, a: Answers) {
    && Loaded(o, request, a) && a.evict == 0
    && 0x8100_0000 <= request < 0x8200_0000 && request !in o.persistent
  }

  /** Exactly what each call does: result, public area and tables in every case. */
  lemma KeyExactly(o: Objects, request: uint32, a: Answers)
    ensures CreatePersistentKey(o, request, a)
            == if Found(o, request, a) then
                 Outcome(request,
                         Some(if request in o.persistent then o.persistent[request] else o.transient[request]), o)
               else if !Loaded(o, request, a) then Outcome(0, None, o)
               else if !Stored(o, request, a) then
                 Outcome(0, Some(a.created), Objects(o.persistent, o.transient[a.slot := a.created]))
               else if a.flush != 0 then
                 Outcome(0, Some(a.created),
                         Objects(o.persistent[request := a.created], o.transient[a.slot := a.created]))
               else Outcome(request, Some(a.created), Objects(o.persistent[request := a.created], o.transient))
  {
    assert a.slot !in o.transient ==> o.transient[a.slot := a.created] - {a.slot} == o.transient;
  }

  /** The key is returned exactly if the read finds it, or the read is answered that there is none and the
      other three commands succeed. */
  lemma KeyIsReturnedIff(o: Objects, request: uint32, a: Answers)
    ensures var result := CreatePersistentKey(o, request, a).result;
            && (request != 0 ==>
                  (result == request <==> Found(o, request, a) || (Stored(o, request, a) && a.flush == 0)))
            && (result == 0 || result == request)
  {
    KeyExactly(o, request, a);
  }

  /** How many commands a call issues: none after the first that fails, except after a read that finds no
      such handle. */
  function CommandCount(o: Objects, request: uint32, a: Answers): nat {
    if !Missing(o, request, a) then 1
    else if !Loaded(o, request, a) then 2
    else if !Stored(o, request, a) then 3
    else 4
  }

  /** A nonzero result is the requested handle: its object's public area was returned, and the loaded
      transient objects are those from before the call. The handle is persistent exactly if it is one
      of the persistent handles: a transient object is found and returned as it is. */
  lemma SuccessIsPersistent(o: Objects, request: uint32, a: Answers)
    requires o.Ok() && CreatePersistentKey(o, request, a).result != 0
    ensures var x := CreatePersistentKey(o, request, a);
            && x.objects.Ok() && x.result == request && x.objects.transient == o.transient
            && x.objects.Has(request) && x.outPub == Some(x.objects.Get(request))
            && (request in x.objects.persistent <==> IsPersistent(request))
  {
    var x := CreatePersistentKey(o, request, a);
    if ReadRc(o, a.read, request) != TPM_RC_SUCCESS {
      assert o.transient[a.slot := a.created] - {a.slot} == o.transient;
    }
  }

  /** Whatever happens, no persistent object is replaced or lost, and at most the requested one is
      added; at most one transient object is added, and none is lost. */
  lemma NothingIsLost(o: Objects, request: uint32, a: Answers)
    requires o.Ok()
    ensures var x := CreatePersistentKey(o, request, a);
            && x.objects.Ok()
            && (x.objects.persistent == o.persistent
                || (request !in o.persistent && x.objects.persistent == o.persistent[request := a.created]))
            && (x.objects.transient == o.transient
                || (a.slot !in o.transient && x.objects.transient == o.transient[a.slot := a.created]))
  {
    assert a.slot !in o.transient ==> o.transient[a.slot := a.created] - {a.slot} == o.transient;
  }

  /** A failed call leaves the new key loaded exactly when it failed after creating it, and leaves it
      persistent as well exactly when it was the flush that failed. */
  lemma FailureLeavesBehind(o: Objects, request: uint32, a: Answers)
    requires o.Ok() && CreatePersistentKey(o, request, a).result == 0
    ensures var x := CreatePersistentKey(o, request, a);
            var created := ReadRc(o, a.read, request) == TPM_RC_HANDLE
                           && CreateRc(o, a.create, a.slot) == TPM_RC_SUCCESS;
            var evicted := created && a.evict == TPM_RC_SUCCESS && IsPersistent(request) && request !in o.persistent;
            && (x.objects.transient != o.transient <==> created)
            && (x.objects.persistent != o.persistent <==> evicted)
            && (evicted ==> a.flush != TPM_RC_SUCCESS && request in x.objects.persistent)
  {
    var loaded := o.transient[a.slot := a.created];
    assert a.slot in loaded;
    assert request !in o.persistent ==> request in o.persistent[request := a.created];
  }

  /** After a call that failed because of the flush, the key is persistent and also still loaded; a
      second call finds the key and succeeds, and the loaded copy stays. */
  lemma RetryFindsKey(o: Objects, request: uint32, a: Answers, b: Answers)
    requires o.Ok() && ReadRc(o, a.read, request) == TPM_RC_HANDLE && CreateRc(o, a.create, a.slot) == TPM_RC_SUCCESS
    requires a.evict == TPM_RC_SUCCESS && IsPersistent(request) && request !in o.persistent
    requires a.flush != TPM_RC_SUCCESS && b.read == TPM_RC_SUCCESS
    ensures var left := Objects(o.persistent[request := a.created], o.transient[a.slot := a.created]);
            && CreatePersistentKey(o, request, a) == Outcome(0, Some(a.created), left)
            && CreatePersistentKey(left, request, b) == Outcome(request, Some(a.created), left)
  {
  }

  /** A handle of a loaded object is returned as if the key were persistent, and nothing is made
      persistent. */
  lemma TransientIsReturned(o: Objects, request: uint32, a: Answers)
    requires o.Ok() && request in o.transient && a.read == TPM_RC_SUCCESS
    ensures var x := CreatePersistentKey(o, request, a);
            x.result == request != 0 && x.objects == o && request !in x.objects.persistent
  {
  }

  // ----- Whole runs

  datatype Call = Call(request: uint32, answers: Answers)

  function After(o: Objects, calls: seq<Call>): Objects
    decreases |calls|
  {
    if calls == [] then o else After(CreatePersistentKey(o, calls[0].request, calls[0].answers).objects, calls[1..])
  }

  function Failures(o: Objects, calls: seq<Call>): nat
    decreases |calls|
  {
    if calls == [] then 0
    else
      var x := CreatePersistentKey(o, calls[0].request, calls[0].answers);
      (if x.result == 0 then 1 else 0) + Failures(x.objects, calls[1..])
  }

  predicate Extends(a: map<uint32, Public>, b: map<uint32, Public>) {
    forall h :: h in a ==> h in b && b[h] == a[h]
  }

  /** Over any run of calls, with any answers of the TPM: every object from before the run is still
      there and the same, and at most one transient object has been left for each call that failed. */
  lemma {:induction false} RunsKeepObjects(o: Objects, calls: seq<Call>)
    requires o.Ok()
    ensures var x := After(o, calls);
            && x.Ok() && Extends(o.persistent, x.persistent) && Extends(o.transient, x.transient)
            && |x.transient| <= |o.transient| + Failures(o, calls)
    decreases |calls|
  {
    if calls != [] {
      var request, a := calls[0].request, calls[0].answers;
      var x := CreatePersistentKey(o, request, a);
      NothingIsLost(o, request, a);
      if x.result != 0 {
        SuccessIsPersistent(o, request, a);
      }
      assert a.slot !in o.transient ==> |o.transient[a.slot := a.created]| == |o.transient| + 1;
      RunsKeepObjects(x.objects, calls[1..]);
    }
  }

  /** A key that was returned once is returned for good: after any further calls, a call for it that
      can read it returns the same handle and public area and changes nothing. */
  lemma KeysLast(o: Objects, request: uint32, a: Answers, later: seq<Call>, b: Answers)
    requires o.Ok() && CreatePersistentKey(o, request, a).result != 0
    requires IsPersistent(request) && b.read == TPM_RC_SUCCESS
    ensures var x := CreatePersistentKey(o, request, a);
            var y := After(x.objects, later);
            CreatePersistentKey(y, request, b) == Outcome(request, x.outPub, y)
  {
    SuccessIsPersistent(o, request, a);
    RunsKeepObjects(CreatePersistentKey(o, request, a).objects, later);
  }

  /** TSS_CreatePersistentKey. */
  method TssCreatePersistentKey(tpm: Tpm, request: uint32, inPub: Public) returns (result: uint32, outPub: Public)
    modifies tpm
    ensures var n := old(tpm.issued);
            var a := Answers(tpm.code(n), tpm.code(n + 1), tpm.code(n + 2), tpm.code(n + 3), tpm.slot(n + 1),
                             tpm.derive(inPub));
            var x := CreatePersistentKey(old(tpm.objects), request, a);
            && result == x.result && tpm.objects == x.objects && (x.outPub.Some? ==> outPub == x.outPub.value)
            && tpm.issued == n + CommandCount(old(tpm.objects), request, a)
            && (request != 0 ==>
                  (result == request <==> || Found(old(tpm.objects), request, a)
                                          || (Stored(old(tpm.objects), request, a) && a.flush == 0)))
            && (result == 0 || result == request)
  {
    ghost var n, o := tpm.issued, tpm.objects;
    ghost var a := Answers(tpm.code(n), tpm.code(n + 1), tpm.code(n + 2), tpm.code(n + 3), tpm.slot(n + 1),
                           tpm.derive(inPub));
    KeyIsReturnedIff(o, request, a);
    var rc;
    rc, outPub := tpm.ReadPublic(request);
    if rc == TPM_RC_SUCCESS {
      result := request;
    } else if rc != TPM_RC_HANDLE {
      result := 0;
    } else {
      rc, result, outPub := tpm.CreatePrimary(inPub);
      if rc != TPM_RC_SUCCESS {
        result := 0;
      } else {
        rc := tpm.EvictControl(result, request);
        if rc != TPM_RC_SUCCESS {
          result := 0;
        } else {
          rc := tpm.FlushContext(result);
          if rc != TPM_RC_SUCCESS {
            result := 0;
          } else {
            result := request;
          }
        }
      }
    }
  }
}
