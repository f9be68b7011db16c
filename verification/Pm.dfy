/** Power management: the entity list, the rollback of a half-done suspend, and the
    cap on timeout-driven reprobes (src/t7xx_pci.c:293-326, 401-483, 499-516, 547-717). */
module Pm {
  import opened Errno

  const ENTITY_ID_INVALID := 3
  const MAX_RESUME_REPROBE_ATTEMPTS := 3

  /** The callbacks of struct md_pm_entity. */
  datatype Callback = SuspendCb | SuspendLateCb | ResumeEarlyCb | ResumeCb

  /** struct md_pm_entity: which callbacks it has. */
  datatype Entity = Entity(id: nat, callbacks: set<Callback>)

  datatype PmState = PmException | PmInit | PmSuspended | PmResumed

  datatype Call = Call(cb: Callback, id: nat)

  // ----- the entity list -----

  ghost predicate UniqueIds(es: seq<Entity>) {
    forall i, j :: 0 <= i < j < |es| ==> es[i].id != es[j].id
  }

  /** The list without entity i, in the same order. */
  ghost predicate Without(es: seq<Entity>, i: nat, e: Entity, after: seq<Entity>) {
    i < |es| && es[i] == e && after == es[..i] + es[i + 1..]
  }

  /** Calls of one kind over a list, in list order, to those that have the callback. */
  function Calls(es: seq<Entity>, cb: Callback): seq<Call> {
    if es == [] then []
    else
      var e := es[|es| - 1];
      Calls(es[..|es| - 1], cb) + if cb in e.callbacks then [Call(cb, e.id)] else []
  }

  lemma CallsSnoc(es: seq<Entity>, i: nat, cb: Callback)
    requires i < |es|
    ensures Calls([], cb) == []
    ensures Calls(es[..i + 1], cb) == Calls(es[..i], cb) + if cb in es[i].callbacks then [Call(cb, es[i].id)] else []
  {
    assert es[..i + 1][..i] == es[..i];
  }

  /** Each entity with the callback is called, after all those before it in the list
      and before all those behind it, and nothing else is. */
  lemma {:induction false} CallsExact(es: seq<Entity>, cb: Callback, i: nat)
    requires i < |es|
    ensures |Calls(es[..i], cb)| <= |Calls(es, cb)| && Calls(es[..i], cb) <= Calls(es, cb)
    ensures cb in es[i].callbacks ==>
              |Calls(es[..i], cb)| < |Calls(es, cb)| && Calls(es, cb)[|Calls(es[..i], cb)|] == Call(cb, es[i].id)
    ensures |Calls(es[..i + 1], cb)| == |Calls(es[..i], cb)| + if cb in es[i].callbacks then 1 else 0
  {
    var k := |es| - 1;
    CallsSnoc(es, i, cb);
    if i < k {
      CallsExact(es[..k], cb, i);
      assert es[..k][..i] == es[..i];
    } else {
      assert es[..i + 1] == es;
    }
  }

  /** The same list of calls, seen from the entities' side. */
  function Undo(calls: seq<Call>): (r: seq<nat>)
    ensures |r| == |calls|
  {
    seq(|calls|, i requires 0 <= i < |calls| => calls[i].id)
  }

  lemma UndoSnoc(es: seq<Entity>)
    requires es != []
    ensures var k := |es| - 1;
            && Undo(Calls(es, SuspendCb)) ==
               Undo(Calls(es[..k], SuspendCb)) + (if SuspendCb in es[k].callbacks then [es[k].id] else [])
            && Undo(Calls(es, ResumeCb)) ==
               Undo(Calls(es[..k], ResumeCb)) + (if ResumeCb in es[k].callbacks then [es[k].id] else [])
  {
    var k := |es| - 1;
    UndoConcat(Calls(es[..k], SuspendCb), if SuspendCb in es[k].callbacks then [Call(SuspendCb, es[k].id)] else []);
    UndoConcat(Calls(es[..k], ResumeCb), if ResumeCb in es[k].callbacks then [Call(ResumeCb, es[k].id)] else []);
    hide Undo;
    UndoOne(Call(SuspendCb, es[k].id));
    UndoOne(Call(ResumeCb, es[k].id));
  }

  lemma UndoConcat(a: seq<Call>, b: seq<Call>)
    ensures Undo(a + b) == Undo(a) + Undo(b)
  {
  }

  lemma UndoOne(c: Call)
    ensures Undo([c]) == [c.id] && Undo([]) == []
  {
  }

  lemma {:induction false} NotCalled(es: seq<Entity>, b: nat)
    requires forall i :: 0 <= i < |es| ==> es[i].id != b
    ensures b !in Undo(Calls(es, SuspendCb)) && b !in Undo(Calls(es, ResumeCb))
  {
    if es != [] {
      UndoSnoc(es);
      NotCalled(es[..|es| - 1], b);
    }
  }

  /** Resuming a list undoes suspending it, entity by entity in list order, exactly
      when each entity has both callbacks or neither. This rests on unique ids. */
  lemma {:induction false} UndoExact(es: seq<Entity>)
    requires UniqueIds(es)
    ensures Undo(Calls(es, ResumeCb)) == Undo(Calls(es, SuspendCb)) <==>
            forall i :: 0 <= i < |es| ==> (SuspendCb in es[i].callbacks <==> ResumeCb in es[i].callbacks)
  {
    if es != [] {
      hide Undo;
      var k := |es| - 1;
      var init, e := es[..k], es[k];
      UndoExact(init);
      UndoSnoc(es);
      NotCalled(init, e.id);
      LastTells(Undo(Calls(init, SuspendCb)), Undo(Calls(init, ResumeCb)), e.id,
                SuspendCb in e.callbacks, ResumeCb in e.callbacks);
      assert forall i :: 0 <= i < k ==> init[i] == es[i];
    }
  }

  lemma LastTells(s: seq<nat>, r: seq<nat>, b: nat, hasS: bool, hasR: bool)
    requires b !in s && b !in r
    ensures r + (if hasR then [b] else []) == s + (if hasS then [b] else []) <==> r == s && hasS == hasR
  {
    var x, y := r + (if hasR then [b] else []), s + (if hasS then [b] else []);
    assert (b in x) == hasR && (b in y) == hasS;
    assert x[..|r|] == r && y[..|s|] == s;
  }

  /** How far a suspend pass gets: the index of the first refusal, or the length. */
  function FirstFailure(es: seq<Entity>, answers: seq<int>): (k: nat)
    ensures k <= |es|
    ensures k < |es| ==> Refuses(es, answers, k)
    ensures forall i :: 0 <= i < k ==> !Refuses(es, answers, i)
  {
    if es == [] then 0
    else
      var k := FirstFailure(es[..|es| - 1], answers);
      assert forall i :: 0 <= i < |es| - 1 ==> Refuses(es[..|es| - 1], answers, i) == Refuses(es, answers, i);
      if k < |es| - 1 then k
      else if Refuses(es, answers, |es| - 1) then |es| - 1 else |es|
  }

  predicate Refuses(es: seq<Entity>, answers: seq<int>, i: nat)
    requires i < |es|
  {
    (SuspendCb in es[i].callbacks) && i < |answers| && answers[i] != 0
  }

  /** Where the abort loop stops: the first entity with an id, or the end. */
  function FirstWithId(es: seq<Entity>, id: nat): (k: nat)
    ensures k <= |es|
    ensures k < |es| ==> es[k].id == id
    ensures forall i :: 0 <= i < k ==> es[i].id != id
  {
    if es == [] then 0
    else
      var k := FirstWithId(es[..|es| - 1], id);
      if k < |es| - 1 then k else if es[|es| - 1].id == id then |es| - 1 else |es|
  }

  /** The last entity with a callback; -1 if there is none. */
  function LastWith(es: seq<Entity>, cb: Callback): (i: int)
    ensures i == -1 || (0 <= i < |es| && cb in es[i].callbacks)
    ensures forall j :: 0 <= j < |es| && i < j ==> cb !in es[j].callbacks
  {
    if es == [] then -1
    else if cb in es[|es| - 1].callbacks then |es| - 1
    else LastWith(es[..|es| - 1], cb)
  }

  lemma LastWithSnoc(es: seq<Entity>, i: nat, cb: Callback)
    requires i < |es|
    ensures LastWith([], cb) == -1
    ensures LastWith(es[..i + 1], cb) == if cb in es[i].callbacks then i else LastWith(es[..i], cb)
  {
    assert es[..i + 1][..i] == es[..i];
  }

  /** The answer of entity i, 0 for none. */
  function AnswerOf(rets: seq<int>, i: int): int {
    if 0 <= i < |rets| then rets[i] else 0
  }

  /** Nobody refuses exactly when every suspend callback answers 0. */
  lemma NobodyRefuses(es: seq<Entity>, answers: seq<int>)
    ensures FirstFailure(es, answers) == |es| <==>
            forall i :: 0 <= i < |es| && i < |answers| && SuspendCb in es[i].callbacks ==> answers[i] == 0
  {
    hide FirstFailure;
    var k := FirstFailure(es, answers);
    if k == |es| {
      forall i | 0 <= i < |es| && i < |answers| && SuspendCb in es[i].callbacks ensures answers[i] == 0 {
        assert !Refuses(es, answers, i);
      }
    }
  }

  // ----- reprobe attempts -----

  /** How one resume ended. */
  datatype Attempt =
    | NoHandshake      // ended before the resume request
    | TimeoutReprobe   // a request timed out and the device was reprobed
    | GaveUp           // a request timed out and the cap was reached
    | Completed

  function CountAfter(count: nat, a: Attempt): nat {
    match a
    case NoHandshake => count
    case TimeoutReprobe => count + 1
    case GaveUp => count
    case Completed => 0
  }

  function CountOf(run: seq<Attempt>): nat {
    if run == [] then 0 else CountAfter(CountOf(run[..|run| - 1]), run[|run| - 1])
  }

  /** The runs the code allows: reprobe below the cap, give up at it. */
  predicate LegalRun(run: seq<Attempt>) {
    run == [] ||
    var count := CountOf(run[..|run| - 1]);
    && LegalRun(run[..|run| - 1])
    && (run[|run| - 1].TimeoutReprobe? ==> count < MAX_RESUME_REPROBE_ATTEMPTS)
    && (run[|run| - 1].GaveUp? ==> count >= MAX_RESUME_REPROBE_ATTEMPTS)
  }

  lemma RunSnoc(run: seq<Attempt>, a: Attempt)
    ensures CountOf(run + [a]) == CountAfter(CountOf(run), a)
    ensures LegalRun(run + [a]) ==
            (LegalRun(run)
             && (a.TimeoutReprobe? ==> CountOf(run) < MAX_RESUME_REPROBE_ATTEMPTS)
             && (a.GaveUp? ==> CountOf(run) >= MAX_RESUME_REPROBE_ATTEMPTS))
  {
    assert (run + [a])[..|run|] == run;
  }

  /** The counter never exceeds the cap. */
  lemma {:induction false} CountCapped(run: seq<Attempt>)
    requires LegalRun(run)
    ensures CountOf(run) <= MAX_RESUME_REPROBE_ATTEMPTS
  {
    if run != [] {
      CountCapped(run[..|run| - 1]);
    }
  }

  /** The attempts that reached the handshake. */
  function Handshakes(run: seq<Attempt>): seq<Attempt> {
    if run == [] then []
    else
      var a := run[|run| - 1];
      Handshakes(run[..|run| - 1]) + if a.NoHandshake? then [] else [a]
  }

  /** If the last m handshakes up to a point all reprobed, the counter shows it. */
  lemma {:induction false} ReprobesCounted(run: seq<Attempt>, m: nat)
    requires LegalRun(run) && m <= |Handshakes(run)|
    requires forall i :: |Handshakes(run)| - m <= i < |Handshakes(run)| ==> Handshakes(run)[i].TimeoutReprobe?
    ensures CountOf(run) >= m
  {
    if run != [] && m > 0 {
      var k := |run| - 1;
      var init := Handshakes(run[..k]);
      if run[k].NoHandshake? {
        assert Handshakes(run) == init;
        ReprobesCounted(run[..k], m);
      } else {
        assert Handshakes(run)[|init|] == run[k];
        assert Handshakes(run) == init + [run[k]];
        forall i | |init| - (m - 1) <= i < |init| ensures init[i].TimeoutReprobe? {
          assert init[i] == Handshakes(run)[i];
        }
        ReprobesCounted(run[..k], m - 1);
      }
    }
  }

  lemma {:induction false} HandshakesPrefix(run: seq<Attempt>, j: nat)
    requires LegalRun(run) && j <= |Handshakes(run)|
    ensures exists k :: 0 <= k <= |run| && LegalRun(run[..k]) && Handshakes(run[..k]) == Handshakes(run)[..j]
  {
    if j == |Handshakes(run)| {
      assert run[..|run|] == run;
    } else {
      var init := run[..|run| - 1];
      HandshakesPrefix(init, j);
      var k :| 0 <= k <= |init| && LegalRun(init[..k]) && Handshakes(init[..k]) == Handshakes(init)[..j];
      assert init[..k] == run[..k];
      assert Handshakes(init)[..j] == Handshakes(run)[..j];
    }
  }

  /** Among any four consecutive attempts that reach the handshake, at least one
      does not end in a timeout-driven reprobe. */
  lemma OneOfFour(run: seq<Attempt>, i: nat)
    requires LegalRun(run) && i + 4 <= |Handshakes(run)|
    ensures exists j :: i <= j < i + 4 && !Handshakes(run)[j].TimeoutReprobe?
  {
    var h := Handshakes(run);
    if forall j :: i <= j < i + 4 ==> h[j].TimeoutReprobe? {
      HandshakesPrefix(run, i + 4);
      var k :| 0 <= k <= |run| && LegalRun(run[..k]) && Handshakes(run[..k]) == h[..i + 4];
      assert forall j :: i <= j < i + 4 ==> h[..i + 4][j] == h[j];
      ReprobesCounted(run[..k], 4);
      CountCapped(run[..k]);
      assert false;
    }
  }

  // ----- the device -----

  datatype ResumeReg = RegL3 | RegL1 | RegInit | RegExp | RegL2 | RegL2Exp | RegUnknown

  /** The device's answers during one resume; enableRet is for the re-init of a
      device found in L2, reprobeRet for the re-init of a reprobe. */
  datatype Answers = Answers(
    reg: ResumeReg, atrBad: bool, stopRet: int, startRet: int, enableRet: int, reprobeRet: int,
    mdAck: bool, apAck: bool, resumeRets: seq<int>)

  class PciDev {
    var entities: seq<Entity>
    var pmState: PmState
    var modeReady: bool
    var resumeReprobeCount: nat
    var calls: seq<Call>              // every callback made
    ghost var attempts: seq<Attempt>  // how every resume ended

    ghost predicate Valid()
      reads this
    {
      && UniqueIds(entities)
      && LegalRun(attempts) && resumeReprobeCount == CountOf(attempts)
    }

    constructor ()
      ensures Valid() && entities == [] && calls == [] && attempts == [] && pmState == PmInit
    {
      entities, calls, attempts := [], [], [];
      pmState, modeReady, resumeReprobeCount := PmInit, false, 0;
    }

    /** t7xx_pci_pm_entity_register */
    method Register(e: Entity) returns (ret: int)
      requires Valid()
      modifies this`entities
      ensures Valid()
      ensures ret == if exists i :: 0 <= i < |old(entities)| && old(entities)[i].id == e.id then -EEXIST else 0
      ensures entities == if ret == 0 then old(entities) + [e] else old(entities)
    {
      var i := 0;
      while i < |entities|
        invariant 0 <= i <= |entities|
        invariant forall j :: 0 <= j < i ==> entities[j].id != e.id
      {
        if entities[i].id == e.id {
          return -EEXIST;
        }
        i := i + 1;
      }
      entities := entities + [e];
      ret := 0;
    }

    /** t7xx_pci_pm_entity_unregister of an entity that is either registered itself or
        has an id nobody registered. */
    method Unregister(e: Entity) returns (ret: int)
      requires Valid() && forall i :: 0 <= i < |entities| && entities[i].id == e.id ==> entities[i] == e
      modifies this`entities
      ensures Valid()
      ensures ret == 0 <==> e in old(entities)
      ensures e !in entities && forall x :: x in entities <==> x in old(entities) && x != e
      ensures ret == 0 ==> exists i :: 0 <= i < |old(entities)| && Without(old(entities), i, e, entities)
      ensures ret != 0 ==> ret == -ENXIO && entities == old(entities)
    {
      var i := 0;
      while i < |entities|
        invariant 0 <= i <= |entities|
        invariant forall j :: 0 <= j < i ==> entities[j].id != e.id
      {
        if entities[i].id == e.id {
          ghost var was := entities;
          entities := entities[..i] + entities[i + 1..];
          forall x ensures x in entities <==> x in was && x != e {
            if x in was && x != e {
              var k :| 0 <= k < |was| && was[k] == x;
              assert x == if k < i then entities[k] else entities[k - 1];
            }
          }
          assert Without(was, i, e, entities);
          return 0;
        }
        i := i + 1;
      }
      ret := -ENXIO;
    }

    /** The abort loop: resumes the entities before the first with the given id. */
    method ResumeUntil(entityId: nat)
      modifies this`calls
      ensures calls == old(calls) + Calls(entities[..FirstWithId(entities, entityId)], ResumeCb)
    {
      hide Calls, FirstWithId;
      ghost var stop := FirstWithId(entities, entityId);
      var i := 0;
      CallsNone(ResumeCb);
      assert entities[..0] == [];
      while i < |entities|
        invariant 0 <= i <= stop
        invariant calls == old(calls) + Calls(entities[..i], ResumeCb)
        decreases |entities| - i
      {
        if entityId == entities[i].id {
          break;
        }
        CallsSnoc(entities, i, ResumeCb);
        if ResumeCb in entities[i].callbacks {
          calls := calls + [Call(ResumeCb, entities[i].id)];
        }
        i := i + 1;
      }
    }

    /** The suspend loop. */
    method SuspendAll(answers: seq<int>) returns (ret: int, failedId: nat)
      modifies this`calls
      ensures var k := FirstFailure(entities, answers);
              && calls == old(calls) + Calls(entities[..k], SuspendCb)
                          + (if k < |entities| then [Call(SuspendCb, entities[k].id)] else [])
              && ret == (if k < |entities| then answers[k] else 0)
              && failedId == (if k < |entities| then entities[k].id else ENTITY_ID_INVALID)
    {
      hide Calls, FirstFailure;
      ret, failedId := 0, ENTITY_ID_INVALID;
      CallsNone(SuspendCb);
      assert entities[..0] == [];
      var i := 0;
      while i < |entities|
        invariant 0 <= i <= |entities|
        invariant calls == old(calls) + Calls(entities[..i], SuspendCb)
        invariant forall j :: 0 <= j < i ==> !Refuses(entities, answers, j)
      {
        CallsSnoc(entities, i, SuspendCb);
        if SuspendCb in entities[i].callbacks {
          calls := calls + [Call(SuspendCb, entities[i].id)];
          var answer := if i < |answers| then answers[i] else 0;
          if answer != 0 {
            FailureAt(entities, answers, i);
            return answer, entities[i].id;
          }
        }
        i := i + 1;
      }
      FailureAt(entities, answers, |entities|);
      assert entities[..|entities|] == entities;
    }

    /** __t7xx_pci_pm_suspend. After a refusal exactly the entities before the failing
        one have been resumed, in list order; the failing one has not. When the modem
        does not answer, the walk back stops at an entity that carries the invalid id,
        and resumes all of them if there is none. */
    method Suspend(cfgRet: int, answers: seq<int>, mdAck: bool) returns (ret: int)
      requires Valid()
      modifies this`pmState, this`calls
      ensures Valid()
      ensures !(old(pmState).PmSuspended? || old(pmState).PmResumed?) || !modeReady ==>
                ret == -EFAULT && pmState == old(pmState) && calls == old(calls)
      ensures (old(pmState).PmSuspended? || old(pmState).PmResumed?) && modeReady && cfgRet != 0 ==>
                ret == cfgRet && pmState == old(pmState) && calls == old(calls)
      ensures (old(pmState).PmSuspended? || old(pmState).PmResumed?) && modeReady && cfgRet == 0 ==>
                var k := FirstFailure(entities, answers);
                if k < |entities| then
                  && ret == answers[k] && pmState == PmResumed
                  && calls == old(calls) + Calls(entities[..k], SuspendCb) + [Call(SuspendCb, entities[k].id)]
                              + Calls(entities[..k], ResumeCb)
                else if !mdAck then
                  && ret == -ETIMEDOUT && pmState == PmResumed
                  && calls == old(calls) + Calls(entities, SuspendCb)
                              + Calls(entities[..FirstWithId(entities, ENTITY_ID_INVALID)], ResumeCb)
                else
                  && ret == 0 && pmState == PmSuspended
                  && calls == old(calls) + Calls(entities, SuspendCb) + Calls(entities, SuspendLateCb)
      ensures ret == 0 <==> (old(pmState).PmSuspended? || old(pmState).PmResumed?) && modeReady && cfgRet == 0 && mdAck
                            && forall i :: 0 <= i < |entities| && i < |answers| && SuspendCb in entities[i].callbacks ==>
                                 answers[i] == 0
    {
      hide Calls, LegalRun, CountOf, FirstFailure, FirstWithId;
      NobodyRefuses(entities, answers);
      if !(pmState.PmSuspended? || pmState.PmResumed?) || !modeReady {
        return -EFAULT;
      }
      if cfgRet != 0 {
        return cfgRet;
      }
      pmState := PmSuspended;
      ghost var k := FirstFailure(entities, answers);
      var entityId;
      ret, entityId := SuspendAll(answers);
      assert entities[..|entities|] == entities;
      if ret == 0 && !mdAck {
        ret := -ETIMEDOUT;
      }
      if ret != 0 {
        if k < |entities| {
          WithId(entities, k);
        }
        ResumeUntil(entityId);
        pmState := PmResumed;
        return;
      }
      SuspendLateAll();
    }

    method SuspendLateAll()
      modifies this`calls
      ensures calls == old(calls) + Calls(entities, SuspendLateCb)
    {
      hide Calls;
      CallsNone(SuspendLateCb);
      assert entities[..0] == [];
      for i := 0 to |entities|
        invariant calls == old(calls) + Calls(entities[..i], SuspendLateCb)
      {
        CallsSnoc(entities, i, SuspendLateCb);
        if SuspendLateCb in entities[i].callbacks {
          calls := calls + [Call(SuspendLateCb, entities[i].id)];
        }
      }
      assert entities[..|entities|] == entities;
    }

    // ----- resume -----

    method ResumeEarlyAll()
      modifies this`calls
      ensures calls == old(calls) + Calls(entities, ResumeEarlyCb)
    {
      hide Calls;
      CallsNone(ResumeEarlyCb);
      assert entities[..0] == [];
      for i := 0 to |entities|
        invariant calls == old(calls) + Calls(entities[..i], ResumeEarlyCb)
      {
        CallsSnoc(entities, i, ResumeEarlyCb);
        if ResumeEarlyCb in entities[i].callbacks {
          calls := calls + [Call(ResumeEarlyCb, entities[i].id)];
        }
      }
      assert entities[..|entities|] == entities;
    }

    /** Resumes every entity; the last result is returned. */
    method ResumeAll(rets: seq<int>) returns (ret: int)
      modifies this`calls
      ensures calls == old(calls) + Calls(entities, ResumeCb)
      ensures ret == AnswerOf(rets, LastWith(entities, ResumeCb))
    {
      hide Calls, LastWith;
      ret := 0;
      CallsNone(ResumeCb);
      NoneHas(ResumeCb);
      assert entities[..0] == [];
      for i := 0 to |entities|
        invariant calls == old(calls) + Calls(entities[..i], ResumeCb)
        invariant ret == AnswerOf(rets, LastWith(entities[..i], ResumeCb))
      {
        CallsSnoc(entities, i, ResumeCb);
        LastWithSnoc(entities, i, ResumeCb);
        if ResumeCb in entities[i].callbacks {
          calls := calls + [Call(ResumeCb, entities[i].id)];
          ret := if i < |rets| then rets[i] else 0;
        }
      }
      assert entities[..|entities|] == entities;
    }

    /** t7xx_pci_reprobe_early and t7xx_pci_reprobe with a boot. */
    method Reprobe(a: Answers) returns (ret: int)
      modifies this`pmState
      ensures ret == if a.stopRet != 0 then a.stopRet else if a.reprobeRet != 0 then a.reprobeRet else a.startRet
      ensures pmState == if a.stopRet == 0 && a.reprobeRet == 0 then PmInit else old(pmState)
    {
      if a.stopRet != 0 {
        return a.stopRet;
      }
      if a.reprobeRet != 0 {
        return a.reprobeRet;
      }
      pmState := PmInit;
      ret := a.startRet;
    }

    /** __t7xx_pci_pm_resume, with how it ended added to the history. */
    method Resume(stateCheck: bool, a: Answers) returns (ret: int)
      requires Valid()
      modifies this`pmState, this`calls, this`resumeReprobeCount, this`attempts
      ensures Valid() && |attempts| == |old(attempts)| + 1 && old(attempts) == attempts[..|old(attempts)|]
      ensures resumeReprobeCount <= MAX_RESUME_REPROBE_ATTEMPTS
      ensures attempts[|old(attempts)|] == Outcome(old(pmState), stateCheck, a, old(resumeReprobeCount))
      // the device is not asked to resume before its first handshake or after an exception
      ensures old(pmState) in {PmException, PmInit} ==>
                ret == 0 && pmState == old(pmState) && calls == old(calls) && resumeReprobeCount == old(resumeReprobeCount)
      // which register values lead to the resume requests, and what their answers lead to
      ensures var asked := old(pmState) in {PmSuspended, PmResumed}
                           && (!stateCheck || a.reg == RegL1 || (a.reg == RegInit && !a.atrBad)
                               || (a.reg == RegL2 && a.enableRet == 0));
              var spare := old(resumeReprobeCount) < MAX_RESUME_REPROBE_ATTEMPTS;
              var lost := !a.mdAck || (!a.apAck && a.reg == RegInit && spare);
              && (asked && !lost ==>
                    && attempts[|old(attempts)|] == Completed && pmState == PmResumed && resumeReprobeCount == 0
                    && calls == old(calls) + Calls(entities, ResumeEarlyCb) + Calls(entities, ResumeCb)
                    && ret == AnswerOf(a.resumeRets, LastWith(entities, ResumeCb)))
              && (asked && lost && spare ==>
                    && attempts[|old(attempts)|] == TimeoutReprobe
                    && resumeReprobeCount == old(resumeReprobeCount) + 1
                    && calls == old(calls) + Calls(entities, ResumeEarlyCb)
                    && Reprobed(a, old(pmState), ret, pmState))
              && (asked && lost && !spare ==>
                    && attempts[|old(attempts)|] == GaveUp && ret == -ETIMEDOUT && pmState == old(pmState)
                    && resumeReprobeCount == old(resumeReprobeCount)
                    && calls == old(calls) + Calls(entities, ResumeEarlyCb))
              && (!asked ==> attempts[|old(attempts)|] == NoHandshake && calls == old(calls)
                             && resumeReprobeCount == old(resumeReprobeCount))
      // what each other register value leads to
      ensures old(pmState) in {PmSuspended, PmResumed} && stateCheck ==>
                && (a.reg == RegL3 || (a.reg == RegInit && a.atrBad) ==> Reprobed(a, old(pmState), ret, pmState))
                && (a.reg == RegExp ==> ret == 0 && pmState == PmSuspended)
                && (a.reg == RegL2Exp ==>
                      ret == a.enableRet && pmState == (if a.enableRet == 0 then PmSuspended else old(pmState)))
                && (a.reg == RegL2 && a.enableRet != 0 ==> ret == a.enableRet && pmState == old(pmState))
                && (a.reg == RegUnknown ==>
                      ret == a.stopRet && pmState == (if a.stopRet == 0 then PmSuspended else old(pmState)))
    {
      CountCapped(attempts);
      RunSnoc(attempts, Outcome(pmState, stateCheck, a, resumeReprobeCount));
      CountCapped(attempts + [Outcome(pmState, stateCheck, a, resumeReprobeCount)]);
      hide LegalRun, CountOf, UniqueIds, Calls, LastWith;
      attempts := attempts + [Outcome(pmState, stateCheck, a, resumeReprobeCount)];
      if pmState.PmException? || pmState.PmInit? {
        return 0;
      }
      if stateCheck {
        if a.reg.RegL3? || (a.reg.RegInit? && a.atrBad) {
          ret := Reprobe(a);
          return;
        }
        if a.reg.RegExp? || a.reg.RegL2Exp? {
          if a.reg.RegL2Exp? && a.enableRet != 0 {
            return a.enableRet;
          }
          pmState := PmSuspended;
          return 0;
        }
        if a.reg.RegL2? {
          if a.enableRet != 0 {
            return a.enableRet;
          }
        } else if !a.reg.RegL1? && !a.reg.RegInit? {
          if a.stopRet != 0 {
            return a.stopRet;
          }
          pmState := PmSuspended;
          return 0;
        }
      }
      ResumeEarlyAll();
      if !a.mdAck {
        if resumeReprobeCount >= MAX_RESUME_REPROBE_ATTEMPTS {
          return -ETIMEDOUT;
        }
        resumeReprobeCount := resumeReprobeCount + 1;
        ret := Reprobe(a);
        return;
      }
      if !a.apAck {
        if a.reg.RegInit? && resumeReprobeCount < MAX_RESUME_REPROBE_ATTEMPTS {
          resumeReprobeCount := resumeReprobeCount + 1;
          ret := Reprobe(a);
          return;
        }
      }
      ret := ResumeAll(a.resumeRets);
      pmState := PmResumed;
      resumeReprobeCount := 0;
    }

    /** The modem's handshake completes after a start (t7xx_pci_pm_init_late), an
        exception is detected (t7xx_pci_pm_exp_detected), the mode changes. */
    method External(state: PmState, ready: bool)
      requires Valid()
      modifies this`pmState, this`modeReady
      ensures Valid() && pmState == state && modeReady == ready
    {
      pmState, modeReady := state, ready;
    }
  }

  /** Does a resume get to the handshake path? */
  predicate ReachesHandshake(state: PmState, stateCheck: bool, a: Answers) {
    && (state.PmSuspended? || state.PmResumed?)
    && (!stateCheck
        || a.reg.RegL1? || (a.reg.RegInit? && !a.atrBad)
        || (a.reg.RegL2? && a.enableRet == 0))
  }

  /** The result and state of stopping, re-enabling and starting again. */
  predicate Reprobed(a: Answers, was: PmState, ret: int, state: PmState) {
    && ret == (if a.stopRet != 0 then a.stopRet else if a.reprobeRet != 0 then a.reprobeRet else a.startRet)
    && state == (if a.stopRet == 0 && a.reprobeRet == 0 then PmInit else was)
  }

  /** How a resume ends, from the device's answers and the counter. */
  function Outcome(state: PmState, stateCheck: bool, a: Answers, count: nat): Attempt {
    if !ReachesHandshake(state, stateCheck, a) then NoHandshake
    else if !a.mdAck then
      if count < MAX_RESUME_REPROBE_ATTEMPTS then TimeoutReprobe else GaveUp
    else if !a.apAck && a.reg.RegInit? && count < MAX_RESUME_REPROBE_ATTEMPTS then TimeoutReprobe
    else Completed
  }

  lemma NoneHas(cb: Callback)
    ensures LastWith([], cb) == -1
  {
  }

  lemma CallsNone(cb: Callback)
    ensures Calls([], cb) == []
  {
  }

  /** With unique ids the entity found by an entity's id is that entity. */
  lemma WithId(es: seq<Entity>, k: nat)
    requires UniqueIds(es) && k < |es|
    ensures FirstWithId(es, es[k].id) == k
  {
  }

  /** Without an answer from the modem everything suspended is resumed, once each and
      in list order, exactly if every entity the walk back reaches has both callbacks
      or neither and none from the first with the invalid id on was suspended. */
  lemma RollbackAllExact(es: seq<Entity>)
    requires UniqueIds(es)
    ensures var k := FirstWithId(es, ENTITY_ID_INVALID);
            Undo(Calls(es[..k], ResumeCb)) == Undo(Calls(es, SuspendCb)) <==>
            (forall i :: 0 <= i < k ==> (SuspendCb in es[i].callbacks <==> ResumeCb in es[i].callbacks))
            && (forall i :: k <= i < |es| ==> SuspendCb !in es[i].callbacks)
  {
    RollbackPrefix(es, FirstWithId(es, ENTITY_ID_INVALID));
  }

  lemma {:induction false} RollbackPrefix(es: seq<Entity>, k: nat)
    requires UniqueIds(es) && k <= |es|
    ensures Undo(Calls(es[..k], ResumeCb)) == Undo(Calls(es, SuspendCb)) <==>
            (forall i :: 0 <= i < k ==> (SuspendCb in es[i].callbacks <==> ResumeCb in es[i].callbacks))
            && (forall i :: k <= i < |es| ==> SuspendCb !in es[i].callbacks)
  {
    if k == |es| {
      assert es[..k] == es;
      UndoExact(es);
    } else {
      var j := |es| - 1;
      var init, e := es[..j], es[j];
      RollbackPrefix(init, k);
      assert init[..k] == es[..k];
      UndoSnoc(es);
      NotCalled(init, e.id);
      NotCalled(es[..k], e.id);
      LastTells(Undo(Calls(init, SuspendCb)), Undo(Calls(es[..k], ResumeCb)), e.id, SuspendCb in e.callbacks, false);
      hide Undo;
      assert forall i :: 0 <= i < j ==> init[i] == es[i];
    }
  }

  lemma FailureAt(es: seq<Entity>, answers: seq<int>, k: nat)
    requires k <= |es| && forall i :: 0 <= i < k ==> !Refuses(es, answers, i)
    requires k < |es| ==> Refuses(es, answers, k)
    ensures FirstFailure(es, answers) == k
  {
  }

  /** After an aborted suspend the entities whose resume ran are exactly those whose
      suspend had succeeded, once each and in list order, if and only if every entity
      before the failing one has both callbacks or neither. */
  lemma RollbackExact(es: seq<Entity>, answers: seq<int>)
    requires UniqueIds(es)
    ensures var done := es[..FirstFailure(es, answers)];
            Undo(Calls(done, ResumeCb)) == Undo(Calls(done, SuspendCb)) <==>
            forall i :: 0 <= i < |done| ==> (SuspendCb in done[i].callbacks <==> ResumeCb in done[i].callbacks)
  {
    UndoExact(es[..FirstFailure(es, answers)]);
  }
}
