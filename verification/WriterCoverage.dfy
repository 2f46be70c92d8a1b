/**
  The two theorems about coverage.  `CoveredExactly`: no event can duplicate a record if
  and only if every pod is covered.  `StepCoveredExactly`: a step keeps every pod covered
  if and only if it is a `SafeStep`.
 */
module WriterCoverage {
  import opened Wrappers
  import opened Lru
  import Contexts
  import opened MetadataWriter
  import opened WriterCaches
  import opened WriterOnce

  const CALM := Luck(NoFault, true, true)

  /* ---- Coverage rules duplicates out ---- */

  lemma NewExecutionOnce(s: State, x: Execution)
    requires OneExecution(s) && !Recorded(s.executions, x.pod)
    ensures OneExecution(s.(executions := s.executions + [x]))
  {
    forall a | 0 <= a < |s.executions| ensures s.executions[a].pod != x.pod {
      assert !IsExecutionOf(s.executions, a, x.pod);
    }
  }

  lemma IdentifyOnce(lim: Limits, s: State, p: string, v: Version, luck: Luck)
    requires Inv(lim, s) && OneExecution(s) && p in s.pods && v in s.pods[p].versions
    requires !Has(s.podExecution, p) && v.ids.None? ==> !Recorded(s.executions, p)
    ensures OneExecution(Identify(lim, s, p, v, luck).state)
  {
    if !Has(s.podExecution, p) && v.ids.None? {
      var found := Contexts.GetOrCreate(s.contexts, s.memo, Contexts.Call(s.owner[p], RUN_CONTEXT_TYPE));
      if found.result.Ok? {
        NewExecutionOnce(s, Execution(p, found.result.value));
      }
    }
  }

  lemma IdentifyGrows(lim: Limits, s: State, p: string, v: Version, luck: Luck)
    requires Inv(lim, s) && p in s.pods && v in s.pods[p].versions
    ensures var r := Identify(lim, s, p, v, luck).state;
            s.executions <= r.executions && r.artifacts == s.artifacts && r.podWritten == s.podWritten
  {
  }

  lemma SameOutputs(lim: Limits, s: State, r: State, q: string)
    requires Inv(lim, s) && s.executions <= r.executions && r.artifacts == s.artifacts
    ensures HasOutputs(r, q) <==> HasOutputs(s, q)
    ensures OneOutput(s) ==> OneOutput(r)
  {
    forall a | 0 <= a < |s.artifacts|
      ensures s.artifacts[a].execution < |s.executions|
      ensures forall x :: IsExecutionOf(r.executions, s.artifacts[a].execution, x)
                     <==> IsExecutionOf(s.executions, s.artifacts[a].execution, x)
    {
    }
  }

  lemma NewArtifactsOnce(s: State, p: string, ids: Ids, outputs: seq<Output>)
    requires OneOutput(s) && RightIds(s.executions, p, ids) && DistinctNames(outputs)
    requires !HasOutputs(s, p)
    ensures OneOutput(s.(artifacts := s.artifacts + Records(ids, outputs)))
  {
    var after := s.artifacts + Records(ids, outputs);
    forall a, b, q | 0 <= a < b < |after|
        && IsExecutionOf(s.executions, after[a].execution, q) && IsExecutionOf(s.executions, after[b].execution, q)
      ensures after[a].name != after[b].name
    {
      if b >= |s.artifacts| {
        assert q == p;
        if a >= |s.artifacts| {
          assert outputs[a - |s.artifacts|].name != outputs[b - |s.artifacts|].name;
        }
      }
    }
  }

  lemma PublishOnce(lim: Limits, s: State, p: string, v: Version, ids: Ids, luck: Luck)
    requires Inv(lim, s) && Once(s) && p in s.pods && RightIds(s.executions, p, ids) && v in s.pods[p].versions
    requires !Has(s.podWritten, p) ==> !HasOutputs(s, p)
    ensures Once(Publish(lim, s, p, v, ids, luck))
  {
    if !Has(s.podWritten, p) && Publishable(v) {
      ToRecordDistinct(s.executions, p, s.pods[p], v);
      var todo := ToRecord(v);
      if luck.fault.OnOutput? && luck.fault.k < |todo| {
        NewArtifactsOnce(s, p, ids, todo[..luck.fault.k]);
      } else {
        NewArtifactsOnce(s, p, ids, todo);
      }
    }
  }

  lemma CoveredHandleOnce(lim: Limits, s: State, p: string, i: nat, luck: Luck)
    requires Sound(lim, s) && Once(s) && Covered(s) && Deliverable(s, p, i)
    ensures Once(Handle(lim, s, p, i, luck))
  {
    var v, s0 := s.pods[p].versions[i], Delivered(s, p, i);
    LaterVersion(s.executions, p, s.pods[p], s.pods[p].delivered, i);
    assert Shown(s.pods[p], false) == Current(s.pods[p]);
    DeliveredInv(lim, s, p, i);
    if v.written || s.pods[p].skipped || luck.fault == OnParse {
    } else {
      IdentifyInv(lim, s0, p, v, luck);
      IdentifyOnce(lim, s0, p, v, luck);
      IdentifyGrows(lim, s0, p, v, luck);
      IdentifyHistory(lim, s0, p, v, luck) by {
        MoveHistory(lim, s, p, i);
      }
      var found := Identify(lim, s0, p, v, luck);
      SameOutputs(lim, s0, found.state, p);
      if found.ids.Some? {
        PublishOnce(lim, found.state, p, v, found.ids.value, luck);
      }
    }
  }

  /* ---- An uncovered pod is duplicated by showing it its current version ---- */

  /** A recorded pod's workflow has its run context, so registering it again succeeds. */
  lemma RegisterSucceeds(lim: Limits, s: State, p: string)
    requires Inv(lim, s) && p in s.pods && Recorded(s.executions, p)
    ensures Register(lim, s, p, CALM).ids.Some?
    ensures !OneExecution(Register(lim, s, p, CALM).state)
  {
    var e :| IsExecutionOf(s.executions, e, p);
    assert IsRunContext(s.contexts, s.executions[e].context, s.owner[p]);
    var call := Contexts.Call(s.owner[p], RUN_CONTEXT_TYPE);
    Contexts.ScanFinds(s.contexts, s.owner[p]);
    Contexts.GetOrCreateAgrees(s.contexts, s.memo, call);
    var r := Register(lim, s, p, CALM).state;
    assert r.executions[e].pod == r.executions[|s.executions|].pod;
  }

  lemma UncoveredExecution(lim: Limits, s: State, p: string)
    requires Sound(lim, s) && p in s.pods && Recorded(s.executions, p)
    requires !Has(s.podExecution, p) && !Settled(Current(s.pods[p]))
    ensures Deliverable(s, p, s.pods[p].delivered)
    ensures !Once(Handle(lim, s, p, s.pods[p].delivered, CALM))
  {
    var i, v := s.pods[p].delivered, Current(s.pods[p]);
    assert HistoryOk(s.executions, p, s.pods[p]);
    DeliveredInv(lim, s, p, i);
    var s0 := Delivered(s, p, i);
    RegisterSucceeds(lim, s0, p);
    IdentifyInv(lim, s0, p, v, CALM);
    var found := Identify(lim, s0, p, v, CALM);
    PublishKeepsCaches(lim, found.state, p, v, found.ids.value, CALM);
  }

  lemma RepeatedOutput(lim: Limits, s: State, p: string, ids: Ids, a: nat)
    requires Inv(lim, s) && RightIds(s.executions, p, ids) && a < |s.artifacts|
    requires p in s.pods && s.pods[p].delivered < |s.pods[p].versions|
    requires IsExecutionOf(s.executions, s.artifacts[a].execution, p) && !Has(s.podWritten, p)
    requires Names(ToRecord(Current(s.pods[p])), s.artifacts[a].name)
    ensures !OneOutput(Publish(lim, s, p, Current(s.pods[p]), ids, CALM))
  {
    var v := Current(s.pods[p]);
    var j :| 0 <= j < |ToRecord(v)| && ToRecord(v)[j].name == s.artifacts[a].name;
    var after := Publish(lim, s, p, v, ids, CALM);
    var b := |s.artifacts| + j;
    assert after.artifacts[a] == s.artifacts[a];
    assert after.artifacts[b] == Records(ids, ToRecord(v))[j];
    assert IsExecutionOf(after.executions, after.artifacts[b].execution, p);
  }

  /** A pod that is cached with its workflow, or labelled, is identified without touching the store or the labels. */
  lemma IdentifyFinds(lim: Limits, s: State, p: string, v: Version, luck: Luck)
    requires Inv(lim, s) && !StuckPod(s, p) && p in s.pods && v in s.pods[p].versions
    requires Has(s.podExecution, p) || v.ids.Some?
    ensures var r := Identify(lim, s, p, v, luck);
            && r.ids.Some? && RightIds(s.executions, p, r.ids.value)
            && r.state == s.(podExecution := r.state.podExecution, workflowContext := r.state.workflowContext)
            && SameMembers(s, r.state)
  {
    IdentifyInv(lim, s, p, v, luck);
    if Has(s.podExecution, p) {
      forall q { TouchKeeps(s.podExecution, lim.execution, p, q); }
      forall w { TouchKeeps(s.workflowContext, lim.context, s.owner[p], w); }
    }
  }

  /** The two id caches hold the same keys. */
  ghost predicate SameMembers(s: State, r: State) {
    && (forall q :: Has(r.podExecution, q) <==> Has(s.podExecution, q))
    && (forall w :: Has(r.workflowContext, w) <==> Has(s.workflowContext, w))
  }

  lemma HandlePublishes(lim: Limits, s: State, p: string)
    requires Inv(lim, s) && p in s.pods && Deliverable(s, p, s.pods[p].delivered)
    requires !Current(s.pods[p]).written && !s.pods[p].skipped
    requires Identify(lim, s, p, Current(s.pods[p]), CALM).ids.Some?
    ensures var r := Identify(lim, s, p, Current(s.pods[p]), CALM);
            && p in r.state.pods && r.state.pods[p].versions != []
            && Handle(lim, s, p, s.pods[p].delivered, CALM) ==
                 Publish(lim, r.state, p, Current(s.pods[p]), r.ids.value, CALM)
  {
    IdentifyInv(lim, s, p, Current(s.pods[p]), CALM);
    DeliveredSame(s, p);
    assert Contexts.MemoAgrees(s.contexts, s.memo);
    hide Inv, Identify, Publish, Delivered;
  }

  lemma DeliveredSame(s: State, p: string)
    requires p in s.pods
    ensures Delivered(s, p, s.pods[p].delivered) == s
  {
    assert s.pods[p := s.pods[p]] == s.pods;
  }

  lemma OutputOwner(lim: Limits, s: State, p: string) returns (a: nat)
    requires Sound(lim, s) && p in s.pods && HasOutputs(s, p)
    ensures a < |s.artifacts| && IsExecutionOf(s.executions, s.artifacts[a].execution, p)
    ensures Deliverable(s, p, s.pods[p].delivered)
    ensures !s.pods[p].skipped && Names(ToRecord(Current(s.pods[p])), s.artifacts[a].name)
  {
    a :| 0 <= a < |s.artifacts| && IsExecutionOf(s.executions, s.artifacts[a].execution, p);
    assert Recorded(s.executions, p);
    assert HistoryOk(s.executions, p, s.pods[p]);
  }

  lemma UncoveredOutputs(lim: Limits, s: State, p: string)
    requires Sound(lim, s) && p in s.pods && HasOutputs(s, p)
    requires !Has(s.podWritten, p) && !Current(s.pods[p]).written && !StuckPod(s, p)
    requires Has(s.podExecution, p) || Settled(Current(s.pods[p]))
    ensures Deliverable(s, p, s.pods[p].delivered)
    ensures !Once(Handle(lim, s, p, s.pods[p].delivered, CALM))
  {
    var a := OutputOwner(lim, s, p);
    var v := Current(s.pods[p]);
    IdentifyFinds(lim, s, p, v, CALM);
    IdentifyInv(lim, s, p, v, CALM);
    hide Inv, History, HasOutputs, Has, OneOutput, SameMembers, StuckPod;
    var found := Identify(lim, s, p, v, CALM);
    RepeatedOutput(lim, found.state, p, found.ids.value, a);
    HandlePublishes(lim, s, p);
  }

  /** Coverage is exactly immunity against whatever event comes next. */
  lemma CoveredExactly(lim: Limits, s: State)
    requires Sound(lim, s) && Once(s)
    ensures Covered(s) <==>
            forall p, i, luck :: Deliverable(s, p, i) ==> Once(Handle(lim, s, p, i, luck))
  {
    if Covered(s) {
      forall p, i, luck | Deliverable(s, p, i) ensures Once(Handle(lim, s, p, i, luck)) {
        CoveredHandleOnce(lim, s, p, i, luck);
      }
    } else {
      assert Positioned(s) by {
        assert forall p :: p in s.pods ==> HistoryOk(s.executions, p, s.pods[p]);
      }
      if p :| p in s.pods && Recorded(s.executions, p) && !Has(s.podExecution, p) && !Settled(Current(s.pods[p])) {
        UncoveredExecution(lim, s, p);
      } else {
        var p :| p in s.pods && HasOutputs(s, p) && !Has(s.podWritten, p) && !Current(s.pods[p]).written
          && !StuckPod(s, p);
        var a :| 0 <= a < |s.artifacts| && IsExecutionOf(s.executions, s.artifacts[a].execution, p);
        assert Recorded(s.executions, p);
        UncoveredOutputs(lim, s, p);
      }
    }
  }

  /* ---- Which steps keep every pod covered ---- */

  /** The store holds a context of this name that is not a run context. */
  ghost predicate ContextRefused(contexts: seq<Contexts.Context>, workflow: string) {
    exists c :: c in contexts && c.name == workflow && c.typ != RUN_CONTEXT_TYPE
  }

  /** Recording the outputs will be cut short by an exception. */
  predicate Cut(s: State, p: string, v: Version, luck: Luck) {
    !Has(s.podWritten, p) && Publishable(v) && luck.fault.OnOutput? && luck.fault.k < |ToRecord(v)|
  }

  /** A pod pushed out of the pod cache must already show its label. */
  ghost predicate SafeToRegister(lim: Limits, s: State, p: string, newWatch: bool)
    requires Positioned(s)
  {
    forall q :: q in s.pods && Evicts(s.podExecution, lim.execution, p, q) ==> Settled(Shown(s.pods[q], newWatch))
  }

  /** Registering `p` makes the events of `q` go through again. */
  ghost predicate Frees(lim: Limits, s: State, p: string, q: string)
    requires p in s.owner
  {
    StuckPod(s, q) && (Evicts(s.podExecution, lim.execution, p, q) || s.owner[q] == s.owner[p])
  }

  /** A pod that only raised must show that its outputs are recorded once it goes through again. */
  ghost predicate SafeToFree(lim: Limits, s: State, p: string, newWatch: bool)
    requires Positioned(s) && p in s.owner
  {
    forall q :: q in s.pods && Frees(lim, s, p, q) && HasOutputs(s, q) && !Has(s.podWritten, q) ==>
      Shown(s.pods[q], newWatch).written
  }

  ghost function StuckPods(s: State): set<string> {
    set q | q in s.owner && StuckPod(s, q)
  }

  /** Registering `p` leaves `q` cached, and its workflow out of the cache. */
  ghost predicate StuckBeside(lim: Limits, s: State, p: string, q: string)
    requires p in s.owner
  {
    && q in s.owner && q != p && s.owner[q] != s.owner[p]
    && Has(s.podExecution, q) && !Evicts(s.podExecution, lim.execution, p, q)
    && (!Has(s.workflowContext, s.owner[q]) || Evicts(s.workflowContext, lim.context, s.owner[p], s.owner[q]))
  }

  ghost function StuckBesides(lim: Limits, s: State, p: string): set<string>
    requires p in s.owner
  {
    set q | q in s.owner && StuckBeside(lim, s, p, q)
  }

  /** What is pushed out of the written cache must show its label, or be stuck. */
  ghost predicate SafeToPublish(lim: Limits, s: State, p: string, v: Version, luck: Luck, stuck: set<string>)
    requires Positioned(s) && p in s.pods
  {
    if Has(s.podWritten, p) || !Publishable(v) then true
    else if Cut(s, p, v, luck) then luck.fault.k == 0 || Latest(s.pods[p]).written
    else forall q :: q in s.pods && Evicts(s.podWritten, lim.written, p, q) && HasOutputs(s, q) ==>
           Current(s.pods[q]).written || q in stuck
  }

  ghost predicate SafeDelivery(lim: Limits, s: State, p: string, i: nat, luck: Luck)
    requires Positioned(s) && Deliverable(s, p, i)
  {
    var v := s.pods[p].versions[i];
    if v.written || s.pods[p].skipped || luck.fault == OnParse || StuckPod(s, p) then true
    else if Has(s.podExecution, p) || v.ids.Some? then SafeToPublish(lim, s, p, v, luck, StuckPods(s))
    else if ContextRefused(s.contexts, s.owner[p]) || luck.fault == OnExecution then true
    else
      && luck.fault != OnLink
      && SafeToRegister(lim, s, p, Cut(s, p, v, luck))
      && SafeToFree(lim, s, p, Cut(s, p, v, luck))
      && SafeToPublish(lim, s, p, v, luck, StuckBesides(lim, s, p))
  }

  ghost predicate SafeStep(lim: Limits, s: State, step: Step)
    requires Positioned(s) && Enabled(s, step)
  {
    match step
    case Deliver(p, i, luck) => SafeDelivery(lim, s, p, i, luck)
    case Restart =>
      forall p :: p in s.pods ==>
        && (Recorded(s.executions, p) ==> Settled(Latest(s.pods[p])))
        && (HasOutputs(s, p) ==> Latest(s.pods[p]).written)
    case _ => true
  }

  lemma SoundPositioned(lim: Limits, s: State)
    requires Inv(lim, s)
    ensures Positioned(s)
  {
    assert forall p :: p in s.pods ==> PodOk(s.executions, p, s.pods[p]);
  }

  lemma RewatchShows(s: State)
    requires Positioned(s)
    ensures Positioned(Rewatch(s))
    ensures ExecutionsHeld(Rewatch(s), false) <==> ExecutionsHeld(s, true)
    ensures OutputsHeld(Rewatch(s), false) <==> OutputsHeld(s, true)
  {
    var r := Rewatch(s);
    assert forall p :: p in s.pods <==> p in r.pods;
    assert forall p :: p in s.pods ==> Shown(r.pods[p], false) == Shown(s.pods[p], true);
  }

  lemma LatestShows(lim: Limits, s: State)
    requires Inv(lim, s) && Positioned(s)
    ensures ExecutionsHeld(s, false) ==> ExecutionsHeld(s, true)
    ensures OutputsHeld(s, false) ==> OutputsHeld(s, true)
  {
    forall p | p in s.pods
      ensures Settled(Shown(s.pods[p], false)) ==> Settled(Shown(s.pods[p], true))
      ensures Shown(s.pods[p], false).written ==> Shown(s.pods[p], true).written
    {
      LaterVersion(s.executions, p, s.pods[p], s.pods[p].delivered, |s.pods[p].versions| - 1);
    }
  }

  lemma RewatchCovered(lim: Limits, s: State)
    requires Inv(lim, s) && Covered(s)
    ensures Covered(Rewatch(s))
  {
    LatestShows(lim, s);
    RewatchShows(s);
  }

  lemma DeliveredCovered(lim: Limits, s: State, p: string, i: nat)
    requires Inv(lim, s) && Covered(s) && Deliverable(s, p, i)
    ensures Covered(Delivered(s, p, i))
  {
    var s0 := Delivered(s, p, i);
    LaterVersion(s.executions, p, s.pods[p], s.pods[p].delivered, i);
    hide Inv, Covered, Grows, Settled;
    assert Positioned(s) by {
      SoundPositioned(lim, s);
    }
    assert forall q :: q in s.pods && q != p ==> s0.pods[q] == s.pods[q];
    assert s0 == s.(pods := s0.pods);
    LaterCovered(s, s0);
  }

  /** Newer current versions keep every pod covered. */
  lemma LaterCovered(s: State, r: State)
    requires Covered(s) && r == s.(pods := r.pods) && r.pods.Keys == s.pods.Keys && Positioned(r)
    requires forall q :: q in s.pods ==>
      && (Settled(Current(s.pods[q])) ==> Settled(Current(r.pods[q])))
      && (Current(s.pods[q]).written ==> Current(r.pods[q]).written)
    ensures Covered(r)
  {
    hide Settled, Has, Recorded;
    assert forall q :: HasOutputs(r, q) <==> HasOutputs(s, q);
    assert forall q :: StuckPod(r, q) <==> StuckPod(s, q);
    hide HasOutputs, StuckPod;
  }

  /* ---- Registering ---- */

  lemma RefusedExactly(contexts: seq<Contexts.Context>, memo: Contexts.Memo, w: string)
    requires Contexts.UniqueNames(contexts) && Contexts.MemoAgrees(contexts, memo)
    ensures Contexts.GetOrCreate(contexts, memo, Contexts.Call(w, RUN_CONTEXT_TYPE)).result.Err? <==>
            ContextRefused(contexts, w)
  {
    Contexts.GetOrCreateAgrees(contexts, memo, Contexts.Call(w, RUN_CONTEXT_TYPE));
    Contexts.ScanFinds(contexts, w);
    if ContextRefused(contexts, w) {
      var c :| c in contexts && c.name == w && c.typ != RUN_CONTEXT_TYPE;
      var id :| 0 <= id < |contexts| && contexts[id] == c;
      assert Contexts.Scan(contexts, w) == Ok(id);
    }
  }

  lemma RecordedExtended(executions: seq<Execution>, x: Execution, q: string)
    ensures Recorded(executions + [x], q) <==> q == x.pod || Recorded(executions, q)
  {
    var after := executions + [x];
    if Recorded(executions, q) {
      var e :| IsExecutionOf(executions, e, q);
      assert IsExecutionOf(after, e, q);
    }
    if Recorded(after, q) && q != x.pod {
      var e :| IsExecutionOf(after, e, q);
      assert IsExecutionOf(executions, e, q);
    }
    assert IsExecutionOf(after, |executions|, x.pod);
  }

  /** A registration goes through. */
  ghost predicate Registers(s: State, p: string, luck: Luck)
    requires p in s.owner
  {
    !ContextRefused(s.contexts, s.owner[p]) && luck.fault != OnExecution && luck.fault != OnLink
  }

  /** The state a successful registration leaves, in terms of its ids. */
  lemma RegisterIs(lim: Limits, s: State, p: string, luck: Luck) returns (c: nat)
    requires Inv(lim, s) && p in s.pods && Registers(s, p, luck)
    ensures var r := Register(lim, s, p, luck);
            && r.ids == Some(Ids(|s.executions|, c))
            && r.state.owner == s.owner && r.state.artifacts == s.artifacts && r.state.podWritten == s.podWritten
            && r.state.executions == s.executions + [Execution(p, c)]
            && r.state.podExecution == Put<string, nat>(s.podExecution, lim.execution, p, |s.executions|)
            && r.state.workflowContext == Put<string, nat>(s.workflowContext, lim.context, s.owner[p], c)
            && r.state.pods ==
                 if luck.idsPatched then AddVersion(s, p, Latest(s.pods[p]).(ids := r.ids)).pods else s.pods
  {
    RefusedExactly(s.contexts, s.memo, s.owner[p]);
    c := Contexts.GetOrCreate(s.contexts, s.memo, Contexts.Call(s.owner[p], RUN_CONTEXT_TYPE)).result.value;
    hide ContextRefused, Contexts.GetOrCreate, Put;
  }

  /** A successful registration, seen from any pod. */
  lemma RegisterEffect(lim: Limits, s: State, p: string, luck: Luck, q: string)
    requires Inv(lim, s) && Positioned(s) && p in s.pods && Registers(s, p, luck)
    ensures var r := Register(lim, s, p, luck);
            && r.ids.Some? && r.state.pods.Keys == s.pods.Keys
            && Positioned(r.state)
            && (Has(r.state.podExecution, q) <==>
                 q == p || (Has(s.podExecution, q) && !Evicts(s.podExecution, lim.execution, p, q)))
            && (Recorded(r.state.executions, q) <==> q == p || Recorded(s.executions, q))
            && (q in s.pods && q != p ==> r.state.pods[q] == s.pods[q])
            && Current(r.state.pods[p]) == Current(s.pods[p])
            && Latest(r.state.pods[p]).written == Latest(s.pods[p]).written
            && r.state.owner == s.owner
            && (StuckPod(r.state, q) <==> StuckBeside(lim, s, p, q))
  {
    var c := RegisterIs(lim, s, p, luck);
    PutKeeps<string, nat>(s.podExecution, lim.execution, p, |s.executions|, q);
    if q in s.owner {
      PutKeeps<string, nat>(s.workflowContext, lim.context, s.owner[p], c, s.owner[q]);
    }
    RecordedExtended(s.executions, Execution(p, c), q);
    hide Inv, Registers, Register, Put, Evicts, Has, Recorded;
  }

  lemma RegisterHeld(lim: Limits, s: State, p: string, luck: Luck, newWatch: bool)
    requires Inv(lim, s) && Covered(s) && p in s.pods && !Has(s.podExecution, p)
    requires Registers(s, p, luck)
    ensures Positioned(Register(lim, s, p, luck).state)
    ensures ExecutionsHeld(Register(lim, s, p, luck).state, newWatch) <==> SafeToRegister(lim, s, p, newWatch)
  {
    var r := Register(lim, s, p, luck).state;
    LatestShows(lim, s);
    forall q { RegisterEffect(lim, s, p, luck, q); }
    RegisterEffect(lim, s, p, luck, p);
    forall q | Evicts(s.podExecution, lim.execution, p, q) ensures Recorded(s.executions, q) {
      EvictedIsRecorded(lim, s, p, q);
    }
    hide *;
    RegisteredExecutions(lim, s, r, p, newWatch);
  }

  /** Which executions are still held, given what a registration does to every pod. */
  lemma RegisteredExecutions(lim: Limits, s: State, r: State, p: string, newWatch: bool)
    requires Positioned(s) && Positioned(r) && r.pods.Keys == s.pods.Keys && p in s.pods
    requires ExecutionsHeld(s, newWatch)
    requires forall q :: Has(r.podExecution, q) <==>
               q == p || (Has(s.podExecution, q) && !Evicts(s.podExecution, lim.execution, p, q))
    requires forall q :: Recorded(r.executions, q) <==> q == p || Recorded(s.executions, q)
    requires forall q :: q in s.pods && q != p ==> r.pods[q] == s.pods[q]
    requires forall q :: Evicts(s.podExecution, lim.execution, p, q) ==> Recorded(s.executions, q)
    requires !Has(s.podExecution, p)
    ensures ExecutionsHeld(r, newWatch) <==> SafeToRegister(lim, s, p, newWatch)
  {
    hide Recorded, Settled;
    assert forall q :: Evicts(s.podExecution, lim.execution, p, q) ==> Has(s.podExecution, q);
    hide Has, Evicts;
  }

  lemma EvictedIsRecorded(lim: Limits, s: State, p: string, q: string)
    requires Inv(lim, s) && Evicts(s.podExecution, lim.execution, p, q)
    ensures Recorded(s.executions, q)
  {
    assert Has(s.podExecution, q);
    assert IsExecutionOf(s.executions, Value(s.podExecution, q), q);
  }

  /** Without its caches and label the new execution is forgotten at once. */
  lemma LinkFaultUncovers(lim: Limits, s: State, p: string, luck: Luck)
    requires Inv(lim, s) && Positioned(s) && History(s) && p in s.pods
    requires !Has(s.podExecution, p) && !Recorded(s.executions, p)
    requires !ContextRefused(s.contexts, s.owner[p]) && luck.fault == OnLink
    ensures Register(lim, s, p, luck).ids.None?
    ensures !Covered(Rewatch(Register(lim, s, p, luck).state))
  {
    RefusedExactly(s.contexts, s.memo, s.owner[p]);
    var c := Contexts.GetOrCreate(s.contexts, s.memo, Contexts.Call(s.owner[p], RUN_CONTEXT_TYPE)).result.value;
    var r := Register(lim, s, p, luck).state;
    RecordedExtended(s.executions, Execution(p, c), p);
    RewatchShows(r);
    var v := Latest(s.pods[p]);
    assert PodOk(s.executions, p, s.pods[p]) && HistoryOk(s.executions, p, s.pods[p]);
    if v.ids.Some? {
      RecordedByLabel(s.executions, p, v.ids.value);
    }
    assert !Settled(Shown(r.pods[p], true));
  }

  /* ---- Publishing ---- */

  lemma NewArtifactsOutputs(s: State, p: string, ids: Ids, outputs: seq<Output>, q: string)
    requires RightIds(s.executions, p, ids)
    ensures HasOutputs(s.(artifacts := s.artifacts + Records(ids, outputs)), q) <==>
            HasOutputs(s, q) || (q == p && outputs != [])
  {
    var r := s.(artifacts := s.artifacts + Records(ids, outputs));
    if HasOutputs(s, q) {
      var a :| 0 <= a < |s.artifacts| && IsExecutionOf(s.executions, s.artifacts[a].execution, q);
      assert r.artifacts[a] == s.artifacts[a];
    }
    if outputs != [] {
      var a := |s.artifacts|;
      assert IsExecutionOf(r.executions, r.artifacts[a].execution, p);
    }
    if HasOutputs(r, q) {
      var a :| 0 <= a < |r.artifacts| && IsExecutionOf(r.executions, r.artifacts[a].execution, q);
      assert a < |s.artifacts| ==> r.artifacts[a] == s.artifacts[a];
    }
  }

  lemma CutCovered(lim: Limits, s: State, p: string, v: Version, ids: Ids, luck: Luck)
    requires Inv(lim, s) && Positioned(s) && p in s.pods && RightIds(s.executions, p, ids) && !StuckPod(s, p)
    requires v == Current(s.pods[p]) && !v.written && Cut(s, p, v, luck)
    ensures Covered(Publish(lim, s, p, v, ids, luck)) <==>
            ExecutionsHeld(s, true) && OutputsHeld(s, true)
            && SafeToPublish(lim, s, p, v, luck, StuckPods(s))
  {
    var outputs := ToRecord(v)[..luck.fault.k];
    var r := s.(artifacts := s.artifacts + Records(ids, outputs));
    assert Publish(lim, s, p, v, ids, luck) == Rewatch(r);
    forall q { NewArtifactsOutputs(s, p, ids, outputs, q); }
    assert outputs != [] <==> luck.fault.k > 0;
    hide Inv, Publish, Rewatch, Records, ToRecord, HasOutputs;
    RewatchShows(r);
    CutHeld(s, r, p, luck.fault.k > 0);
  }

  /** What is held after new outputs of `p` were recorded and nothing else happened. */
  lemma CutHeld(s: State, r: State, p: string, some: bool)
    requires Positioned(s) && r == s.(artifacts := r.artifacts) && p in s.pods
    requires !StuckPod(s, p) && !Has(s.podWritten, p)
    requires forall q :: HasOutputs(r, q) <==> HasOutputs(s, q) || (q == p && some)
    ensures ExecutionsHeld(r, true) <==> ExecutionsHeld(s, true)
    ensures OutputsHeld(r, true) <==> OutputsHeld(s, true) && (!some || Latest(s.pods[p]).written)
  {
    assert forall q :: StuckPod(r, q) <==> StuckPod(s, q);
    hide StuckPod, HasOutputs, Recorded, Settled, Has;
  }

  lemma FullCovered(lim: Limits, s: State, p: string, v: Version, ids: Ids, luck: Luck)
    requires Inv(lim, s) && Positioned(s) && p in s.pods && RightIds(s.executions, p, ids) && !HasOutputs(s, p)
    requires v == Current(s.pods[p]) && !Has(s.podWritten, p) && Publishable(v) && !Cut(s, p, v, luck)
    ensures Covered(Publish(lim, s, p, v, ids, luck)) <==>
            ExecutionsHeld(s, false) && OutputsHeld(s, false)
            && SafeToPublish(lim, s, p, v, luck, StuckPods(s))
  {
    var r := Publish(lim, s, p, v, ids, luck);
    forall q { FullEffect(lim, s, p, v, ids, luck, q); }
    FullEffect(lim, s, p, v, ids, luck, p);
    assert forall q :: Evicts(s.podWritten, lim.written, p, q) ==> Has(s.podWritten, q);
    hide Inv, Publish, Evicts, StuckPod, HasOutputs, Recorded, Has, Publishable, Cut;
    FullHeld(lim, s, r, p, v, luck);
  }

  /** What publishing everything does to any pod. */
  lemma FullEffect(lim: Limits, s: State, p: string, v: Version, ids: Ids, luck: Luck, q: string)
    requires Inv(lim, s) && Positioned(s) && p in s.pods && RightIds(s.executions, p, ids)
    requires v == Current(s.pods[p]) && !Has(s.podWritten, p) && Publishable(v) && !Cut(s, p, v, luck)
    ensures var r := Publish(lim, s, p, v, ids, luck);
            && (HasOutputs(r, q) <==> HasOutputs(s, q) || (q == p && ToRecord(v) != []))
            && (Has(r.podWritten, q) <==>
                 q == p || (Has(s.podWritten, q) && !Evicts(s.podWritten, lim.written, p, q)))
            && r.pods.Keys == s.pods.Keys && Positioned(r)
            && (q in s.pods ==> Current(r.pods[q]) == Current(s.pods[q]))
            && (Has(r.podExecution, q) <==> Has(s.podExecution, q))
            && r.executions == s.executions
            && (StuckPod(r, q) <==> q in StuckPods(s))
  {
    var r := Publish(lim, s, p, v, ids, luck);
    var r1 := s.(artifacts := s.artifacts + Records(ids, ToRecord(v)));
    NewArtifactsOutputs(s, p, ids, ToRecord(v), q);
    assert HasOutputs(r, q) <==> HasOutputs(r1, q);
    PutKeeps(s.podWritten, lim.written, p, (), q);
    PublishKeepsCaches(lim, s, p, v, ids, luck);
  }

  lemma FullHeld(lim: Limits, s: State, r: State, p: string, v: Version, luck: Luck)
    requires Positioned(s) && Positioned(r) && r.pods.Keys == s.pods.Keys && p in s.pods && !HasOutputs(s, p)
    requires !Has(s.podWritten, p) && Publishable(v) && !Cut(s, p, v, luck)
    requires r.executions == s.executions
    requires forall q ::
      && (HasOutputs(r, q) <==> HasOutputs(s, q) || (q == p && ToRecord(v) != []))
      && (Has(r.podWritten, q) <==> q == p || (Has(s.podWritten, q) && !Evicts(s.podWritten, lim.written, p, q)))
      && (q in s.pods ==> Current(r.pods[q]) == Current(s.pods[q]))
      && (Has(r.podExecution, q) <==> Has(s.podExecution, q))
      && (StuckPod(r, q) <==> q in StuckPods(s))
    requires forall q :: Evicts(s.podWritten, lim.written, p, q) ==> Has(s.podWritten, q)
    ensures Covered(r) <==>
            ExecutionsHeld(s, false) && OutputsHeld(s, false)
            && SafeToPublish(lim, s, p, v, luck, StuckPods(s))
  {
    hide Evicts, HasOutputs, Recorded, Has, Publishable, Cut, ToRecord, Settled;
    assert ExecutionsHeld(r, false) <==> ExecutionsHeld(s, false);
    assert forall q :: q in s.pods ==> (q in StuckPods(s) <==> StuckPod(s, q)) by {
      assert forall q :: StuckPod(s, q) ==> q in s.owner;
    }
    hide StuckPod, StuckPods, ExecutionsHeld;
    assert OutputsHeld(r, false) <==>
           OutputsHeld(s, false) && SafeToPublish(lim, s, p, v, luck, StuckPods(s));
  }

  /** Publishing on a pod that goes through; its own outputs, if any, are in the written cache. */
  lemma PublishCovered(lim: Limits, s: State, p: string, v: Version, ids: Ids, luck: Luck)
    requires Inv(lim, s) && Positioned(s) && p in s.pods && RightIds(s.executions, p, ids)
    requires !StuckPod(s, p) && (HasOutputs(s, p) ==> Has(s.podWritten, p))
    requires v == Current(s.pods[p]) && !v.written
    ensures Covered(Publish(lim, s, p, v, ids, luck)) <==>
            ExecutionsHeld(s, Cut(s, p, v, luck)) && OutputsHeld(s, Cut(s, p, v, luck))
            && SafeToPublish(lim, s, p, v, luck, StuckPods(s))
  {
    if Has(s.podWritten, p) || !Publishable(v) {
    } else if Cut(s, p, v, luck) {
      CutCovered(lim, s, p, v, ids, luck);
    } else {
      FullCovered(lim, s, p, v, ids, luck);
    }
  }

  /* ---- One whole event, and one whole step ---- */

  /** The publishing condition reads only what these states share. */
  lemma SameSafety(
    lim: Limits, s: State, r: State, p: string, v: Version, luck: Luck, stuck: set<string>, stuck': set<string>)
    requires Positioned(s) && Positioned(r) && r.pods.Keys == s.pods.Keys && p in s.pods
    requires forall q :: q in s.pods && q != p ==> Current(r.pods[q]) == Current(s.pods[q])
    requires Latest(r.pods[p]).written == Latest(s.pods[p]).written
    requires r.podWritten == s.podWritten
    requires forall q :: HasOutputs(r, q) <==> HasOutputs(s, q)
    requires forall q :: q in stuck' <==> q in stuck
    ensures SafeToPublish(lim, r, p, v, luck, stuck') <==> SafeToPublish(lim, s, p, v, luck, stuck)
  {
    if !Has(s.podWritten, p) {
      forall q | Evicts(s.podWritten, lim.written, p, q) ensures q != p {
        assert Has(s.podWritten, q);
      }
    }
  }

  lemma FoundCovered(lim: Limits, s: State, p: string, v: Version, luck: Luck)
    requires Inv(lim, s) && !StuckPod(s, p) && Covered(s) && p in s.pods && v == Current(s.pods[p]) && !v.written
    requires Has(s.podExecution, p) || v.ids.Some?
    ensures var r := Identify(lim, s, p, v, luck);
            && r.ids.Some? && p in r.state.pods && r.state.pods[p].versions != []
            && (Covered(Publish(lim, r.state, p, v, r.ids.value, luck)) <==>
                 SafeToPublish(lim, s, p, v, luck, StuckPods(s)))
  {
    IdentifyFinds(lim, s, p, v, luck);
    IdentifyInv(lim, s, p, v, luck);
    LatestShows(lim, s);
    var r := Identify(lim, s, p, v, luck);
    SameStuck(s, r.state);
    assert HasOutputs(s, p) ==> Has(s.podWritten, p);
    hide *;
    SameSafety(lim, s, r.state, p, v, luck, StuckPods(s), StuckPods(r.state));
    PublishCovered(lim, r.state, p, v, r.ids.value, luck);
  }

  /** Two states with the same keys cached, at the same place in the same history. */
  lemma SameStuck(s: State, r: State)
    requires SameMembers(s, r) && r.owner == s.owner && r.pods == s.pods
    requires r.executions == s.executions && r.artifacts == s.artifacts && r.podWritten == s.podWritten
    ensures forall q :: (StuckPod(r, q) <==> StuckPod(s, q)) && (q in StuckPods(r) <==> q in StuckPods(s))
    ensures forall q :: HasOutputs(r, q) <==> HasOutputs(s, q)
    ensures Positioned(r) <==> Positioned(s)
    ensures Positioned(s) ==> forall w :: ExecutionsHeld(r, w) <==> ExecutionsHeld(s, w)
    ensures Positioned(s) ==> forall w :: OutputsHeld(r, w) <==> OutputsHeld(s, w)
  {
    assert forall q :: StuckPod(r, q) <==> StuckPod(s, q);
    hide StuckPod, Settled;
    assert forall q :: HasOutputs(r, q) <==> HasOutputs(s, q);
    hide HasOutputs;
  }

  lemma SameCovered(s: State, r: State)
    requires Covered(s) && Positioned(r)
    requires forall w :: ExecutionsHeld(r, w) <==> ExecutionsHeld(s, w)
    requires forall w :: OutputsHeld(r, w) <==> OutputsHeld(s, w)
    ensures Covered(r)
  {
  }

  /** A stuck pod raises before anything is recorded. */
  lemma StuckCovered(lim: Limits, s: State, p: string, v: Version, luck: Luck)
    requires Inv(lim, s) && Covered(s) && p in s.pods && v in s.pods[p].versions && StuckPod(s, p)
    ensures Identify(lim, s, p, v, luck).ids.None?
    ensures Covered(Rewatch(Identify(lim, s, p, v, luck).state))
  {
    var r := s.(podExecution := Touch(s.podExecution, p));
    assert Identify(lim, s, p, v, luck) == Identified(r, None);
    TouchInv(lim, s, p);
    assert SameMembers(s, r) by {
      forall q { TouchKeeps(s.podExecution, lim.execution, p, q); }
    }
    hide Inv, Touch, Identify, SameMembers;
    SameStuck(s, r);
    hide *;
    SameCovered(s, r);
    RewatchCovered(lim, r);
  }

  lemma RegisteredOutputs(lim: Limits, s: State, p: string, v: Version, luck: Luck)
    requires Inv(lim, s) && Positioned(s) && p in s.pods && v in s.pods[p].versions
    requires Registers(s, p, luck)
    ensures var r := Register(lim, s, p, luck).state;
            && Positioned(r) && p in r.pods
            && (SafeToPublish(lim, r, p, v, luck, StuckPods(r)) <==>
                 SafeToPublish(lim, s, p, v, luck, StuckBesides(lim, s, p)))
            && Current(r.pods[p]) == Current(s.pods[p])
            && r.podWritten == s.podWritten && (HasOutputs(r, p) <==> HasOutputs(s, p))
            && !StuckPod(r, p)
  {
    var r := Register(lim, s, p, luck).state;
    RegisterEffect(lim, s, p, luck, p);
    IdentifyGrowsRegister(lim, s, p, luck);
    forall q
      ensures HasOutputs(r, q) <==> HasOutputs(s, q)
      ensures q in s.pods && q != p ==> r.pods[q] == s.pods[q]
      ensures q in StuckPods(r) <==> q in StuckBesides(lim, s, p)
    {
      RegisterEffect(lim, s, p, luck, q);
      SameOutputs(lim, s, r, q);
    }
    hide Inv;
    SameSafety(lim, s, r, p, v, luck, StuckBesides(lim, s, p), StuckPods(r));
  }

  /** Which pods still have their outputs held after a registration. */
  lemma RegisteredHeld(lim: Limits, s: State, p: string, luck: Luck, newWatch: bool)
    requires Inv(lim, s) && Covered(s) && p in s.pods && !Has(s.podExecution, p) && !Current(s.pods[p]).written
    requires Registers(s, p, luck)
    ensures Positioned(Register(lim, s, p, luck).state)
    ensures OutputsHeld(Register(lim, s, p, luck).state, newWatch) <==> SafeToFree(lim, s, p, newWatch)
  {
    var r := Register(lim, s, p, luck).state;
    LatestShows(lim, s);
    RegisterEffect(lim, s, p, luck, p);
    IdentifyGrowsRegister(lim, s, p, luck);
    forall q | q in s.pods
      ensures HasOutputs(r, q) <==> HasOutputs(s, q)
      ensures q != p ==> r.pods[q] == s.pods[q]
      ensures StuckPod(r, q) <==> StuckBeside(lim, s, p, q)
    {
      RegisterEffect(lim, s, p, luck, q);
      SameOutputs(lim, s, r, q);
    }
    hide Inv, Register, Evicts, HasOutputs, ContextRefused;
  }

  lemma IdentifyGrowsRegister(lim: Limits, s: State, p: string, luck: Luck)
    requires Inv(lim, s) && p in s.pods && s.pods[p].versions != []
    ensures var r := Register(lim, s, p, luck).state;
            s.executions <= r.executions && r.artifacts == s.artifacts && r.podWritten == s.podWritten
  {
  }

  lemma RegisteredCovered(lim: Limits, s: State, p: string, v: Version, luck: Luck)
    requires Inv(lim, s) && Covered(s) && p in s.pods && v == Current(s.pods[p]) && !v.written
    requires !Has(s.podExecution, p)
    requires Registers(s, p, luck)
    ensures var r := Register(lim, s, p, luck);
            && r.ids.Some? && p in r.state.pods && r.state.pods[p].versions != []
            && (Covered(Publish(lim, r.state, p, v, r.ids.value, luck)) <==>
                 SafeToRegister(lim, s, p, Cut(s, p, v, luck)) && SafeToFree(lim, s, p, Cut(s, p, v, luck))
                 && SafeToPublish(lim, s, p, v, luck, StuckBesides(lim, s, p)))
  {
    var r := Register(lim, s, p, luck);
    RegisterInv(lim, s, p, luck);
    RegisterEffect(lim, s, p, luck, p);
    RegisteredOutputs(lim, s, p, v, luck);
    RegisterHeld(lim, s, p, luck, Cut(s, p, v, luck));
    RegisteredHeld(lim, s, p, luck, Cut(s, p, v, luck));
    assert HasOutputs(s, p) ==> Has(s.podWritten, p);
    hide Inv, Register, Publish, ExecutionsHeld, OutputsHeld, SafeToPublish, SafeToFree, SafeToRegister;
    PublishCovered(lim, r.state, p, v, r.ids.value, luck);
  }

  lemma RefusedCovered(lim: Limits, s: State, p: string, luck: Luck)
    requires Inv(lim, s) && Covered(s) && p in s.pods
    requires ContextRefused(s.contexts, s.owner[p]) || luck.fault == OnExecution
    ensures Register(lim, s, p, luck).ids.None?
    ensures Covered(Rewatch(Register(lim, s, p, luck).state))
  {
    RefusedExactly(s.contexts, s.memo, s.owner[p]);
    RegisterInv(lim, s, p, luck);
    var r := Register(lim, s, p, luck).state;
    RewatchCovered(lim, r);
  }

  lemma DeliveryCoveredExactly(lim: Limits, s: State, p: string, i: nat, luck: Luck)
    requires Sound(lim, s) && Covered(s) && Deliverable(s, p, i)
    ensures Covered(Handle(lim, s, p, i, luck)) <==> SafeDelivery(lim, s, p, i, luck)
  {
    var v, s0 := s.pods[p].versions[i], Delivered(s, p, i);
    DeliveredInv(lim, s, p, i);
    DeliveredCovered(lim, s, p, i);
    SafetyMoves(lim, s, p, i, luck);
    if v.written || s.pods[p].skipped {
    } else if luck.fault == OnParse {
      RewatchCovered(lim, s0);
    } else if StuckPod(s, p) {
      StuckCovered(lim, s0, p, v, luck);
    } else if Has(s.podExecution, p) || v.ids.Some? {
      FoundCovered(lim, s0, p, v, luck);
    } else if ContextRefused(s.contexts, s.owner[p]) || luck.fault == OnExecution {
      RefusedCovered(lim, s0, p, luck);
    } else if luck.fault == OnLink {
      MoveHistory(lim, s, p, i);
      LinkFaultUncovers(lim, s0, p, luck);
    } else {
      RegisteredCovered(lim, s0, p, v, luck);
    }
  }

  /** The safety conditions read the same before and after the watch moves to version `i`. */
  lemma SafetyMoves(lim: Limits, s: State, p: string, i: nat, luck: Luck)
    requires Positioned(s) && Deliverable(s, p, i)
    ensures Positioned(Delivered(s, p, i))
    ensures var v, s0 := s.pods[p].versions[i], Delivered(s, p, i);
            && (forall stuck :: SafeToPublish(lim, s0, p, v, luck, stuck) <==> SafeToPublish(lim, s, p, v, luck, stuck))
            && StuckPods(s0) == StuckPods(s) && StuckBesides(lim, s0, p) == StuckBesides(lim, s, p)
            && (!Has(s.podExecution, p) ==>
                 forall cut :: (SafeToRegister(lim, s0, p, cut) <==> SafeToRegister(lim, s, p, cut))
                               && (SafeToFree(lim, s0, p, cut) <==> SafeToFree(lim, s, p, cut)))
  {
    var v, s0 := s.pods[p].versions[i], Delivered(s, p, i);
    assert forall q :: q in s.pods && q != p ==> s0.pods[q] == s.pods[q];
    forall stuck
      ensures SafeToPublish(lim, s0, p, v, luck, stuck) <==> SafeToPublish(lim, s, p, v, luck, stuck)
    {
      SameSafety(lim, s, s0, p, v, luck, stuck, stuck);
    }
    assert StuckPods(s0) == StuckPods(s) && StuckBesides(lim, s0, p) == StuckBesides(lim, s, p);
    if !Has(s.podExecution, p) {
      forall q | Evicts(s.podExecution, lim.execution, p, q) ensures q != p {
        assert Has(s.podExecution, q);
      }
      forall cut { SameRegistration(lim, s, s0, p, cut); }
    }
  }

  lemma SameRegistration(lim: Limits, s: State, r: State, p: string, newWatch: bool)
    requires Positioned(s) && Positioned(r) && r.pods.Keys == s.pods.Keys && p in s.owner
    requires r == s.(pods := r.pods) && !Has(s.podExecution, p)
    requires forall q :: q in s.pods && q != p ==> r.pods[q] == s.pods[q]
    requires forall q :: Evicts(s.podExecution, lim.execution, p, q) ==> q != p
    ensures SafeToRegister(lim, r, p, newWatch) <==> SafeToRegister(lim, s, p, newWatch)
    ensures SafeToFree(lim, r, p, newWatch) <==> SafeToFree(lim, s, p, newWatch)
  {
  }

  lemma RestartCoveredExactly(lim: Limits, s: State)
    requires Sound(lim, s) && Covered(s)
    ensures Covered(Next(lim, s, Restart)) <==> SafeStep(lim, s, Restart)
  {
    RestartedCovered(s, Next(lim, s, Restart));
  }

  lemma RestartedCovered(s: State, r: State)
    requires Positioned(s) && r.pods == Rewatch(s).pods
    requires r.executions == s.executions && r.artifacts == s.artifacts
    requires r.podExecution == [] && r.podWritten == []
    ensures Covered(r) <==>
            forall p :: p in s.pods ==>
              && (Recorded(s.executions, p) ==> Settled(Latest(s.pods[p])))
              && (HasOutputs(s, p) ==> Latest(s.pods[p]).written)
  {
    assert forall p :: p in s.pods <==> p in r.pods;
    assert forall p :: p in s.pods ==> Shown(r.pods[p], false) == Latest(s.pods[p]);
    assert forall p :: !Has(r.podExecution, p) && !Has(r.podWritten, p);
  }

  lemma CreatedCovered(lim: Limits, s: State, step: Step)
    requires Sound(lim, s) && Covered(s) && Enabled(s, step) && step.CreatePod?
    ensures Covered(Next(lim, s, step))
  {
    var r, p := Next(lim, s, step), step.pod;
    assert !Recorded(s.executions, p) by {
      assert forall e :: 0 <= e < |s.executions| ==> s.executions[e].pod in s.owner;
    }
    assert !HasOutputs(s, p);
  }

  /** Coverage reads only the current versions, the records and the caches. */
  lemma SameCoverage(s: State, r: State)
    requires Covered(s) && r.pods.Keys == s.pods.Keys && Positioned(r)
    requires forall q :: q in s.pods ==> Current(r.pods[q]) == Current(s.pods[q])
    requires r.executions == s.executions && r.artifacts == s.artifacts
    requires r.podExecution == s.podExecution && r.podWritten == s.podWritten
    requires r.workflowContext == s.workflowContext && r.owner == s.owner
    ensures Covered(r)
  {
  }

  lemma AddedVersionCovered(s: State, p: string, v: Version)
    requires Covered(s) && p in s.pods
    ensures Covered(AddVersion(s, p, v))
  {
    hide ExecutionsHeld, OutputsHeld;
    SameCoverage(s, AddVersion(s, p, v));
  }

  /** A step keeps every pod covered exactly when it is safe. */
  lemma StepCoveredExactly(lim: Limits, s: State, step: Step)
    requires Sound(lim, s) && Covered(s) && Enabled(s, step)
    ensures Covered(Next(lim, s, step)) <==> SafeStep(lim, s, step)
  {
    match step
    case CreatePod(_, _, _) => CreatedCovered(lim, s, step);
    case ChangePod(p, done, out) => AddedVersionCovered(s, p, Latest(s.pods[p]).(completed := done, outputs := out));
    case ForeignContext(_, _) => SameCoverage(s, Next(lim, s, step));
    case Deliver(p, i, luck) => DeliveryCoveredExactly(lim, s, p, i, luck);
    case NewWatch => RewatchCovered(lim, s);
    case Restart => RestartCoveredExactly(lim, s);
  }

  lemma StepOnce(lim: Limits, s: State, step: Step)
    requires Sound(lim, s) && Covered(s) && Once(s) && Enabled(s, step)
    ensures Once(Next(lim, s, step))
  {
    if step.Deliver? {
      CoveredHandleOnce(lim, s, step.pod, step.i, step.luck);
    }
  }
}
