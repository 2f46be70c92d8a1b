/**
  Whole runs of the metadata writer: any number of pods, stale and repeated events, failed
  patches, exceptions and restarts, in any order.
 */
module WriterRuns {
  import opened Wrappers
  import opened Lru
  import Contexts
  import opened MetadataWriter
  import opened WriterCaches
  import opened WriterOnce
  import opened WriterCoverage

  ghost predicate CanRun(lim: Limits, s: State, steps: seq<Step>)
    requires Inv(lim, s)
    decreases |steps|
  {
    steps == [] || (
      Enabled(s, steps[0]) && (NextInv(lim, s, steps[0]); CanRun(lim, Next(lim, s, steps[0]), steps[1..])))
  }

  ghost function After(lim: Limits, s: State, steps: seq<Step>): (r: State)
    requires Inv(lim, s) && CanRun(lim, s, steps)
    ensures Inv(lim, r)
    decreases |steps|
  {
    if steps == [] then s
    else
      NextInv(lim, s, steps[0]);
      After(lim, Next(lim, s, steps[0]), steps[1..])
  }

  ghost predicate SafeRun(lim: Limits, s: State, steps: seq<Step>)
    requires Inv(lim, s) && CanRun(lim, s, steps)
    decreases |steps|
  {
    steps == [] || (
      SoundPositioned(lim, s);
      NextInv(lim, s, steps[0]);
      SafeStep(lim, s, steps[0]) && SafeRun(lim, Next(lim, s, steps[0]), steps[1..]))
  }

  lemma InitialSound(lim: Limits, s: State)
    requires Usable(lim) && Initial(s)
    ensures Sound(lim, s) && Covered(s) && Once(s)
  {
  }

  lemma {:induction false} SafeRunKeeps(lim: Limits, s: State, steps: seq<Step>)
    requires Sound(lim, s) && Covered(s) && Once(s) && CanRun(lim, s, steps) && SafeRun(lim, s, steps)
    ensures Sound(lim, After(lim, s, steps)) && Covered(After(lim, s, steps)) && Once(After(lim, s, steps))
    decreases |steps|
  {
    if steps != [] {
      NextSound(lim, s, steps[0]);
      StepCoveredExactly(lim, s, steps[0]);
      StepOnce(lim, s, steps[0]);
      SafeRunKeeps(lim, Next(lim, s, steps[0]), steps[1..]);
    }
  }

  /** Over any safe run, every pod has at most one execution and at most one set of outputs. */
  lemma SafeRunRecordsOnce(lim: Limits, s: State, steps: seq<Step>)
    requires Usable(lim)
    requires Initial(s) && Inv(lim, s) && CanRun(lim, s, steps) && SafeRun(lim, s, steps)
    ensures Once(After(lim, s, steps))
  {
    InitialSound(lim, s);
    SafeRunKeeps(lim, s, steps);
  }

  /** After a safe run, a step is safe if and only if no event after it can duplicate a record. */
  lemma UnsafeStepIsFatal(lim: Limits, s: State, steps: seq<Step>, step: Step)
    requires Usable(lim)
    requires Initial(s) && Inv(lim, s) && CanRun(lim, s, steps) && SafeRun(lim, s, steps)
    requires Enabled(After(lim, s, steps), step)
    ensures Positioned(After(lim, s, steps)) && Inv(lim, Next(lim, After(lim, s, steps), step))
    ensures SafeStep(lim, After(lim, s, steps), step) <==>
            forall p, i, luck :: Deliverable(Next(lim, After(lim, s, steps), step), p, i) ==>
              Once(Handle(lim, Next(lim, After(lim, s, steps), step), p, i, luck))
  {
    InitialSound(lim, s);
    SafeRunKeeps(lim, s, steps);
    var s1 := After(lim, s, steps);
    NextSound(lim, s1, step);
    StepCoveredExactly(lim, s1, step);
    StepOnce(lim, s1, step);
    CoveredExactly(lim, Next(lim, s1, step));
  }

  /* ---- Restarts are harmless while patches succeed ---- */

  /** Every record shows in the latest version of its pod. */
  ghost predicate Patched(s: State) {
    && Positioned(s)
    && forall p :: p in s.pods ==>
         && (Recorded(s.executions, p) ==> Settled(Latest(s.pods[p])))
         && (HasOutputs(s, p) ==> Latest(s.pods[p]).written)
  }

  /** Recorded outputs are remembered or show in the version the watch has reached. */
  ghost predicate OutputsShown(s: State) {
    && Positioned(s)
    && forall p :: p in s.pods && HasOutputs(s, p) ==> Has(s.podWritten, p) || Current(s.pods[p]).written
  }

  /** Whatever a cache lost, the watch has seen its label. */
  ghost predicate EvictedSeen(s: State, r: State)
    requires Positioned(s)
  {
    forall q :: q in s.pods ==>
      && (Has(s.podExecution, q) && !Has(r.podExecution, q) ==> Settled(Current(s.pods[q])))
      && (Has(s.podWritten, q) && !Has(r.podWritten, q) ==> Current(s.pods[q]).written)
  }

  /** The patches of an event succeed and no exception falls between a record and its patch. */
  ghost predicate Patches(luck: Luck) {
    luck.idsPatched && luck.writtenPatched && luck.fault in {NoFault, OnParse, OnExecution}
  }

  ghost predicate Careful(lim: Limits, s: State, step: Step)
    requires Inv(lim, s) && Enabled(s, step)
  {
    SoundPositioned(lim, s);
    step.Deliver? ==> Patches(step.luck) && EvictedSeen(s, Next(lim, s, step))
  }

  ghost predicate CarefulRun(lim: Limits, s: State, steps: seq<Step>)
    requires Inv(lim, s) && CanRun(lim, s, steps)
    decreases |steps|
  {
    steps == [] || (
      NextInv(lim, s, steps[0]);
      Careful(lim, s, steps[0]) && CarefulRun(lim, Next(lim, s, steps[0]), steps[1..]))
  }

  /** Which pods the written cache holds after publishing. */
  lemma PublishEvicts(lim: Limits, s: State, p: string, v: Version, ids: Ids, luck: Luck, q: string)
    requires p in s.pods && s.pods[p].versions != [] && Valid(s.podWritten, lim.written) && !luck.fault.OnOutput?
    ensures var r := Publish(lim, s, p, v, ids, luck);
            && r.podExecution == s.podExecution
            && (!Has(s.podWritten, p) && Publishable(v) ==>
                  (Has(r.podWritten, q) <==>
                     q == p || (Has(s.podWritten, q) && !Evicts(s.podWritten, lim.written, p, q))))
  {
    PutKeeps(s.podWritten, lim.written, p, (), q);
  }

  /** An event of a pod that is found. */
  lemma FoundEvicts(lim: Limits, s: State, p: string, i: nat, luck: Luck, q: string)
    requires Inv(lim, s) && Deliverable(s, p, i) && Patches(luck) && luck.fault != OnParse
    requires !s.pods[p].versions[i].written && !s.pods[p].skipped && !StuckPod(s, p)
    requires Has(s.podExecution, p) || s.pods[p].versions[i].ids.Some?
    ensures !Has(s.podWritten, p) && Publishable(s.pods[p].versions[i]) ==>
              (Has(Handle(lim, s, p, i, luck).podWritten, q) <==>
                 q == p || (Has(s.podWritten, q) && !Evicts(s.podWritten, lim.written, p, q)))
  {
    var v, s0 := s.pods[p].versions[i], Delivered(s, p, i);
    DeliveredInv(lim, s, p, i);
    IdentifyFinds(lim, s0, p, v, luck);
    var found := Identify(lim, s0, p, v, luck);
    PublishEvicts(lim, found.state, p, v, found.ids.value, luck, q);
    hide Publish, Identify, Evicts, Publishable;
  }

  /** An event of a pod that is recorded now. */
  lemma RegisteredEvicts(lim: Limits, s: State, p: string, i: nat, luck: Luck, q: string)
    requires Inv(lim, s) && Deliverable(s, p, i) && Patches(luck) && luck.fault != OnParse && luck.fault != OnExecution
    requires !s.pods[p].versions[i].written && !s.pods[p].skipped && !ContextRefused(s.contexts, s.owner[p])
    requires !Has(s.podExecution, p) && s.pods[p].versions[i].ids.None?
    ensures Has(Handle(lim, s, p, i, luck).podExecution, q) <==>
            q == p || (Has(s.podExecution, q) && !Evicts(s.podExecution, lim.execution, p, q))
    ensures !Has(s.podWritten, p) && Publishable(s.pods[p].versions[i]) ==>
              (Has(Handle(lim, s, p, i, luck).podWritten, q) <==>
                 q == p || (Has(s.podWritten, q) && !Evicts(s.podWritten, lim.written, p, q)))
  {
    var v, s0 := s.pods[p].versions[i], Delivered(s, p, i);
    DeliveredInv(lim, s, p, i);
    SoundPositioned(lim, s0);
    RegisterInv(lim, s0, p, luck);
    RegisterEffect(lim, s0, p, luck, q);
    IdentifyGrowsRegister(lim, s0, p, luck);
    hide Publish, Register, Evicts, Publishable, ContextRefused;
    var found := Identify(lim, s0, p, v, luck);
    PublishEvicts(lim, found.state, p, v, found.ids.value, luck, q);
  }

  lemma CarefulIsSafe(lim: Limits, s: State, step: Step)
    requires Sound(lim, s) && Patched(s) && OutputsShown(s) && Enabled(s, step) && Careful(lim, s, step)
    ensures SafeStep(lim, s, step)
  {
    if step.Deliver? {
      CarefulDelivery(lim, s, step.pod, step.i, step.luck);
    }
  }

  lemma CarefulDelivery(lim: Limits, s: State, p: string, i: nat, luck: Luck)
    requires Inv(lim, s) && OutputsShown(s) && Deliverable(s, p, i)
    requires Patches(luck) && EvictedSeen(s, Handle(lim, s, p, i, luck))
    ensures SafeDelivery(lim, s, p, i, luck)
  {
    var v := s.pods[p].versions[i];
    EvictedWasThere(s.podExecution, lim.execution, p);
    EvictedWasThere(s.podWritten, lim.written, p);
    hide Handle, HasOutputs, Evicts, Has, Settled, IsExecutionOf, ContextRefused;
    if v.written || s.pods[p].skipped || luck.fault == OnParse || StuckPod(s, p) {
    } else if Has(s.podExecution, p) || v.ids.Some? {
      forall q { FoundEvicts(lim, s, p, i, luck, q); }
      hide Inv;
    } else if !(ContextRefused(s.contexts, s.owner[p]) || luck.fault == OnExecution) {
      forall q { RegisteredEvicts(lim, s, p, i, luck, q); }
      hide Inv;
    }
  }

  lemma EvictedWasThere<V>(es: seq<Entry<string, V>>, capacity: nat, p: string)
    ensures forall q :: Evicts(es, capacity, p, q) ==> Has(es, q) && q != p
  {
  }

  lemma IdentifyPatched(lim: Limits, s: State, p: string, v: Version, luck: Luck)
    requires Inv(lim, s) && Patched(s) && p in s.pods && v in s.pods[p].versions
    requires luck.idsPatched && luck.fault in {NoFault, OnParse, OnExecution}
    ensures Patched(Identify(lim, s, p, v, luck).state)
  {
    var r := Identify(lim, s, p, v, luck).state;
    if !Has(s.podExecution, p) && v.ids.None? {
      IdentifyGrowsRegister(lim, s, p, luck);
      RegisterPatched(lim, s, p, luck);
    }
  }

  lemma RegisterPatched(lim: Limits, s: State, p: string, luck: Luck)
    requires Inv(lim, s) && Patched(s) && p in s.pods
    requires luck.idsPatched && luck.fault in {NoFault, OnParse, OnExecution}
    ensures Patched(Register(lim, s, p, luck).state)
  {
    var r := Register(lim, s, p, luck).state;
    RefusedExactly(s.contexts, s.memo, s.owner[p]);
    if ContextRefused(s.contexts, s.owner[p]) || luck.fault == OnExecution {
      assert r.pods == s.pods && r.executions == s.executions && r.artifacts == s.artifacts;
      hide *;
      SamePatched(s, r);
    } else {
      var c := RegisterIs(lim, s, p, luck);
      forall q
        ensures Recorded(r.executions, q) ==> q == p || Recorded(s.executions, q)
        ensures HasOutputs(r, q) ==> HasOutputs(s, q)
      {
        RecordedExtended(s.executions, Execution(p, c), q);
        SameOutputs(lim, s, r, q);
      }
      hide Inv, Register, ContextRefused, Recorded, HasOutputs, Put, Patched;
      LabelPatched(s, r, p, Ids(|s.executions|, c));
    }
  }

  lemma SamePatched(s: State, r: State)
    requires Patched(s) && r.pods == s.pods && r.executions == s.executions && r.artifacts == s.artifacts
    ensures Patched(r)
  {
  }

  /** Labelling the latest version of `p` covers a new record of `p`. */
  lemma LabelPatched(s: State, r: State, p: string, ids: Ids)
    requires Patched(s) && p in s.pods && r.pods == AddVersion(s, p, Latest(s.pods[p]).(ids := Some(ids))).pods
    requires forall q :: Recorded(r.executions, q) ==> q == p || Recorded(s.executions, q)
    requires forall q :: HasOutputs(r, q) ==> HasOutputs(s, q)
    ensures Patched(r)
  {
    hide Recorded, HasOutputs;
    assert Latest(r.pods[p]) == Latest(s.pods[p]).(ids := Some(ids));
  }

  lemma PublishPatched(lim: Limits, s: State, p: string, v: Version, ids: Ids, luck: Luck)
    requires Inv(lim, s) && Patched(s) && p in s.pods && RightIds(s.executions, p, ids)
    requires luck.writtenPatched && !luck.fault.OnOutput?
    ensures Patched(Publish(lim, s, p, v, ids, luck))
  {
    if !Has(s.podWritten, p) && Publishable(v) {
      var r := Publish(lim, s, p, v, ids, luck);
      forall q ensures HasOutputs(r, q) ==> HasOutputs(s, q) || q == p {
        NewArtifactsOutputs(s, p, ids, ToRecord(v), q);
      }
      RecordedByLabel(s.executions, p, ids);
      hide Inv, HasOutputs, Recorded, RightIds, ToRecord, Has;
    }
  }

  lemma RewatchPatched(s: State)
    requires Patched(s)
    ensures Patched(Rewatch(s))
  {
    var r := Rewatch(s);
    assert forall p :: p in s.pods ==> Latest(r.pods[p]) == Latest(s.pods[p]);
  }

  lemma DeliveredPatched(s: State, p: string, i: nat)
    requires Patched(s) && Deliverable(s, p, i)
    ensures Patched(Delivered(s, p, i))
  {
  }

  lemma HandlePatched(lim: Limits, s: State, p: string, i: nat, luck: Luck)
    requires Inv(lim, s) && Patched(s) && Deliverable(s, p, i)
    requires luck.idsPatched && luck.writtenPatched && luck.fault in {NoFault, OnParse, OnExecution}
    ensures Patched(Handle(lim, s, p, i, luck))
  {
    var v, s0 := s.pods[p].versions[i], Delivered(s, p, i);
    DeliveredInv(lim, s, p, i);
    DeliveredPatched(s, p, i);
    hide Inv, Patched, Publish;
    if v.written || s.pods[p].skipped {
    } else if luck.fault == OnParse {
      RewatchPatched(s0);
    } else {
      IdentifyInv(lim, s0, p, v, luck);
      IdentifyPatched(lim, s0, p, v, luck);
      var found := Identify(lim, s0, p, v, luck);
      if found.ids.None? {
        RewatchPatched(found.state);
      } else {
        PublishPatched(lim, found.state, p, v, found.ids.value, luck);
      }
    }
  }

  lemma ChangedPatched(lim: Limits, s: State, step: Step)
    requires Inv(lim, s) && Patched(s) && Enabled(s, step) && (step.CreatePod? || step.ChangePod?)
    ensures Patched(Next(lim, s, step))
  {
    if step.CreatePod? {
      NewPodIsFresh(lim, s, step.pod);
    }
    hide Inv, Recorded, HasOutputs;
  }

  lemma NewPodIsFresh(lim: Limits, s: State, p: string)
    requires Inv(lim, s) && p !in s.pods
    ensures !Recorded(s.executions, p) && !HasOutputs(s, p)
  {
    assert forall e :: 0 <= e < |s.executions| ==> s.executions[e].pod in s.owner;
  }

  lemma NextPatched(lim: Limits, s: State, step: Step)
    requires Inv(lim, s) && Patched(s) && Enabled(s, step) && Careful(lim, s, step)
    ensures Patched(Next(lim, s, step))
  {
    match step
    case CreatePod(_, _, _) => ChangedPatched(lim, s, step);
    case ChangePod(_, _, _) => ChangedPatched(lim, s, step);
    case ForeignContext(_, _) =>
    case Deliver(p, i, luck) => HandlePatched(lim, s, p, i, luck);
    case NewWatch => RewatchPatched(s);
    case Restart => RewatchPatched(s);
  }

  lemma RewatchOutputsShown(s: State)
    requires Patched(s)
    ensures OutputsShown(Rewatch(s))
  {
    var r := Rewatch(s);
    assert forall p :: p in r.pods ==> Current(r.pods[p]) == Latest(s.pods[p]);
    assert forall p :: HasOutputs(r, p) <==> HasOutputs(s, p);
  }

  /** An event that goes through shows its outputs in the written cache. */
  lemma PublishShown(lim: Limits, s: State, p: string, v: Version, ids: Ids, luck: Luck)
    requires Inv(lim, s) && OutputsShown(s) && p in s.pods && RightIds(s.executions, p, ids)
    requires Patches(luck)
    requires EvictedSeen(s, Publish(lim, s, p, v, ids, luck))
    ensures OutputsShown(Publish(lim, s, p, v, ids, luck))
  {
    if !Has(s.podWritten, p) && Publishable(v) {
      var r := Publish(lim, s, p, v, ids, luck);
      PublishInv(lim, s, p, v, ids, luck);
      SoundPositioned(lim, r);
      forall q
        ensures HasOutputs(r, q) ==> HasOutputs(s, q) || q == p
        ensures q in s.pods ==> Current(r.pods[q]) == Current(s.pods[q])
      {
        NewArtifactsOutputs(s, p, ids, ToRecord(v), q);
      }
      PutKeeps(s.podWritten, lim.written, p, (), p);
      hide Inv, HasOutputs, RightIds, Settled;
    }
  }

  /** What is shown depends on the current versions, the recorded outputs and the written cache only. */
  lemma SameShown(s: State, r: State)
    requires OutputsShown(s) && Positioned(r) && r.pods.Keys == s.pods.Keys && r.podWritten == s.podWritten
    requires forall q :: q in s.pods ==> Current(r.pods[q]) == Current(s.pods[q])
    requires forall q :: HasOutputs(r, q) ==> HasOutputs(s, q)
    ensures OutputsShown(r)
  {
  }

  /** The positions of the watch, and the versions behind them, are the same. */
  ghost predicate SameCurrent(s: State, r: State) {
    && Positioned(s) && Positioned(r) && r.pods.Keys == s.pods.Keys
    && forall q :: q in s.pods ==> Current(r.pods[q]) == Current(s.pods[q])
  }

  lemma RegisterCurrent(lim: Limits, s: State, p: string, luck: Luck)
    requires Inv(lim, s) && p in s.pods
    ensures SameCurrent(s, Register(lim, s, p, luck).state)
  {
    SoundPositioned(lim, s);
    var r := Register(lim, s, p, luck).state;
    var found := Contexts.GetOrCreate(s.contexts, s.memo, Contexts.Call(s.owner[p], RUN_CONTEXT_TYPE));
    if found.result.Ok? {
      var v := Latest(s.pods[p]).(ids := Some(Ids(|s.executions|, found.result.value)));
      assert r.pods == s.pods || r.pods == AddVersion(s, p, v).pods;
      hide *;
      AddedCurrent(s, r, p, v);
    }
  }

  lemma AddedCurrent(s: State, r: State, p: string, v: Version)
    requires Positioned(s) && p in s.pods && (r.pods == s.pods || r.pods == AddVersion(s, p, v).pods)
    ensures SameCurrent(s, r)
  {
  }

  /** Identifying a pod leaves the current versions alone. */
  lemma IdentifyCurrent(lim: Limits, s: State, p: string, v: Version, luck: Luck)
    requires Inv(lim, s) && p in s.pods && v in s.pods[p].versions
    ensures SameCurrent(s, Identify(lim, s, p, v, luck).state)
  {
    SoundPositioned(lim, s);
    RegisterCurrent(lim, s, p, luck);
    hide Register;
  }

  lemma IdentifyShown(lim: Limits, s: State, p: string, v: Version, luck: Luck)
    requires Inv(lim, s) && OutputsShown(s) && p in s.pods && v in s.pods[p].versions
    ensures var r := Identify(lim, s, p, v, luck).state;
            OutputsShown(r) && r.podWritten == s.podWritten
  {
    var r := Identify(lim, s, p, v, luck).state;
    IdentifyGrows(lim, s, p, v, luck);
    IdentifyCurrent(lim, s, p, v, luck);
    forall q { SameOutputs(lim, s, r, q); }
    hide *;
    SameShown(s, r);
  }

  lemma DeliveredShown(lim: Limits, s: State, p: string, i: nat)
    requires Inv(lim, s) && OutputsShown(s) && Deliverable(s, p, i)
    ensures OutputsShown(Delivered(s, p, i))
    ensures var s0 := Delivered(s, p, i);
            forall q :: q in s.pods ==>
              && (Settled(Current(s.pods[q])) ==> Settled(Current(s0.pods[q])))
              && (Current(s.pods[q]).written ==> Current(s0.pods[q]).written)
  {
    LaterVersion(s.executions, p, s.pods[p], s.pods[p].delivered, i);
    assert forall q :: HasOutputs(Delivered(s, p, i), q) <==> HasOutputs(s, q);
  }

  /** Between the first state of an event and the last one before publishing, labels only get newer. */
  lemma SeenLater(s: State, f: State, r: State)
    requires Positioned(s) && Positioned(f) && f.pods.Keys == s.pods.Keys && EvictedSeen(s, r)
    requires f.podWritten == s.podWritten && f.podExecution == r.podExecution
    requires forall q :: q in s.pods && Current(s.pods[q]).written ==> Current(f.pods[q]).written
    ensures EvictedSeen(f, r)
  {
  }

  lemma HandleShown(lim: Limits, s: State, p: string, i: nat, luck: Luck)
    requires Inv(lim, s) && Patched(s) && OutputsShown(s) && Deliverable(s, p, i)
    requires Patches(luck) && EvictedSeen(s, Handle(lim, s, p, i, luck))
    ensures OutputsShown(Handle(lim, s, p, i, luck))
  {
    var v, s0 := s.pods[p].versions[i], Delivered(s, p, i);
    DeliveredInv(lim, s, p, i);
    DeliveredShown(lim, s, p, i);
    DeliveredPatched(s, p, i);
    if v.written || s.pods[p].skipped {
    } else if luck.fault == OnParse {
      RewatchOutputsShown(s0);
    } else {
      IdentifyInv(lim, s0, p, v, luck);
      IdentifyPatched(lim, s0, p, v, luck);
      IdentifyShown(lim, s0, p, v, luck);
      IdentifyCurrent(lim, s0, p, v, luck);
      hide Inv, OutputsShown, Publish, Identify, Patched, EvictedSeen;
      var found := Identify(lim, s0, p, v, luck);
      if found.ids.None? {
        RewatchOutputsShown(found.state);
      } else {
        var r := Publish(lim, found.state, p, v, found.ids.value, luck);
        PublishKeepsCaches(lim, found.state, p, v, found.ids.value, luck);
        SeenLater(s, found.state, r);
        PublishShown(lim, found.state, p, v, found.ids.value, luck);
      }
    }
  }

  lemma NextShown(lim: Limits, s: State, step: Step)
    requires Inv(lim, s) && Patched(s) && OutputsShown(s) && Enabled(s, step) && Careful(lim, s, step)
    ensures OutputsShown(Next(lim, s, step))
  {
    match step
    case CreatePod(p, _, _) =>
      NewPodIsFresh(lim, s, p);
      assert forall q :: HasOutputs(Next(lim, s, step), q) <==> HasOutputs(s, q);
    case ChangePod(p, _, _) =>
      assert forall q :: HasOutputs(Next(lim, s, step), q) <==> HasOutputs(s, q);
    case ForeignContext(_, _) =>
      assert forall q :: HasOutputs(Next(lim, s, step), q) <==> HasOutputs(s, q);
    case Deliver(p, i, luck) => HandleShown(lim, s, p, i, luck);
    case NewWatch => RewatchOutputsShown(s);
    case Restart => RestartShown(lim, s);
  }

  lemma RestartShown(lim: Limits, s: State)
    requires Inv(lim, s) && Patched(s)
    ensures OutputsShown(Next(lim, s, Restart))
  {
    var r := Next(lim, s, Restart);
    assert forall p :: p in r.pods ==> Current(r.pods[p]) == Latest(s.pods[p]);
    assert forall p :: HasOutputs(r, p) <==> HasOutputs(s, p);
  }

  lemma {:induction false} CarefulRunIsSafe(lim: Limits, s: State, steps: seq<Step>)
    requires Sound(lim, s) && Patched(s) && OutputsShown(s) && CanRun(lim, s, steps) && CarefulRun(lim, s, steps)
    ensures SafeRun(lim, s, steps)
    decreases |steps|
  {
    if steps != [] {
      CarefulIsSafe(lim, s, steps[0]);
      NextSound(lim, s, steps[0]);
      NextPatched(lim, s, steps[0]);
      NextShown(lim, s, steps[0]);
      CarefulRunIsSafe(lim, Next(lim, s, steps[0]), steps[1..]);
    }
  }

  /** However often and wherever the writer restarts, a careful run records every pod at most once. */
  lemma RestartsAreHarmless(lim: Limits, s: State, steps: seq<Step>)
    requires Usable(lim)
    requires Initial(s) && Inv(lim, s) && CanRun(lim, s, steps) && CarefulRun(lim, s, steps)
    ensures Once(After(lim, s, steps))
  {
    InitialSound(lim, s);
    CarefulRunIsSafe(lim, s, steps);
    SafeRunRecordsOnce(lim, s, steps);
  }

  /* ---- A pod cache larger than the workflow cache ---- */

  /** Some cached pod's workflow is not cached: the next event for that pod raises. */
  ghost predicate Stuck(s: State) {
    exists p :: StuckPod(s, p)
  }

  ghost predicate CanGetStuck(lim: Limits) {
    exists s, steps :: Initial(s) && Inv(lim, s) && CanRun(lim, s, steps) && Stuck(After(lim, s, steps))
  }

  ghost predicate NothingRecorded(s: State, r: State) {
    r.executions == s.executions && r.artifacts == s.artifacts
  }

  /** Every event of a stuck pod that says anything new raises, records nothing and leaves the pod stuck. */
  lemma StuckRaises(lim: Limits, s: State, p: string, i: nat, luck: Luck)
    requires Inv(lim, s) && Deliverable(s, p, i) && StuckPod(s, p)
    ensures !s.pods[p].versions[i].written && !s.pods[p].skipped ==>
              Identify(lim, Delivered(s, p, i), p, s.pods[p].versions[i], luck).ids.None?
    ensures NothingRecorded(s, Handle(lim, s, p, i, luck)) && StuckPod(Handle(lim, s, p, i, luck), p)
  {
    TouchKeeps(s.podExecution, lim.execution, p, p);
  }

  /** No other pod is shown to the writer, and the writer is not restarted. */
  ghost predicate OnlyShows(steps: seq<Step>, p: string) {
    steps == [] || (steps[0] != Restart && (steps[0].Deliver? ==> steps[0].pod == p) && OnlyShows(steps[1..], p))
  }

  /** As long as no other pod is shown, a stuck pod stays stuck and nothing is recorded. */
  lemma {:induction false} StuckStays(lim: Limits, s: State, steps: seq<Step>, p: string)
    requires Inv(lim, s) && CanRun(lim, s, steps) && StuckPod(s, p) && OnlyShows(steps, p)
    ensures NothingRecorded(s, After(lim, s, steps)) && StuckPod(After(lim, s, steps), p)
    decreases |steps|
  {
    if steps != [] {
      NextInv(lim, s, steps[0]);
      StuckStep(lim, s, steps[0], p);
      hide Inv, Next, Enabled, StuckPod;
      StuckStays(lim, Next(lim, s, steps[0]), steps[1..], p);
    }
  }

  lemma StuckStep(lim: Limits, s: State, step: Step, p: string)
    requires Inv(lim, s) && Enabled(s, step) && StuckPod(s, p)
    requires step != Restart && (step.Deliver? ==> step.pod == p)
    ensures NothingRecorded(s, Next(lim, s, step)) && StuckPod(Next(lim, s, step), p)
  {
    if step.Deliver? {
      StuckRaises(lim, s, p, step.i, step.luck);
    }
    hide Handle;
  }

  /** Recording another pod of the same workflow frees a stuck pod, and only that or its eviction does. */
  lemma FreedExactly(lim: Limits, s: State, p: string, q: string, luck: Luck)
    requires Inv(lim, s) && StuckPod(s, p) && q in s.pods && !Has(s.podExecution, q)
    requires Registers(s, q, luck)
    ensures !StuckPod(Register(lim, s, q, luck).state, p) <==>
            s.owner[q] == s.owner[p] || Evicts(s.podExecution, lim.execution, q, p)
  {
    SoundPositioned(lim, s);
    RegisterEffect(lim, s, q, luck, p);
  }

  lemma {:induction false} RunAppend(lim: Limits, s: State, a: seq<Step>, b: seq<Step>)
    requires Inv(lim, s) && CanRun(lim, s, a) && CanRun(lim, After(lim, s, a), b)
    ensures CanRun(lim, s, a + b) && After(lim, s, a + b) == After(lim, After(lim, s, a), b)
    decreases |a|
  {
    if a == [] {
      assert a + b == b;
    } else {
      hide Inv, Next, Enabled;
      NextInv(lim, s, a[0]);
      RunAppend(lim, Next(lim, s, a[0]), a[1..], b);
      assert (a + b)[0] == a[0] && (a + b)[1..] == a[1..] + b;
    }
  }

  function Name(n: nat): string {
    seq(n, _ => 'p')
  }

  /** The first n names, the newest first. */
  function NewestFirst(n: nat): (names: seq<string>)
    ensures |names| == n
  {
    if n == 0 then [] else [Name(n - 1)] + NewestFirst(n - 1)
  }

  lemma {:induction false} NewestFirstAt(n: nat)
    ensures forall i :: 0 <= i < n ==> NewestFirst(n)[i] == Name(n - 1 - i)
  {
    if n > 0 {
      NewestFirstAt(n - 1);
    }
  }

  /** n pods, each of a workflow of its own, have just been registered. */
  ghost predicate Filled(lim: Limits, s: State, n: nat) {
    && OwnWorkflows(s.owner, n)
    && ShorterNames(s.contexts, n)
    && Keys(s.podExecution) == NewestFirst(n)
    && Keys(s.workflowContext) == NewestFirst(n)[..if n < lim.context then n else lim.context]
  }

  ghost predicate OwnWorkflows(owner: map<string, string>, n: nat) {
    forall p :: p in owner ==> |p| < n && owner[p] == p
  }

  ghost predicate ShorterNames(contexts: seq<Contexts.Context>, n: nat) {
    forall i :: 0 <= i < |contexts| ==> |contexts[i].name| < n
  }

  lemma PutNew(es: IdCache, capacity: nat, k: string, v: nat, n: nat)
    requires Valid(es, capacity)
    requires Keys(es) == NewestFirst(n)[..if n < capacity then n else capacity]
    requires k == Name(n)
    ensures Keys(Put(es, capacity, k, v)) == NewestFirst(n + 1)[..if n + 1 < capacity then n + 1 else capacity]
  {
    NewestFirstAt(n);
    NewestFirstAt(n + 1);
    KeysHas(es, k);
    WithoutHas(es, k, k);
    assert !Has(es, k) by {
      assert forall i :: 0 <= i < n ==> |NewestFirst(n)[i]| < n;
    }
    var all := [Entry(k, v)] + es;
    assert all[1..] == es;
    if |all| > capacity {
      KeysTake(all, capacity);
    }
  }

  const QUIET := Luck(NoFault, false, false)

  lemma NameIsNew(es: IdCache, n: nat, shown: nat)
    requires shown <= n && Keys(es) == NewestFirst(n)[..shown]
    ensures !Has(es, Name(n))
  {
    NewestFirstAt(n);
    KeysHas(es, Name(n));
    assert forall i :: 0 <= i < shown ==> |NewestFirst(n)[i]| < n;
  }

  /** What showing a fresh pod its first version does. */
  lemma FreshPodRegistered(lim: Limits, s: State, p: string)
    requires Inv(lim, s) && Deliverable(s, p, 0) && s.pods[p] == Pod(false, [FIRST_VERSION], 0)
    requires !Has(s.podExecution, p) && forall c :: c in s.contexts ==> c.name != s.owner[p]
    ensures var r := Handle(lim, s, p, 0, QUIET);
            && r.owner == s.owner
            && r.contexts == s.contexts + [Contexts.Context(s.owner[p], RUN_CONTEXT_TYPE)]
            && r.podExecution == Put<string, nat>(s.podExecution, lim.execution, p, |s.executions|)
            && r.workflowContext == Put<string, nat>(s.workflowContext, lim.context, s.owner[p], |s.contexts|)
  {
    assert Delivered(s, p, 0) == s;
    Contexts.GetOrCreateAgrees(s.contexts, s.memo, Contexts.Call(s.owner[p], RUN_CONTEXT_TYPE));
    Contexts.ScanFinds(s.contexts, s.owner[p]);
  }

  /** A pod of a new workflow is created and shown to the writer. */
  lemma FreshPodSteps(lim: Limits, s: State, p: string) returns (r: State)
    requires Inv(lim, s) && p !in s.owner && !Has(s.podExecution, p)
    requires (forall i :: 0 <= i < |s.contexts| ==> s.contexts[i].name != p)
    ensures CanRun(lim, s, [CreatePod(p, p, false), Deliver(p, 0, QUIET)])
    ensures r == After(lim, s, [CreatePod(p, p, false), Deliver(p, 0, QUIET)])
    ensures r.owner == s.owner[p := p]
    ensures r.contexts == s.contexts + [Contexts.Context(p, RUN_CONTEXT_TYPE)]
    ensures r.podExecution == Put<string, nat>(s.podExecution, lim.execution, p, |s.executions|)
    ensures r.workflowContext == Put<string, nat>(s.workflowContext, lim.context, p, |s.contexts|)
  {
    var create, deliver := CreatePod(p, p, false), Deliver(p, 0, QUIET);
    NextInv(lim, s, create);
    var s1 := Next(lim, s, create);
    FreshPodRegistered(lim, s1, p);
    TwoSteps(lim, s, create, deliver);
    r := Next(lim, s1, deliver);
  }

  lemma RefilledKeys(lim: Limits, es: IdCache, ws: IdCache, n: nat, e: nat, c: nat)
    requires Valid(es, lim.execution) && Valid(ws, lim.context) && n < lim.execution
    requires Keys(es) == NewestFirst(n)
    requires Keys(ws) == NewestFirst(n)[..if n < lim.context then n else lim.context]
    ensures Keys(Put(es, lim.execution, Name(n), e)) == NewestFirst(n + 1)
    ensures Keys(Put(ws, lim.context, Name(n), c)) ==
            NewestFirst(n + 1)[..if n + 1 < lim.context then n + 1 else lim.context]
  {
    hide Put, Valid, Keys;
    assert NewestFirst(n)[..n] == NewestFirst(n);
    PutNew(es, lim.execution, Name(n), e, n);
    PutNew(ws, lim.context, Name(n), c, n);
    assert NewestFirst(n + 1)[..n + 1] == NewestFirst(n + 1);
  }

  lemma FillOne(lim: Limits, s: State, n: nat) returns (steps: seq<Step>, r: State)
    requires Usable(lim) && Inv(lim, s) && Filled(lim, s, n) && n < lim.execution
    ensures CanRun(lim, s, steps) && r == After(lim, s, steps)
    ensures Filled(lim, r, n + 1)
  {
    hide *;
    steps := [CreatePod(Name(n), Name(n), false), Deliver(Name(n), 0, QUIET)];
    FilledNext(lim, s, n);
    r := FreshPodSteps(lim, s, Name(n));
    FilledParts(lim, r, n + 1);
  }

  lemma FilledNext(lim: Limits, s: State, n: nat)
    requires Usable(lim) && Inv(lim, s) && Filled(lim, s, n) && n < lim.execution
    ensures Name(n) !in s.owner && !Has(s.podExecution, Name(n))
    ensures forall i :: 0 <= i < |s.contexts| ==> s.contexts[i].name != Name(n)
    ensures OwnWorkflows(s.owner[Name(n) := Name(n)], n + 1)
    ensures ShorterNames(s.contexts + [Contexts.Context(Name(n), RUN_CONTEXT_TYPE)], n + 1)
    ensures Keys(Put<string, nat>(s.podExecution, lim.execution, Name(n), |s.executions|)) == NewestFirst(n + 1)
    ensures Keys(Put<string, nat>(s.workflowContext, lim.context, Name(n), |s.contexts|)) ==
            NewestFirst(n + 1)[..if n + 1 < lim.context then n + 1 else lim.context]
  {
    RefilledKeys(lim, s.podExecution, s.workflowContext, n, |s.executions|, |s.contexts|);
    OneMore(s.owner, s.contexts, n);
    hide *;
    NameIsNew(s.podExecution, n, n) by {
      assert NewestFirst(n)[..n] == NewestFirst(n);
    }
  }

  lemma OneMore(owner: map<string, string>, contexts: seq<Contexts.Context>, n: nat)
    requires OwnWorkflows(owner, n) && ShorterNames(contexts, n)
    ensures Name(n) !in owner && forall i :: 0 <= i < |contexts| ==> contexts[i].name != Name(n)
    ensures OwnWorkflows(owner[Name(n) := Name(n)], n + 1)
    ensures ShorterNames(contexts + [Contexts.Context(Name(n), RUN_CONTEXT_TYPE)], n + 1)
  {
  }

  lemma FilledParts(lim: Limits, s: State, n: nat)
    requires OwnWorkflows(s.owner, n) && ShorterNames(s.contexts, n)
    requires Keys(s.podExecution) == NewestFirst(n)
    requires Keys(s.workflowContext) == NewestFirst(n)[..if n < lim.context then n else lim.context]
    ensures Filled(lim, s, n)
  {
  }

  lemma TwoSteps(lim: Limits, s: State, a: Step, b: Step)
    requires Inv(lim, s) && Enabled(s, a) && Inv(lim, Next(lim, s, a)) && Enabled(Next(lim, s, a), b)
    ensures CanRun(lim, s, [a, b]) && After(lim, s, [a, b]) == Next(lim, Next(lim, s, a), b)
  {
    var s1 := Next(lim, s, a);
    NextInv(lim, s1, b);
    var s2 := Next(lim, s1, b);
    hide Inv, Next, Enabled;
    assert [a, b][1..] == [b] && [b][1..] == [];
    assert CanRun(lim, s2, []);
    assert CanRun(lim, s1, [b]) && After(lim, s1, [b]) == s2;
  }

  lemma FilledNone(lim: Limits, s: State)
    requires Initial(s) && Inv(lim, s) && s.contexts == []
    ensures CanRun(lim, s, []) && After(lim, s, []) == s && Filled(lim, s, 0)
  {
    hide Inv;
    assert Keys(s.podExecution) == [] && Keys(s.workflowContext) == [] && NewestFirst(0) == [];
  }

  lemma {:induction false} Fill(lim: Limits, s: State, n: nat) returns (steps: seq<Step>)
    requires Usable(lim) && n <= lim.execution
    requires Initial(s) && Inv(lim, s) && s.contexts == []
    ensures CanRun(lim, s, steps) && Filled(lim, After(lim, s, steps), n)
  {
    if n == 0 {
      hide *;
      steps := [];
      FilledNone(lim, s);
    } else {
      hide *;
      var before := Fill(lim, s, n - 1);
      var two, _ := FillOne(lim, After(lim, s, before), n - 1);
      RunAppend(lim, s, before, two);
      steps := before + two;
    }
  }

  lemma {:induction false} RunInStep(lim: Limits, s: State, steps: seq<Step>)
    requires Inv(lim, s) && CanRun(lim, s, steps) && CachesInStep(s) && lim.execution <= lim.context
    ensures CachesInStep(After(lim, s, steps))
    decreases |steps|
  {
    if steps != [] {
      NextInv(lim, s, steps[0]);
      NextInStep(lim, s, steps[0]);
      RunInStep(lim, Next(lim, s, steps[0]), steps[1..]);
    }
  }

  lemma NeverStuck(lim: Limits, s: State, steps: seq<Step>)
    requires Usable(lim) && lim.execution <= lim.context
    requires Initial(s) && Inv(lim, s) && CanRun(lim, s, steps)
    ensures !Stuck(After(lim, s, steps))
  {
    RunInStep(lim, s, steps);
    var r := After(lim, s, steps);
    forall p | p in r.owner && Has(r.podExecution, p) ensures Has(r.workflowContext, r.owner[p]) {
      HitHasWorkflow(r.podExecution, r.workflowContext, r.owner, p);
    }
  }

  lemma FilledIsStuck(lim: Limits, s: State, n: nat)
    requires Usable(lim) && n == lim.context + 1 && Inv(lim, s) && Filled(lim, s, n)
    ensures Stuck(s)
  {
    NewestFirstAt(n);
    KeysHas(s.podExecution, Name(0));
    KeysHas(s.workflowContext, Name(0));
    assert NewestFirst(n)[n - 1] == Name(0);
    assert IsExecutionOf(s.executions, Value(s.podExecution, Name(0)), Name(0));
    assert forall i :: 0 <= i < n - 1 ==> |NewestFirst(n)[i]| > 0;
    assert StuckPod(s, Name(0));
  }

  /** The writer can get stuck on a pod exactly when its pod cache is the larger one. */
  lemma StuckExactly(lim: Limits)
    requires Usable(lim)
    ensures CanGetStuck(lim) <==> lim.execution > lim.context
  {
    if lim.execution <= lim.context {
      forall s, steps | Initial(s) && Inv(lim, s) && CanRun(lim, s, steps)
        ensures !Stuck(After(lim, s, steps))
      {
        NeverStuck(lim, s, steps);
      }
    } else {
      var s := State(map[], map[], [], [], [], [], [], [], []);
      InitialInv(lim, s);
      var steps := Fill(lim, s, lim.context + 1);
      FilledIsStuck(lim, After(lim, s, steps), lim.context + 1);
    }
  }
}
