/**
  The metadata writer: an endless loop over watch events that records one MLMD
  execution per pod and its output artifacts, patches the record's ids back onto the
  pod as labels, and bridges the time until those labels show up in the events with
  three least-recently-used caches.

  The API server keeps, for every pod, all versions the pod has had.  `delivered` is the
  version the current watch delivered last; a watch may repeat versions or skip them,
  but never goes back.  A new watch starts from the latest version.
 */
module MetadataWriter {
  import opened Wrappers
  import opened Lru
  import Contexts

  const RUN_CONTEXT_TYPE := "KfpRun"

  /* ---- Data ---- */

  /** The two id labels; they are always patched together. */
  datatype Ids = Ids(execution: nat, context: nat)

  /** One entry of the Argo outputs annotation; artifacts without a URI are not recorded. */
  datatype Output = Output(name: string, uri: Option<string>)

  datatype Version = Version(ids: Option<Ids>, written: bool, completed: bool, outputs: Option<seq<Output>>)

  /** `skipped` pods (TFX and KFP v2) have metadata writers of their own. */
  datatype Pod = Pod(skipped: bool, versions: seq<Version>, delivered: nat)

  datatype Execution = Execution(pod: string, context: nat)

  datatype Artifact = Artifact(execution: nat, context: nat, name: string, uri: string)

  type IdCache = seq<Entry<string, nat>>

  type FlagCache = seq<Entry<string, ()>>

  datatype Limits = Limits(execution: nat, context: nat, written: nat)

  datatype State = State(
    owner: map<string, string>,        // pod name -> workflow name
    pods: map<string, Pod>,            // the API server and the position of the watch
    contexts: seq<Contexts.Context>,   // the MLMD store
    executions: seq<Execution>,
    artifacts: seq<Artifact>,
    memo: Contexts.Memo,               // the writer's own memory
    podExecution: IdCache,
    workflowContext: IdCache,
    podWritten: FlagCache
  )

  /** Where handling one event is cut short by an exception, if anywhere. */
  datatype Fault =
    | NoFault
    | OnParse           // before any record is made
    | OnExecution       // the store refuses the execution
    | OnLink            // after the execution exists, while its inputs are linked
    | OnOutput(k: nat)  // after k output artifacts exist

  /** What the world does while one event is handled; a patch may fail all its retries. */
  datatype Luck = Luck(fault: Fault, idsPatched: bool, writtenPatched: bool)

  /* ---- The API server ---- */

  function Latest(pod: Pod): Version
    requires pod.versions != []
  {
    pod.versions[|pod.versions| - 1]
  }

  function AddVersion(s: State, p: string, v: Version): State
    requires p in s.pods
  {
    s.(pods := s.pods[p := s.pods[p].(versions := s.pods[p].versions + [v])])
  }

  function Delivered(s: State, p: string, i: nat): State
    requires p in s.pods
  {
    s.(pods := s.pods[p := s.pods[p].(delivered := i)])
  }

  /** A new watch: every pod restarts from its latest version. */
  function Rewatch(s: State): State {
    s.(pods := map p | p in s.pods ::
                 s.pods[p].(delivered := if s.pods[p].versions == [] then 0 else |s.pods[p].versions| - 1))
  }

  /* ---- Handling one event ---- */

  /** The output artifacts that have a URI. */
  function Recordable(outputs: seq<Output>): seq<Output> {
    if outputs == [] then []
    else (if outputs[0].uri.Some? then [outputs[0]] else []) + Recordable(outputs[1..])
  }

  function ToRecord(v: Version): seq<Output> {
    if v.outputs.None? then [] else Recordable(v.outputs.value)
  }

  function Records(ids: Ids, outputs: seq<Output>): seq<Artifact> {
    seq(|outputs|, j requires 0 <= j < |outputs| =>
      Artifact(ids.execution, ids.context, outputs[j].name,
               if outputs[j].uri.Some? then outputs[j].uri.value else ""))
  }

  datatype Identified = Identified(state: State, ids: Option<Ids>)

  /** Records a new execution for pod `p`; without ids the event was abandoned. */
  function Register(lim: Limits, s: State, p: string, luck: Luck): Identified
    requires p in s.owner && p in s.pods && s.pods[p].versions != []
    requires Contexts.MemoAgrees(s.contexts, s.memo)
  {
    var found := Contexts.GetOrCreate(s.contexts, s.memo, Contexts.Call(s.owner[p], RUN_CONTEXT_TYPE));
    var s1 := s.(contexts := found.contexts, memo := found.memo);
    if found.result.Err? || luck.fault == OnExecution then Identified(s1, None)
    else
      var ids := Ids(|s.executions|, found.result.value);
      var s2 := s1.(executions := s.executions + [Execution(p, ids.context)]);
      if luck.fault == OnLink then Identified(s2, None)
      else
        var s3 := if luck.idsPatched then AddVersion(s2, p, Latest(s2.pods[p]).(ids := Some(ids))) else s2;
        Identified(
          s3.(podExecution := Put(s.podExecution, lim.execution, p, ids.execution),
              workflowContext := Put(s.workflowContext, lim.context, s.owner[p], ids.context)),
          Some(ids))
  }

  /** Finds the pod's ids in the caches, else in its labels, else registers it. */
  function Identify(lim: Limits, s: State, p: string, v: Version, luck: Luck): Identified
    requires p in s.owner && p in s.pods && s.pods[p].versions != []
    requires Contexts.MemoAgrees(s.contexts, s.memo)
  {
    var w := s.owner[p];
    if Has(s.podExecution, p) then
      var s1 := s.(podExecution := Touch(s.podExecution, p));
      if Has(s.workflowContext, w) then
        Identified(s1.(workflowContext := Touch(s.workflowContext, w)),
                   Some(Ids(Value(s.podExecution, p), Value(s.workflowContext, w))))
      else Identified(s1, None)  // KeyError
    else if v.ids.Some? then Identified(s, v.ids)
    else Register(lim, s, p, luck)
  }

  predicate Publishable(v: Version) {
    v.completed || v.outputs.Some?
  }

  function Publish(lim: Limits, s: State, p: string, v: Version, ids: Ids, luck: Luck): State
    requires p in s.pods && s.pods[p].versions != []
  {
    if Has(s.podWritten, p) || !Publishable(v) then s
    else
      var todo := ToRecord(v);
      if luck.fault.OnOutput? && luck.fault.k < |todo| then
        Rewatch(s.(artifacts := s.artifacts + Records(ids, todo[..luck.fault.k])))
      else
        var s1 := s.(artifacts := s.artifacts + Records(ids, todo));
        var s2 := if luck.writtenPatched then AddVersion(s1, p, Latest(s1.pods[p]).(written := true)) else s1;
        s2.(podWritten := Put(s.podWritten, lim.written, p, ()))
  }

  ghost predicate Deliverable(s: State, p: string, i: nat) {
    p in s.owner && p in s.pods && s.pods[p].delivered <= i < |s.pods[p].versions|
  }

  function Handle(lim: Limits, s: State, p: string, i: nat, luck: Luck): State
    requires Deliverable(s, p, i)
    requires Contexts.MemoAgrees(s.contexts, s.memo)
  {
    var v := s.pods[p].versions[i];
    var s0 := Delivered(s, p, i);
    if v.written || s.pods[p].skipped then s0
    else if luck.fault == OnParse then Rewatch(s0)
    else
      var found := Identify(lim, s0, p, v, luck);
      if found.ids.None? then Rewatch(found.state)
      else Publish(lim, found.state, p, v, found.ids.value, luck)
  }

  /* ---- The whole system ---- */

  datatype Step =
    | CreatePod(pod: string, workflow: string, skip: bool)
    | ChangePod(pod: string, done: bool, out: Option<seq<Output>>)
    | ForeignContext(name: string, typ: string)
    | Deliver(pod: string, i: nat, luck: Luck)
    | NewWatch     // server-side timeout
    | Restart      // the writer's process is replaced

  ghost predicate DistinctNames(outputs: seq<Output>) {
    forall i, j :: 0 <= i < j < |outputs| ==> outputs[i].name != outputs[j].name
  }

  /** A published outputs annotation and the completed label stay as they are. */
  ghost predicate Continues(old_: Version, done: bool, out: Option<seq<Output>>) {
    && (old_.completed ==> done)
    && (old_.outputs.Some? ==> out == old_.outputs)
    && (out.Some? ==> DistinctNames(out.value))
  }

  ghost predicate Enabled(s: State, step: Step) {
    match step
    case CreatePod(p, _, _) => p !in s.pods
    case ChangePod(p, done, out) =>
      p in s.pods && s.pods[p].versions != [] && Continues(Latest(s.pods[p]), done, out)
    case ForeignContext(name, _) => forall c :: c in s.contexts ==> c.name != name
    case Deliver(p, i, _) => Deliverable(s, p, i)
    case NewWatch => true
    case Restart => true
  }

  const FIRST_VERSION := Version(None, false, false, None)

  function Next(lim: Limits, s: State, step: Step): State
    requires Enabled(s, step) && Contexts.MemoAgrees(s.contexts, s.memo)
  {
    match step
    case CreatePod(p, w, skip) =>
      s.(owner := s.owner[p := w], pods := s.pods[p := Pod(skip, [FIRST_VERSION], 0)])
    case ChangePod(p, done, out) =>
      AddVersion(s, p, Latest(s.pods[p]).(completed := done, outputs := out))
    case ForeignContext(name, typ) => s.(contexts := s.contexts + [Contexts.Context(name, typ)])
    case Deliver(p, i, luck) => Handle(lim, s, p, i, luck)
    case NewWatch => Rewatch(s)
    case Restart => Rewatch(s).(memo := [], podExecution := [], workflowContext := [], podWritten := [])
  }

  /* ---- What must hold in every state, whatever goes wrong ---- */

  ghost predicate RightIds(executions: seq<Execution>, p: string, ids: Ids) {
    ids.execution < |executions| && executions[ids.execution] == Execution(p, ids.context)
  }

  ghost predicate PodOk(executions: seq<Execution>, p: string, pod: Pod) {
    && pod.delivered < |pod.versions|
    && (forall i :: 0 <= i < |pod.versions| && pod.versions[i].ids.Some? ==>
          RightIds(executions, p, pod.versions[i].ids.value))
    && (forall i :: 0 <= i < |pod.versions| && pod.versions[i].outputs.Some? ==>
          DistinctNames(pod.versions[i].outputs.value))
    && (forall i, j :: 0 <= i < j < |pod.versions| ==> Grows(pod.versions[i], pod.versions[j]))
  }

  /** What a later version of a pod keeps. */
  ghost predicate Grows(a: Version, b: Version) {
    && (a.ids.Some? ==> b.ids.Some?)
    && (a.written ==> b.written)
    && (a.completed ==> b.completed)
    && (a.outputs.Some? ==> b.outputs == a.outputs)
  }

  ghost predicate PodsOk(executions: seq<Execution>, pods: map<string, Pod>) {
    forall p :: p in pods ==> PodOk(executions, p, pods[p])
  }

  ghost predicate IsRunContext(contexts: seq<Contexts.Context>, id: int, workflow: string) {
    0 <= id < |contexts| && contexts[id] == Contexts.Context(workflow, RUN_CONTEXT_TYPE)
  }

  ghost predicate StoreOk(
    owner: map<string, string>, contexts: seq<Contexts.Context>, executions: seq<Execution>, artifacts: seq<Artifact>)
  {
    && (forall e :: 0 <= e < |executions| ==>
          executions[e].pod in owner && IsRunContext(contexts, executions[e].context, owner[executions[e].pod]))
    && (forall a :: 0 <= a < |artifacts| ==>
          artifacts[a].execution < |executions| && artifacts[a].context == executions[artifacts[a].execution].context)
  }

  ghost predicate IsExecutionOf(executions: seq<Execution>, e: int, p: string) {
    0 <= e < |executions| && executions[e].pod == p
  }

  ghost predicate CachesOk(
    lim: Limits, owner: map<string, string>, contexts: seq<Contexts.Context>, executions: seq<Execution>,
    podExecution: IdCache, workflowContext: IdCache)
  {
    && Valid(podExecution, lim.execution)
    && Valid(workflowContext, lim.context)
    && (forall p :: Has(podExecution, p) ==> p in owner && IsExecutionOf(executions, Value(podExecution, p), p))
    && (forall w :: Has(workflowContext, w) ==> IsRunContext(contexts, Value(workflowContext, w), w))
  }

  ghost predicate Inv(lim: Limits, s: State) {
    && s.owner.Keys == s.pods.Keys
    && PodsOk(s.executions, s.pods)
    && StoreOk(s.owner, s.contexts, s.executions, s.artifacts)
    && Contexts.UniqueNames(s.contexts) && Contexts.MemoAgrees(s.contexts, s.memo)
    && CachesOk(lim, s.owner, s.contexts, s.executions, s.podExecution, s.workflowContext)
    && Valid(s.podWritten, lim.written)
    && (forall p :: Has(s.podWritten, p) ==> p in s.owner)
  }

  ghost predicate Initial(s: State) {
    && s.owner == map[] && s.pods == map[]
    && Contexts.UniqueNames(s.contexts)
    && s.executions == [] && s.artifacts == []
    && s.memo == [] && s.podExecution == [] && s.workflowContext == [] && s.podWritten == []
  }

  ghost predicate Usable(lim: Limits) {
    0 < lim.execution && 0 < lim.context && 0 < lim.written
  }

  lemma InitialInv(lim: Limits, s: State)
    requires Usable(lim) && Initial(s)
    ensures Inv(lim, s)
  {
  }

  lemma DeliveredInv(lim: Limits, s: State, p: string, i: nat)
    requires Inv(lim, s) && Deliverable(s, p, i)
    ensures Inv(lim, Delivered(s, p, i))
  {
  }

  lemma RewatchInv(lim: Limits, s: State)
    requires Inv(lim, s)
    ensures Inv(lim, Rewatch(s))
  {
    assert Rewatch(s).pods.Keys == s.pods.Keys;
  }

  lemma AddVersionInv(lim: Limits, s: State, p: string, v: Version)
    requires Inv(lim, s) && p in s.pods
    requires Grows(Latest(s.pods[p]), v)
    requires v.ids.Some? ==> RightIds(s.executions, p, v.ids.value)
    requires v.outputs.Some? ==> DistinctNames(v.outputs.value)
    ensures Inv(lim, AddVersion(s, p, v))
  {
    var old_, new_ := s.pods[p], AddVersion(s, p, v).pods[p];
    forall i, j | 0 <= i < j < |new_.versions|
      ensures Grows(new_.versions[i], new_.versions[j])
    {
      if j == |old_.versions| && i < j - 1 {
        assert Grows(old_.versions[i], old_.versions[j - 1]);
      }
    }
    assert PodOk(s.executions, p, new_);
    assert AddVersion(s, p, v).pods.Keys == s.pods.Keys;
  }

  lemma TouchInv(lim: Limits, s: State, p: string)
    requires Inv(lim, s) && Has(s.podExecution, p)
    ensures Inv(lim, s.(podExecution := Touch(s.podExecution, p)))
  {
    TouchKeeps(s.podExecution, lim.execution, p, p);
    forall x { TouchKeeps(s.podExecution, lim.execution, p, x); }
  }

  lemma TouchContextInv(lim: Limits, s: State, w: string)
    requires Inv(lim, s) && Has(s.workflowContext, w)
    ensures Inv(lim, s.(workflowContext := Touch(s.workflowContext, w)))
  {
    TouchKeeps(s.workflowContext, lim.context, w, w);
    forall x { TouchKeeps(s.workflowContext, lim.context, w, x); }
  }

  lemma PutInv(lim: Limits, s: State, p: string, ids: Ids)
    requires Inv(lim, s) && p in s.owner
    requires RightIds(s.executions, p, ids)
    ensures Inv(lim, s.(podExecution := Put(s.podExecution, lim.execution, p, ids.execution),
                        workflowContext := Put(s.workflowContext, lim.context, s.owner[p], ids.context)))
  {
    PutKeeps(s.podExecution, lim.execution, p, ids.execution, p);
    PutKeeps(s.workflowContext, lim.context, s.owner[p], ids.context, s.owner[p]);
    forall x { PutKeeps(s.podExecution, lim.execution, p, ids.execution, x); }
    forall x { PutKeeps(s.workflowContext, lim.context, s.owner[p], ids.context, x); }
  }

  /** Growing the context table keeps everything that points into it. */
  lemma ContextsInv(lim: Limits, s: State, contexts: seq<Contexts.Context>, memo: Contexts.Memo)
    requires Inv(lim, s)
    requires s.contexts <= contexts && Contexts.UniqueNames(contexts) && Contexts.MemoAgrees(contexts, memo)
    ensures Inv(lim, s.(contexts := contexts, memo := memo))
  {
    forall id, w | IsRunContext(s.contexts, id, w) ensures IsRunContext(contexts, id, w) {
    }
  }

  lemma NewExecutionInv(lim: Limits, s: State, x: Execution)
    requires Inv(lim, s)
    requires x.pod in s.owner && IsRunContext(s.contexts, x.context, s.owner[x.pod])
    ensures Inv(lim, s.(executions := s.executions + [x]))
  {
    var after := s.executions + [x];
    forall p | p in s.pods ensures PodOk(after, p, s.pods[p]) {
      assert PodOk(s.executions, p, s.pods[p]);
    }
  }

  lemma NewArtifactsInv(lim: Limits, s: State, p: string, ids: Ids, outputs: seq<Output>)
    requires Inv(lim, s) && RightIds(s.executions, p, ids)
    ensures Inv(lim, s.(artifacts := s.artifacts + Records(ids, outputs)))
  {
  }

  lemma RegisterInv(lim: Limits, s: State, p: string, luck: Luck)
    requires Inv(lim, s) && p in s.pods
    ensures var r := Register(lim, s, p, luck);
            && Inv(lim, r.state) && p in r.state.pods
            && r.state.owner == s.owner
            && (r.ids.Some? ==> RightIds(r.state.executions, p, r.ids.value))
  {
    var call := Contexts.Call(s.owner[p], RUN_CONTEXT_TYPE);
    Contexts.GetOrCreateAgrees(s.contexts, s.memo, call);
    Contexts.FreshGetOrCreateKeepsUnique(s.contexts, call);
    var found := Contexts.GetOrCreate(s.contexts, s.memo, call);
    ContextsInv(lim, s, found.contexts, found.memo);
    var s1 := s.(contexts := found.contexts, memo := found.memo);
    if !(found.result.Err? || luck.fault == OnExecution) {
      var ids := Ids(|s.executions|, found.result.value);
      NewExecutionInv(lim, s1, Execution(p, ids.context));
      var s2 := s1.(executions := s.executions + [Execution(p, ids.context)]);
      if luck.fault != OnLink {
        var v := Latest(s2.pods[p]).(ids := Some(ids));
        if luck.idsPatched {
          AddVersionInv(lim, s2, p, v);
        }
        var s3 := if luck.idsPatched then AddVersion(s2, p, v) else s2;
        PutInv(lim, s3, p, ids);
      }
    }
  }

  /** Where the ids come from, they name an execution of this pod in the context of its workflow. */
  lemma IdentifyInv(lim: Limits, s: State, p: string, v: Version, luck: Luck)
    requires Inv(lim, s) && p in s.pods && v in s.pods[p].versions
    ensures var r := Identify(lim, s, p, v, luck);
            && Inv(lim, r.state) && p in r.state.pods
            && r.state.owner == s.owner
            && (r.ids.Some? ==> RightIds(r.state.executions, p, r.ids.value))
  {
    if Has(s.podExecution, p) {
      TouchInv(lim, s, p);
      var w := s.owner[p];
      if Has(s.workflowContext, w) {
        TouchContextInv(lim, s.(podExecution := Touch(s.podExecution, p)), w);
        var e := Value(s.podExecution, p);
        assert IsExecutionOf(s.executions, e, p);
        assert IsRunContext(s.contexts, s.executions[e].context, w);
        assert IsRunContext(s.contexts, Value(s.workflowContext, w), w);
        assert s.executions[e].context == Value(s.workflowContext, w);
      }
    } else if v.ids.Some? {
      assert PodOk(s.executions, p, s.pods[p]);
    } else {
      RegisterInv(lim, s, p, luck);
    }
  }

  lemma PublishInv(lim: Limits, s: State, p: string, v: Version, ids: Ids, luck: Luck)
    requires Inv(lim, s) && p in s.pods && RightIds(s.executions, p, ids)
    ensures Inv(lim, Publish(lim, s, p, v, ids, luck))
  {
    if !Has(s.podWritten, p) && Publishable(v) {
      var todo := ToRecord(v);
      if luck.fault.OnOutput? && luck.fault.k < |todo| {
        NewArtifactsInv(lim, s, p, ids, todo[..luck.fault.k]);
        RewatchInv(lim, s.(artifacts := s.artifacts + Records(ids, todo[..luck.fault.k])));
      } else {
        NewArtifactsInv(lim, s, p, ids, todo);
        var s1 := s.(artifacts := s.artifacts + Records(ids, todo));
        if luck.writtenPatched {
          assert PodOk(s.executions, p, s.pods[p]);
          AddVersionInv(lim, s1, p, Latest(s1.pods[p]).(written := true));
        }
        PutKeeps(s.podWritten, lim.written, p, (), p);
        forall x { PutKeeps(s.podWritten, lim.written, p, (), x); }
      }
    }
  }

  lemma HandleInv(lim: Limits, s: State, p: string, i: nat, luck: Luck)
    requires Inv(lim, s) && Deliverable(s, p, i)
    ensures Inv(lim, Handle(lim, s, p, i, luck))
  {
    var v := s.pods[p].versions[i];
    DeliveredInv(lim, s, p, i);
    var s0 := Delivered(s, p, i);
    if v.written || s.pods[p].skipped {
    } else if luck.fault == OnParse {
      RewatchInv(lim, s0);
    } else {
      IdentifyInv(lim, s0, p, v, luck);
      var found := Identify(lim, s0, p, v, luck);
      if found.ids.None? {
        RewatchInv(lim, found.state);
      } else {
        PublishInv(lim, found.state, p, v, found.ids.value, luck);
      }
    }
  }

  lemma CreatedInv(lim: Limits, s: State, p: string, w: string, skip: bool)
    requires Inv(lim, s) && p !in s.pods
    ensures Inv(lim, s.(owner := s.owner[p := w], pods := s.pods[p := Pod(skip, [FIRST_VERSION], 0)]))
  {
  }

  lemma NextInv(lim: Limits, s: State, step: Step)
    requires Inv(lim, s) && Enabled(s, step)
    ensures Inv(lim, Next(lim, s, step))
  {
    match step
    case CreatePod(p, w, skip) => CreatedInv(lim, s, p, w, skip);
    case ChangePod(p, done, out) =>
      assert PodOk(s.executions, p, s.pods[p]);
      AddVersionInv(lim, s, p, Latest(s.pods[p]).(completed := done, outputs := out));
    case ForeignContext(name, typ) =>
      ContextsInv(lim, s, s.contexts + [Contexts.Context(name, typ)], s.memo);
    case Deliver(p, i, luck) => HandleInv(lim, s, p, i, luck);
    case NewWatch => RewatchInv(lim, s);
    case Restart => RewatchInv(lim, s);
  }
}
