/**
  How often a pod is recorded.  A pod is covered while the writer still remembers it, or
  while every version it can yet be shown carries the label that says it is recorded, or
  while every attempt to handle it raises before anything is recorded.
  Being covered is exactly what rules out a duplicate on the next event, and `SafeStep`
  says, before the step is taken, exactly which steps keep every pod covered.
 */
module WriterOnce {
  import opened Wrappers
  import opened Lru
  import Contexts
  import opened MetadataWriter

  /* ---- At most one record per pod ---- */

  ghost predicate Recorded(executions: seq<Execution>, p: string) {
    exists e :: IsExecutionOf(executions, e, p)
  }

  ghost predicate OutputRecorded(executions: seq<Execution>, artifacts: seq<Artifact>, p: string) {
    exists a :: 0 <= a < |artifacts| && IsExecutionOf(executions, artifacts[a].execution, p)
  }

  ghost predicate HasOutputs(s: State, p: string) {
    OutputRecorded(s.executions, s.artifacts, p)
  }

  ghost predicate OneExecution(s: State) {
    forall a, b :: 0 <= a < b < |s.executions| ==> s.executions[a].pod != s.executions[b].pod
  }

  /** No output name is recorded twice for the same pod. */
  ghost predicate OneOutput(s: State) {
    forall a, b, p :: 0 <= a < b < |s.artifacts|
      && IsExecutionOf(s.executions, s.artifacts[a].execution, p)
      && IsExecutionOf(s.executions, s.artifacts[b].execution, p)
      ==> s.artifacts[a].name != s.artifacts[b].name
  }

  ghost predicate Once(s: State) {
    OneExecution(s) && OneOutput(s)
  }

  /* ---- What the labels and annotations of a pod say about its records ---- */

  ghost predicate Names(outputs: seq<Output>, name: string) {
    exists j :: 0 <= j < |outputs| && outputs[j].name == name
  }

  function Current(pod: Pod): Version
    requires pod.delivered < |pod.versions|
  {
    pod.versions[pod.delivered]
  }

  ghost predicate HistoryOk(executions: seq<Execution>, p: string, pod: Pod) {
    && pod.delivered < |pod.versions|
    && (Recorded(executions, p) ==> !pod.skipped)
    && (forall i :: 0 <= i < |pod.versions| && pod.versions[i].written ==> Recorded(executions, p))
  }

  ghost predicate History(s: State) {
    && (forall p :: p in s.pods ==> HistoryOk(s.executions, p, s.pods[p]))
    && (forall a, p :: 0 <= a < |s.artifacts| && p in s.pods && IsExecutionOf(s.executions, s.artifacts[a].execution, p)
          ==> s.pods[p].delivered < |s.pods[p].versions| && Names(ToRecord(Current(s.pods[p])), s.artifacts[a].name))
  }

  /** Invariants of every reachable state, whatever goes wrong. */
  ghost predicate Sound(lim: Limits, s: State) {
    Inv(lim, s) && History(s)
  }

  /** The pod is cached and its workflow is not: looking the workflow up raises. */
  ghost predicate StuckPod(s: State, p: string) {
    p in s.owner && Has(s.podExecution, p) && !Has(s.workflowContext, s.owner[p])
  }

  /* ---- Coverage ---- */

  ghost predicate Settled(v: Version) {
    v.ids.Some? || v.written
  }

  /** The version a pod is shown again first: after a new watch the latest, else the current one. */
  function Shown(pod: Pod, newWatch: bool): Version
    requires pod.delivered < |pod.versions|
  {
    if newWatch then Latest(pod) else Current(pod)
  }

  ghost predicate Positioned(s: State) {
    forall p :: p in s.pods ==> s.pods[p].delivered < |s.pods[p].versions|
  }

  ghost predicate ExecutionsHeld(s: State, newWatch: bool)
    requires Positioned(s)
  {
    forall p :: p in s.pods && Recorded(s.executions, p) ==>
      Has(s.podExecution, p) || Settled(Shown(s.pods[p], newWatch))
  }

  ghost predicate OutputsHeld(s: State, newWatch: bool)
    requires Positioned(s)
  {
    forall p :: p in s.pods && HasOutputs(s, p) ==>
      Has(s.podWritten, p) || Shown(s.pods[p], newWatch).written || StuckPod(s, p)
  }

  ghost predicate Covered(s: State) {
    Positioned(s) && ExecutionsHeld(s, false) && OutputsHeld(s, false)
  }

  /* ---- Helpers ---- */

  lemma {:induction false} RecordableNames(outputs: seq<Output>)
    requires DistinctNames(outputs)
    ensures DistinctNames(Recordable(outputs))
    ensures forall o :: o in Recordable(outputs) ==> o in outputs
  {
    if outputs != [] {
      RecordableNames(outputs[1..]);
      var rest := Recordable(outputs[1..]);
      forall j | 0 <= j < |rest| ensures rest[j].name != outputs[0].name {
        assert rest[j] in rest;
        var k :| 0 <= k < |outputs[1..]| && outputs[1..][k] == rest[j];
        assert outputs[k + 1] == rest[j];
      }
    }
  }

  lemma ToRecordDistinct(executions: seq<Execution>, p: string, pod: Pod, v: Version)
    requires PodOk(executions, p, pod) && v in pod.versions
    ensures DistinctNames(ToRecord(v))
  {
    if v.outputs.Some? {
      RecordableNames(v.outputs.value);
    }
  }

  lemma RecordedByLabel(executions: seq<Execution>, p: string, ids: Ids)
    requires RightIds(executions, p, ids)
    ensures Recorded(executions, p)
  {
    assert IsExecutionOf(executions, ids.execution, p);
  }

  /** Later versions are settled, written and named when earlier ones are. */
  lemma LaterVersion(executions: seq<Execution>, p: string, pod: Pod, i: nat, j: nat)
    requires PodOk(executions, p, pod) && i <= j < |pod.versions|
    ensures Grows(pod.versions[i], pod.versions[j])
    ensures Settled(pod.versions[i]) ==> Settled(pod.versions[j])
    ensures forall name :: Names(ToRecord(pod.versions[i]), name) ==> Names(ToRecord(pod.versions[j]), name)
  {
    if i < j {
      assert Grows(pod.versions[i], pod.versions[j]);
    }
  }

  /* ---- The history invariant over one event ---- */

  lemma MoveHistory(lim: Limits, s: State, p: string, i: nat)
    requires Inv(lim, s) && History(s) && Deliverable(s, p, i)
    ensures History(Delivered(s, p, i))
  {
    assert PodOk(s.executions, p, s.pods[p]);
    LaterVersion(s.executions, p, s.pods[p], s.pods[p].delivered, i);
  }

  lemma RewatchHistory(lim: Limits, s: State)
    requires Inv(lim, s) && History(s)
    ensures History(Rewatch(s))
  {
    var s' := Rewatch(s);
    forall p | p in s'.pods ensures HistoryOk(s'.executions, p, s'.pods[p]) {
      assert HistoryOk(s.executions, p, s.pods[p]);
    }
    forall a, p | 0 <= a < |s.artifacts| && p in s.pods && IsExecutionOf(s.executions, s.artifacts[a].execution, p)
      ensures Names(ToRecord(Latest(s.pods[p])), s.artifacts[a].name)
    {
      NamedLater(s.executions, p, s.pods[p], s.artifacts[a].name);
    }
  }

  lemma NamedLater(executions: seq<Execution>, p: string, pod: Pod, name: string)
    requires PodOk(executions, p, pod) && Names(ToRecord(Current(pod)), name)
    ensures Names(ToRecord(Latest(pod)), name)
  {
    LaterVersion(executions, p, pod, pod.delivered, |pod.versions| - 1);
  }

  lemma AddVersionHistory(s: State, p: string, v: Version)
    requires History(s) && p in s.pods
    requires v.written ==> Recorded(s.executions, p)
    ensures History(AddVersion(s, p, v))
  {
    var s' := AddVersion(s, p, v);
    forall q | q in s'.pods ensures HistoryOk(s'.executions, q, s'.pods[q]) {
      assert HistoryOk(s.executions, q, s.pods[q]);
    }
  }

  lemma NewExecutionHistory(lim: Limits, s: State, x: Execution)
    requires Inv(lim, s) && History(s) && x.pod in s.pods && !s.pods[x.pod].skipped
    ensures History(s.(executions := s.executions + [x]))
  {
    var after := s.executions + [x];
    forall q | q in s.pods ensures HistoryOk(after, q, s.pods[q]) {
      assert HistoryOk(s.executions, q, s.pods[q]);
      if Recorded(s.executions, q) {
        var e :| IsExecutionOf(s.executions, e, q);
        assert IsExecutionOf(after, e, q);
      }
      if Recorded(after, q) && q != x.pod {
        var e :| IsExecutionOf(after, e, q);
        assert IsExecutionOf(s.executions, e, q);
      }
    }
  }

  ghost predicate SamePosition(pods: map<string, Pod>, pods': map<string, Pod>) {
    forall q :: q in pods ==>
      && q in pods'
      && pods'[q].delivered == pods[q].delivered
      && pods[q].versions <= pods'[q].versions
  }

  lemma LabelHistory(s: State, p: string, ids: Ids, patched: bool)
    requires History(s) && p in s.pods && s.pods[p].versions != [] && Recorded(s.executions, p)
    ensures var r := if patched then AddVersion(s, p, Latest(s.pods[p]).(ids := Some(ids))) else s;
            History(r) && r.artifacts == s.artifacts && r.podWritten == s.podWritten && SamePosition(s.pods, r.pods)
  {
    if patched {
      AddVersionHistory(s, p, Latest(s.pods[p]).(ids := Some(ids)));
    }
  }

  /** History reads the pods and their records only. */
  lemma SameHistory(s: State, r: State)
    requires History(s) && r.pods == s.pods && r.executions == s.executions && r.artifacts == s.artifacts
    ensures History(r)
  {
  }

  lemma RegisterHistory(lim: Limits, s: State, p: string, luck: Luck)
    requires Inv(lim, s) && History(s) && p in s.pods && !s.pods[p].skipped
    ensures History(Register(lim, s, p, luck).state)
    ensures var r := Register(lim, s, p, luck).state;
            && r.artifacts == s.artifacts && r.podWritten == s.podWritten
            && SamePosition(s.pods, r.pods)
  {
    var call := Contexts.Call(s.owner[p], RUN_CONTEXT_TYPE);
    Contexts.GetOrCreateAgrees(s.contexts, s.memo, call);
    Contexts.FreshGetOrCreateKeepsUnique(s.contexts, call);
    var found := Contexts.GetOrCreate(s.contexts, s.memo, call);
    ContextsInv(lim, s, found.contexts, found.memo);
    assert SamePosition(s.pods, s.pods);
    var s1 := s.(contexts := found.contexts, memo := found.memo);
    if found.result.Ok? && luck.fault != OnExecution {
      var ids := Ids(|s.executions|, found.result.value);
      var x := Execution(p, ids.context);
      SameHistory(s, s1);
      NewExecutionHistory(lim, s1, x);
      var s2 := s1.(executions := s.executions + [x]);
      RecordedByLabel(s2.executions, p, ids);
      hide Inv, History, SamePosition, AddVersion;
      LabelHistory(s2, p, ids, luck.idsPatched);
      var s3 := if luck.idsPatched then AddVersion(s2, p, Latest(s2.pods[p]).(ids := Some(ids))) else s2;
      var r := Register(lim, s, p, luck).state;
      assert luck.fault == OnLink || r == s3.(podExecution := r.podExecution, workflowContext := r.workflowContext);
      SameHistory(if luck.fault == OnLink then s2 else s3, r);
    } else {
      SameHistory(s, s1);
    }
  }

  lemma IdentifyHistory(lim: Limits, s: State, p: string, v: Version, luck: Luck)
    requires Inv(lim, s) && History(s) && p in s.pods && !s.pods[p].skipped && v in s.pods[p].versions
    ensures History(Identify(lim, s, p, v, luck).state)
    ensures var r := Identify(lim, s, p, v, luck).state;
            && r.artifacts == s.artifacts && r.podWritten == s.podWritten
            && SamePosition(s.pods, r.pods)
  {
    if !Has(s.podExecution, p) && v.ids.None? {
      RegisterHistory(lim, s, p, luck);
    }
  }

  /** The name of an output, recorded now or before, is among those its pod shows. */
  lemma RecordedNamed(s: State, p: string, ids: Ids, outputs: seq<Output>, a: nat, q: string)
    requires History(s) && p in s.pods && RightIds(s.executions, p, ids)
    requires outputs <= ToRecord(Current(s.pods[p]))
    requires a < |s.artifacts + Records(ids, outputs)| && q in s.pods
    requires IsExecutionOf(s.executions, (s.artifacts + Records(ids, outputs))[a].execution, q)
    ensures Names(ToRecord(Current(s.pods[q])), (s.artifacts + Records(ids, outputs))[a].name)
  {
    hide ToRecord;
    if a >= |s.artifacts| {
      var j := a - |s.artifacts|;
      assert (s.artifacts + Records(ids, outputs))[a] == Records(ids, outputs)[j];
      assert q == p;
      assert ToRecord(Current(s.pods[q]))[j] == outputs[j];
    } else {
      assert (s.artifacts + Records(ids, outputs))[a] == s.artifacts[a];
    }
  }

  lemma NewArtifactsHistory(s: State, p: string, ids: Ids, outputs: seq<Output>)
    requires History(s) && p in s.pods && RightIds(s.executions, p, ids)
    requires outputs <= ToRecord(Current(s.pods[p]))
    ensures History(s.(artifacts := s.artifacts + Records(ids, outputs)))
  {
    var after := s.artifacts + Records(ids, outputs);
    hide IsExecutionOf, Names, ToRecord, Records;
    forall a, q | 0 <= a < |after| && q in s.pods && IsExecutionOf(s.executions, after[a].execution, q)
      ensures Names(ToRecord(Current(s.pods[q])), after[a].name)
    {
      RecordedNamed(s, p, ids, outputs, a, q);
    }
    assert forall q :: q in s.pods ==> HistoryOk(s.executions, q, s.pods[q]);
    hide HistoryOk;
  }

  lemma PublishHistory(lim: Limits, s: State, p: string, v: Version, ids: Ids, luck: Luck)
    requires Inv(lim, s) && History(s) && p in s.pods && RightIds(s.executions, p, ids)
    requires v == Current(s.pods[p])
    ensures History(Publish(lim, s, p, v, ids, luck))
  {
    if !Has(s.podWritten, p) && Publishable(v) {
      var todo := ToRecord(v);
      if luck.fault.OnOutput? && luck.fault.k < |todo| {
        NewArtifactsHistory(s, p, ids, todo[..luck.fault.k]);
        NewArtifactsInv(lim, s, p, ids, todo[..luck.fault.k]);
        RewatchHistory(lim, s.(artifacts := s.artifacts + Records(ids, todo[..luck.fault.k])));
      } else {
        NewArtifactsHistory(s, p, ids, todo);
        var s1 := s.(artifacts := s.artifacts + Records(ids, todo));
        RecordedByLabel(s.executions, p, ids);
        if luck.writtenPatched {
          AddVersionHistory(s1, p, Latest(s1.pods[p]).(written := true));
        }
      }
    }
  }

  lemma HandleHistory(lim: Limits, s: State, p: string, i: nat, luck: Luck)
    requires Inv(lim, s) && History(s) && Deliverable(s, p, i)
    ensures History(Handle(lim, s, p, i, luck))
  {
    var v, s0 := s.pods[p].versions[i], Delivered(s, p, i);
    DeliveredInv(lim, s, p, i);
    MoveHistory(lim, s, p, i);
    if v.written || s.pods[p].skipped {
    } else if luck.fault == OnParse {
      RewatchHistory(lim, s0);
    } else {
      IdentifyInv(lim, s0, p, v, luck);
      IdentifyHistory(lim, s0, p, v, luck);
      var found := Identify(lim, s0, p, v, luck);
      if found.ids.None? {
        RewatchHistory(lim, found.state);
      } else {
        PublishHistory(lim, found.state, p, v, found.ids.value, luck);
      }
    }
  }

  lemma NextHistory(lim: Limits, s: State, step: Step)
    requires Inv(lim, s) && History(s) && Enabled(s, step)
    ensures History(Next(lim, s, step))
  {
    match step
    case CreatePod(p, w, skip) =>
      assert !Recorded(s.executions, p) by {
        assert forall e :: 0 <= e < |s.executions| ==> s.executions[e].pod in s.owner;
      }
    case ChangePod(p, done, out) =>
      assert HistoryOk(s.executions, p, s.pods[p]);
      AddVersionHistory(s, p, Latest(s.pods[p]).(completed := done, outputs := out));
    case ForeignContext(_, _) =>
    case Deliver(p, i, luck) => HandleHistory(lim, s, p, i, luck);
    case NewWatch => RewatchHistory(lim, s);
    case Restart => RewatchHistory(lim, s);
  }

  lemma NextSound(lim: Limits, s: State, step: Step)
    requires Sound(lim, s) && Enabled(s, step)
    ensures Sound(lim, Next(lim, s, step))
  {
    NextInv(lim, s, step);
    NextHistory(lim, s, step);
  }
}
