/**
  What the writer records: exactly the outputs with a URI that a pod shows, under their names
  and with their URIs, once the pod is completed or shows outputs.
 */
module WriterRecords {
  import opened Wrappers
  import opened Lru
  import Contexts
  import opened MetadataWriter
  import opened WriterCaches
  import opened WriterOnce
  import opened WriterCoverage
  import opened WriterRuns

  /* ---- The artifacts of one event ---- */

  /** The artifact of one of these outputs, recorded for the execution and the context of `ids`. */
  ghost predicate Made(ids: Ids, outputs: seq<Output>, x: Artifact) {
    exists o :: o in outputs && o.uri.Some? && x == Artifact(ids.execution, ids.context, o.name, o.uri.value)
  }

  ghost predicate NoneTwice(xs: seq<Artifact>) {
    forall i, j :: 0 <= i < j < |xs| ==> xs[i] != xs[j]
  }

  lemma {:induction false} RecordableMembers(outputs: seq<Output>)
    ensures forall o :: o in Recordable(outputs) <==> o in outputs && o.uri.Some?
  {
    if outputs != [] {
      RecordableMembers(outputs[1..]);
      assert forall o :: o in outputs <==> o == outputs[0] || o in outputs[1..];
    }
  }

  /** Every output with a URI gives one artifact, with its name and its URI, and nothing else does. */
  lemma RecordsExactly(ids: Ids, outputs: seq<Output>)
    ensures forall x :: x in Records(ids, Recordable(outputs)) <==> Made(ids, outputs, x)
    ensures DistinctNames(outputs) ==> NoneTwice(Records(ids, Recordable(outputs)))
  {
    RecordableMembers(outputs);
    var todo := Recordable(outputs);
    var made := Records(ids, todo);
    hide Recordable;
    forall x ensures x in made <==> Made(ids, outputs, x) {
      if x in made {
        var j :| 0 <= j < |made| && made[j] == x;
        assert todo[j] in todo;
      }
      if Made(ids, outputs, x) {
        var o :| o in outputs && o.uri.Some? && x == Artifact(ids.execution, ids.context, o.name, o.uri.value);
        var j :| 0 <= j < |todo| && todo[j] == o;
        assert made[j] == x;
      }
    }
    if DistinctNames(outputs) {
      RecordableNames(outputs);
      assert forall i, j :: 0 <= i < j < |made| ==> todo[i].name != todo[j].name;
    }
  }

  /** An event that goes through: exactly a completed pod or one that shows outputs is published, once. */
  lemma PublishesExactly(lim: Limits, s: State, p: string, v: Version, ids: Ids, luck: Luck)
    returns (added: seq<Artifact>)
    requires Inv(lim, s) && p in s.pods && v in s.pods[p].versions
    requires !Has(s.podWritten, p) && !luck.fault.OnOutput?
    ensures var r := Publish(lim, s, p, v, ids, luck);
            && r.artifacts == s.artifacts + added && NoneTwice(added)
            && (forall x :: x in added <==> v.outputs.Some? && Made(ids, v.outputs.value, x))
            && (Has(r.podWritten, p) <==> v.completed || v.outputs.Some?)
            && (Has(r.podWritten, p) && luck.writtenPatched ==> p in r.pods && Latest(r.pods[p]).written)
  {
    PutKeeps(s.podWritten, lim.written, p, (), p);
    assert PodOk(s.executions, p, s.pods[p]);
    added := Records(ids, ToRecord(v));
    if v.outputs.Some? {
      RecordsExactly(ids, v.outputs.value);
      hide Made, Records, Recordable;
    } else {
      assert added == [];
    }
    hide Inv, NoneTwice, Has;
  }

  /** Nothing keeps the pod from being identified. */
  ghost predicate GoesThrough(s: State, p: string, i: nat)
    requires Deliverable(s, p, i)
  {
    && !s.pods[p].versions[i].written && !s.pods[p].skipped
    && !StuckPod(s, p) && !ContextRefused(s.contexts, s.owner[p])
  }

  lemma Identifies(lim: Limits, s: State, p: string, v: Version, luck: Luck)
    requires Inv(lim, s) && p in s.pods && v in s.pods[p].versions && luck.fault == NoFault
    requires !StuckPod(s, p) && !ContextRefused(s.contexts, s.owner[p])
    ensures Identify(lim, s, p, v, luck).ids.Some?
  {
    if Has(s.podExecution, p) || v.ids.Some? {
      IdentifyFinds(lim, s, p, v, luck);
    } else {
      var c := RegisterIs(lim, s, p, luck);
    }
  }

  lemma EventPublishes(lim: Limits, s: State, p: string, i: nat, luck: Luck) returns (found: State, ids: Ids)
    requires Inv(lim, s) && Deliverable(s, p, i) && luck.fault == NoFault && GoesThrough(s, p, i)
    ensures Inv(lim, found) && p in found.pods && s.pods[p].versions[i] in found.pods[p].versions
    ensures RightIds(found.executions, p, ids)
    ensures found.artifacts == s.artifacts && found.podWritten == s.podWritten
    ensures found.pods[p].versions != []
    ensures Handle(lim, s, p, i, luck) == Publish(lim, found, p, s.pods[p].versions[i], ids, luck)
  {
    var v, s0 := s.pods[p].versions[i], Delivered(s, p, i);
    DeliveredInv(lim, s, p, i);
    IdentifyInv(lim, s0, p, v, luck);
    IdentifyGrows(lim, s0, p, v, luck);
    VersionStays(lim, s0, p, v, luck);
    Identifies(lim, s0, p, v, luck);
    hide Identify, Publish, ContextRefused, StuckPod, Has;
    found := Identify(lim, s0, p, v, luck).state;
    ids := Identify(lim, s0, p, v, luck).ids.value;
  }

  /** One whole event of a pod that is not recorded as written yet, when nothing fails. */
  lemma EventRecords(lim: Limits, s: State, p: string, i: nat, luck: Luck) returns (ids: Ids, added: seq<Artifact>)
    requires Inv(lim, s) && Deliverable(s, p, i) && luck.fault == NoFault && GoesThrough(s, p, i)
    requires !Has(s.podWritten, p)
    ensures var v, r := s.pods[p].versions[i], Handle(lim, s, p, i, luck);
            && RightIds(r.executions, p, ids)
            && r.artifacts == s.artifacts + added && NoneTwice(added)
            && (forall x :: x in added <==> v.outputs.Some? && Made(ids, v.outputs.value, x))
            && (Has(r.podWritten, p) <==> v.completed || v.outputs.Some?)
  {
    var found: State;
    found, ids := EventPublishes(lim, s, p, i, luck);
    added := PublishesExactly(lim, found, p, s.pods[p].versions[i], ids, luck);
    PublishKeepsCaches(lim, found, p, s.pods[p].versions[i], ids, luck);
    hide Inv, Handle, Publish, Made, NoneTwice, Has, GoesThrough;
  }

  /** Identifying a pod takes no version away. */
  lemma VersionStays(lim: Limits, s: State, p: string, v: Version, luck: Luck)
    requires Inv(lim, s) && p in s.pods && v in s.pods[p].versions
    ensures var r := Identify(lim, s, p, v, luck).state;
            p in r.pods && v in r.pods[p].versions
  {
    if !Has(s.podExecution, p) && v.ids.None? {
      RefusedExactly(s.contexts, s.memo, s.owner[p]);
      if !ContextRefused(s.contexts, s.owner[p]) && luck.fault != OnExecution && luck.fault != OnLink {
        var c := RegisterIs(lim, s, p, luck);
        hide Register;
      }
    }
  }

  /* ---- Every artifact in the store, over every run ---- */

  /** The version shows this output, name and URI. */
  ghost predicate Shows(v: Version, a: Artifact) {
    v.outputs.Some? && Output(a.name, Some(a.uri)) in v.outputs.value
  }

  /** Every recorded artifact of a pod is one that the pod shows. */
  ghost predicate Truthful(s: State) {
    && Positioned(s)
    && forall a, p :: 0 <= a < |s.artifacts| && p in s.pods
         && IsExecutionOf(s.executions, s.artifacts[a].execution, p)
         ==> Shows(Current(s.pods[p]), s.artifacts[a])
  }

  /** Where no artifact is added and what was shown stays shown, the artifacts stay true. */
  lemma StillTruthful(lim: Limits, s: State, r: State)
    requires Inv(lim, s) && Truthful(s) && Positioned(r)
    requires s.executions <= r.executions && r.artifacts == s.artifacts
    requires forall q :: q in s.pods ==>
      q in r.pods
      && (Current(s.pods[q]).outputs.Some? ==> Current(r.pods[q]).outputs == Current(s.pods[q]).outputs)
    ensures Truthful(r)
  {
    forall a, p | 0 <= a < |r.artifacts| && p in r.pods && IsExecutionOf(r.executions, r.artifacts[a].execution, p)
      ensures Shows(Current(r.pods[p]), r.artifacts[a])
    {
      assert IsExecutionOf(s.executions, s.artifacts[a].execution, p);
      assert p in s.owner;
    }
  }

  /** The outputs a version shows are those of all later versions. */
  lemma ShownLater(executions: seq<Execution>, p: string, pod: Pod, i: nat, j: nat)
    requires PodOk(executions, p, pod) && i <= j < |pod.versions|
    ensures pod.versions[i].outputs.Some? ==> pod.versions[j].outputs == pod.versions[i].outputs
  {
    if i < j {
      assert Grows(pod.versions[i], pod.versions[j]);
    }
  }

  lemma RewatchTruthful(lim: Limits, s: State)
    requires Inv(lim, s) && Truthful(s)
    ensures Truthful(Rewatch(s))
  {
    RewatchInv(lim, s);
    SoundPositioned(lim, Rewatch(s));
    forall q | q in s.pods
      ensures Current(s.pods[q]).outputs.Some? ==>
                Current(Rewatch(s).pods[q]).outputs == Current(s.pods[q]).outputs
    {
      ShownLater(s.executions, q, s.pods[q], s.pods[q].delivered, |s.pods[q].versions| - 1);
    }
    StillTruthful(lim, s, Rewatch(s));
  }

  lemma DeliveredTruthful(lim: Limits, s: State, p: string, i: nat)
    requires Inv(lim, s) && Truthful(s) && Deliverable(s, p, i)
    ensures Truthful(Delivered(s, p, i))
  {
    DeliveredInv(lim, s, p, i);
    SoundPositioned(lim, Delivered(s, p, i));
    ShownLater(s.executions, p, s.pods[p], s.pods[p].delivered, i);
    StillTruthful(lim, s, Delivered(s, p, i));
  }

  /** Artifacts made from outputs that the pod shows keep the store truthful. */
  lemma AddedTruthful(s: State, r: State, p: string, ids: Ids, outputs: seq<Output>)
    requires Truthful(s) && p in s.pods && RightIds(s.executions, p, ids)
    requires Current(s.pods[p]).outputs == Some(outputs)
    requires forall x :: x in r.artifacts ==> x in s.artifacts || Made(ids, outputs, x)
    requires r.executions == s.executions && SameCurrent(s, r)
    ensures Truthful(r)
  {
    forall a, q | 0 <= a < |r.artifacts| && q in r.pods && IsExecutionOf(r.executions, r.artifacts[a].execution, q)
      ensures Shows(Current(r.pods[q]), r.artifacts[a])
    {
      var x := r.artifacts[a];
      assert x in r.artifacts;
      if x in s.artifacts {
        var b :| 0 <= b < |s.artifacts| && s.artifacts[b] == x;
      } else {
        var o :| o in outputs && o.uri.Some? && x == Artifact(ids.execution, ids.context, o.name, o.uri.value);
        assert o == Output(x.name, Some(x.uri));
      }
    }
  }

  /** Publishing, whole or cut short, records what the pod shows. */
  lemma PublishTruthful(lim: Limits, s: State, p: string, v: Version, ids: Ids, luck: Luck)
    requires Inv(lim, s) && Truthful(s) && p in s.pods && RightIds(s.executions, p, ids)
    requires v == Current(s.pods[p])
    ensures Truthful(Publish(lim, s, p, v, ids, luck))
  {
    if !Has(s.podWritten, p) && Publishable(v) {
      var todo := ToRecord(v);
      var k := if luck.fault.OnOutput? && luck.fault.k < |todo| then luck.fault.k else |todo|;
      var s1 := s.(artifacts := s.artifacts + Records(ids, todo[..k]));
      assert todo[..|todo|] == todo;
      NewArtifactsInv(lim, s, p, ids, todo[..k]);
      RecordedTruthful(s, s1, p, v, ids, k);
      if k < |todo| {
        RewatchTruthful(lim, s1);
      } else {
        PublishInv(lim, s, p, v, ids, luck);
        SoundPositioned(lim, Publish(lim, s, p, v, ids, luck));
        StillTruthful(lim, s1, Publish(lim, s, p, v, ids, luck));
      }
    }
  }

  lemma RecordedTruthful(s: State, s1: State, p: string, v: Version, ids: Ids, k: nat)
    requires Truthful(s) && p in s.pods && RightIds(s.executions, p, ids) && v == Current(s.pods[p])
    requires k <= |ToRecord(v)| && s1 == s.(artifacts := s.artifacts + Records(ids, ToRecord(v)[..k]))
    ensures Truthful(s1)
  {
    if v.outputs.Some? {
      var all := Records(ids, ToRecord(v));
      RecordsExactly(ids, v.outputs.value);
      assert Records(ids, ToRecord(v)[..k]) == all[..k];
      hide Truthful, Records, Made, ToRecord;
      assert forall x :: x in all[..k] ==> x in all;
      assert SameCurrent(s, s1) by {
        assert Truthful(s) ==> Positioned(s) by {
          TruthfulPositioned(s);
        }
      }
      AddedTruthful(s, s1, p, ids, v.outputs.value);
    } else {
      assert s1.artifacts == s.artifacts;
    }
  }

  lemma TruthfulPositioned(s: State)
    requires Truthful(s)
    ensures Positioned(s)
  {
  }

  lemma HandleTruthful(lim: Limits, s: State, p: string, i: nat, luck: Luck)
    requires Inv(lim, s) && Truthful(s) && Deliverable(s, p, i)
    ensures Truthful(Handle(lim, s, p, i, luck))
  {
    var v, s0 := s.pods[p].versions[i], Delivered(s, p, i);
    DeliveredInv(lim, s, p, i);
    DeliveredTruthful(lim, s, p, i);
    if v.written || s.pods[p].skipped {
    } else if luck.fault == OnParse {
      RewatchTruthful(lim, s0);
    } else {
      IdentifyInv(lim, s0, p, v, luck);
      IdentifyGrows(lim, s0, p, v, luck);
      IdentifyCurrent(lim, s0, p, v, luck);
      var found := Identify(lim, s0, p, v, luck);
      hide Inv, Identify, Publish, Truthful, Rewatch;
      StillTruthful(lim, s0, found.state);
      if found.ids.None? {
        RewatchTruthful(lim, found.state);
      } else {
        PublishTruthful(lim, found.state, p, v, found.ids.value, luck);
      }
    }
  }

  /** A new pod, a change of a pod and a new context touch no record and no current version. */
  lemma ChangedTruthful(lim: Limits, s: State, step: Step)
    requires Inv(lim, s) && Truthful(s) && Enabled(s, step)
    requires step.CreatePod? || step.ChangePod? || step.ForeignContext?
    ensures Truthful(Next(lim, s, step))
  {
    NextInv(lim, s, step);
    var r := Next(lim, s, step);
    SoundPositioned(lim, r);
    assert forall q :: q in s.pods ==> q in r.pods && Current(r.pods[q]) == Current(s.pods[q]);
    hide Inv, Truthful, Next;
    StillTruthful(lim, s, r);
  }

  lemma NextTruthful(lim: Limits, s: State, step: Step)
    requires Inv(lim, s) && Truthful(s) && Enabled(s, step)
    ensures Truthful(Next(lim, s, step))
  {
    match step
    case CreatePod(_, _, _) => ChangedTruthful(lim, s, step);
    case ChangePod(_, _, _) => ChangedTruthful(lim, s, step);
    case ForeignContext(_, _) => ChangedTruthful(lim, s, step);
    case Deliver(p, i, luck) => HandleTruthful(lim, s, p, i, luck);
    case NewWatch => RewatchTruthful(lim, s);
    case Restart =>
      RewatchTruthful(lim, s);
      SameTruth(Rewatch(s), Next(lim, s, step));
  }

  lemma SameTruth(s: State, r: State)
    requires Truthful(s) && r.pods == s.pods && r.executions == s.executions && r.artifacts == s.artifacts
    ensures Truthful(r)
  {
  }

  /** Over every run, whatever fails, every artifact of a pod has the name and the URI of an output the pod shows. */
  lemma {:induction false} RunTruthful(lim: Limits, s: State, steps: seq<Step>)
    requires Inv(lim, s) && Truthful(s) && CanRun(lim, s, steps)
    ensures Truthful(After(lim, s, steps))
    decreases |steps|
  {
    if steps != [] {
      NextInv(lim, s, steps[0]);
      NextTruthful(lim, s, steps[0]);
      hide Inv, Next, Enabled, Truthful;
      RunTruthful(lim, Next(lim, s, steps[0]), steps[1..]);
    }
  }

  /** A writer that starts with an empty store never records anything else. */
  lemma StoreTruthful(lim: Limits, s: State, steps: seq<Step>)
    requires Initial(s) && Inv(lim, s) && CanRun(lim, s, steps)
    ensures Truthful(After(lim, s, steps))
  {
    RunTruthful(lim, s, steps);
  }
}
