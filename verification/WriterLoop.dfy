/**
  The metadata writer as the program it is: fields updated in place while events are
  handled one by one.  Each method is proved to do what the corresponding function of
  `MetadataWriter` says.
 */
module WriterLoop {
  import opened Sequences
  import opened Wrappers
  import opened Lru
  import Contexts
  import M = MetadataWriter
  import WriterRecords
  import WriterRuns

  class Writer {
    const lim: M.Limits
    // the API server and the store
    var owner: map<string, string>
    var pods: map<string, M.Pod>
    var contexts: seq<Contexts.Context>
    var executions: seq<M.Execution>
    var artifacts: seq<M.Artifact>
    // the writer's caches
    var memo: Contexts.Memo
    var podNameToExecutionId: M.IdCache
    var workflowNameToContextId: M.IdCache
    var podsWithWrittenMetadata: M.FlagCache

    ghost function State(): M.State
      reads this
    {
      M.State(owner, pods, contexts, executions, artifacts, memo,
              podNameToExecutionId, workflowNameToContextId, podsWithWrittenMetadata)
    }

    ghost predicate Valid()
      reads this
    {
      M.Inv(lim, State())
    }

    constructor (lim: M.Limits, contexts: seq<Contexts.Context>)
      requires M.Usable(lim) && Contexts.UniqueNames(contexts)
      ensures Valid() && M.Initial(State()) && this.lim == lim && this.contexts == contexts
    {
      this.lim := lim;
      owner, pods, executions, artifacts := map[], map[], [], [];
      this.contexts := contexts;
      memo, podNameToExecutionId, workflowNameToContextId, podsWithWrittenMetadata := [], [], [], [];
    }

    /** Adds labels to the latest version of the pod, unless every retry fails. */
    method PatchPod(p: string, v: M.Version, succeeds: bool)
      requires p in pods
      modifies this`pods
      ensures State() == if succeeds then M.AddVersion(old(State()), p, v) else old(State())
    {
      if succeeds {
        pods := pods[p := pods[p].(versions := pods[p].versions + [v])];
      }
    }

    /** `get_or_create_run_context`. */
    method RunContext(workflow: string) returns (r: Result<nat, Contexts.Error>)
      requires Contexts.UniqueNames(contexts) && Contexts.MemoAgrees(contexts, memo)
      modifies this`contexts, this`memo
      ensures var o := Contexts.GetOrCreate(old(contexts), old(memo), Contexts.Call(workflow, M.RUN_CONTEXT_TYPE));
              contexts == o.contexts && memo == o.memo && r == o.result
      ensures r.Ok? ==> r.value < |contexts| && contexts[r.value] == Contexts.Context(workflow, "KfpRun")
    {
      Contexts.GetOrCreateAgrees(contexts, memo, Contexts.Call(workflow, M.RUN_CONTEXT_TYPE));
      Contexts.FreshGetOrCreateKeepsUnique(contexts, Contexts.Call(workflow, M.RUN_CONTEXT_TYPE));
      var client := new Contexts.ContextClient(contexts);
      client.memo := memo;
      r := client.GetOrCreateContext(Contexts.Call(workflow, M.RUN_CONTEXT_TYPE));
      contexts, memo := client.contexts, client.memo;
    }

    method Register(p: string, luck: M.Luck) returns (ids: Option<M.Ids>)
      requires Valid() && p in pods && pods[p].versions != []
      modifies this
      ensures var r := M.Register(lim, old(State()), p, luck);
              State() == r.state && ids == r.ids
    {
      var context := RunContext(owner[p]);
      if context.Err? || luck.fault == M.OnExecution {
        return None;
      }
      var id := M.Ids(|executions|, context.value);
      executions := executions + [M.Execution(p, id.context)];
      if luck.fault == M.OnLink {
        return None;
      }
      PatchPod(p, M.Latest(pods[p]).(ids := Some(id)), luck.idsPatched);
      podNameToExecutionId := Put(podNameToExecutionId, lim.execution, p, id.execution);
      workflowNameToContextId := Put(workflowNameToContextId, lim.context, owner[p], id.context);
      return Some(id);
    }

    method Identify(p: string, v: M.Version, luck: M.Luck) returns (ids: Option<M.Ids>)
      requires Valid() && p in pods && pods[p].versions != []
      modifies this
      ensures var r := M.Identify(lim, old(State()), p, v, luck);
              State() == r.state && ids == r.ids
    {
      var w := owner[p];
      if Has(podNameToExecutionId, p) {
        var execution := Value(podNameToExecutionId, p);
        podNameToExecutionId := Touch(podNameToExecutionId, p);
        if !Has(workflowNameToContextId, w) {
          return None;
        }
        var context := Value(workflowNameToContextId, w);
        workflowNameToContextId := Touch(workflowNameToContextId, w);
        return Some(M.Ids(execution, context));
      } else if v.ids.Some? {
        return v.ids;
      } else {
        ids := Register(p, luck);
      }
    }

    /** Records the artifacts that have a URI, one by one; stops where the store raises. */
    method RecordOutputs(ids: M.Ids, outputs: seq<M.Output>, fault: M.Fault) returns (raised: bool)
      modifies this`artifacts
      ensures raised <==> fault.OnOutput? && fault.k < |M.Recordable(outputs)|
      ensures artifacts == old(artifacts) +
                           M.Records(ids, if raised then M.Recordable(outputs)[..fault.k] else M.Recordable(outputs))
      ensures !raised ==>
                forall x :: x in artifacts[|old(artifacts)|..] <==>
                  exists o :: o in outputs && o.uri.Some?
                    && x == M.Artifact(ids.execution, ids.context, o.name, o.uri.value)
    {
      var j := 0;
      var recorded := 0;
      while j < |outputs|
        invariant 0 <= j <= |outputs|
        invariant recorded == |M.Recordable(outputs[..j])|
        invariant fault.OnOutput? ==> recorded <= fault.k
        invariant artifacts == old(artifacts) + M.Records(ids, M.Recordable(outputs[..j]))
      {
        RecordableSplit(outputs, j);
        if outputs[j].uri.Some? {
          if fault.OnOutput? && fault.k == recorded {
            RecordablePrefix(outputs, j);
            assert M.Recordable(outputs)[..recorded] == M.Recordable(outputs[..j]);
            return true;
          }
          artifacts := artifacts + [M.Artifact(ids.execution, ids.context, outputs[j].name, outputs[j].uri.value)];
          recorded := recorded + 1;
        }
        j := j + 1;
      }
      assert outputs[..j] == outputs;
      raised := false;
      WriterRecords.RecordsExactly(ids, outputs);
      assert artifacts[|old(artifacts)|..] == M.Records(ids, M.Recordable(outputs));
      hide M.Records, M.Recordable;
    }

    method Publish(p: string, v: M.Version, ids: M.Ids, luck: M.Luck) returns (raised: bool)
      requires p in pods && pods[p].versions != []
      modifies this
      ensures raised ==> State().pods == old(pods)
      ensures (if raised then M.Rewatch(State()) else State()) == M.Publish(lim, old(State()), p, v, ids, luck)
    {
      if Has(podsWithWrittenMetadata, p) || !M.Publishable(v) {
        return false;
      }
      var outputs := if v.outputs.Some? then v.outputs.value else [];
      raised := RecordOutputs(ids, outputs, luck.fault);
      if !raised {
        PatchPod(p, M.Latest(pods[p]).(written := true), luck.writtenPatched);
        podsWithWrittenMetadata := Put(podsWithWrittenMetadata, lim.written, p, ());
      }
    }

    /** Everything from looking the pod up to remembering that its outputs are written. */
    method Record(p: string, v: M.Version, luck: M.Luck) returns (raised: bool)
      requires Valid() && p in pods && v in pods[p].versions
      modifies this
      ensures (if raised then M.Rewatch(State()) else State()) == Recorded(lim, old(State()), p, v, luck)
    {
      M.IdentifyInv(lim, State(), p, v, luck);
      hide M.Inv, M.Identify, M.Publish, M.Rewatch;
      var ids := Identify(p, v, luck);
      if ids.None? {
        raised := true;
      } else {
        raised := Publish(p, v, ids.value, luck);
      }
    }

    /** The body of the event loop; an exception ends the watch and a new one begins. */
    method HandleEvent(p: string, i: nat, luck: M.Luck)
      requires Valid() && M.Deliverable(State(), p, i)
      modifies this
      ensures Valid()
      ensures State() == M.Handle(lim, old(State()), p, i, luck)
    {
      M.HandleInv(lim, State(), p, i, luck);
      M.DeliveredInv(lim, State(), p, i);
      hide M.Inv, M.Identify, M.Publish, M.Rewatch;
      var v := pods[p].versions[i];
      pods := pods[p := pods[p].(delivered := i)];
      if v.written || pods[p].skipped {
        return;
      }
      var raised := luck.fault == M.OnParse;
      if !raised {
        raised := Record(p, v, luck);
      }
      if raised {
        NewWatch();
      }
    }

    method NewWatch()
      modifies this`pods
      ensures State() == M.Rewatch(old(State()))
      ensures forall p :: p in pods && pods[p].versions != [] ==> pods[p].delivered == |pods[p].versions| - 1
    {
      pods := map p | p in pods ::
        pods[p].(delivered := if pods[p].versions == [] then 0 else |pods[p].versions| - 1);
    }

    method Restart()
      modifies this
      ensures State() == M.Rewatch(old(State())).(memo := [], podExecution := [], workflowContext := [], podWritten := [])
    {
      memo, podNameToExecutionId, workflowNameToContextId, podsWithWrittenMetadata := [], [], [], [];
      NewWatch();
    }

    /** The endless loop, over any finite stretch of what the world does. */
    method Watch(steps: seq<M.Step>)
      requires Valid() && WriterRuns.CanRun(lim, State(), steps)
      modifies this
      ensures Valid() && State() == WriterRuns.After(lim, old(State()), steps)
    {
      var i := 0;
      while i < |steps|
        invariant 0 <= i <= |steps|
        invariant Valid() && WriterRuns.CanRun(lim, State(), steps[i..])
        invariant WriterRuns.After(lim, State(), steps[i..]) == WriterRuns.After(lim, old(State()), steps)
      {
        assert steps[i..][1..] == steps[i + 1..];
        M.NextInv(lim, State(), steps[i]);
        match steps[i] {
          case CreatePod(p, w, skip) =>
            owner, pods := owner[p := w], pods[p := M.Pod(skip, [M.FIRST_VERSION], 0)];
          case ChangePod(p, done, out) =>
            PatchPod(p, M.Latest(pods[p]).(completed := done, outputs := out), true);
          case ForeignContext(name, typ) =>
            contexts := contexts + [Contexts.Context(name, typ)];
          case Deliver(p, j, luck) =>
            HandleEvent(p, j, luck);
          case NewWatch =>
            NewWatch();
          case Restart =>
            Restart();
        }
        i := i + 1;
      }
    }
  }

  ghost function Recorded(lim: M.Limits, s: M.State, p: string, v: M.Version, luck: M.Luck): M.State
    requires M.Inv(lim, s) && p in s.pods && v in s.pods[p].versions
  {
    M.IdentifyInv(lim, s, p, v, luck);
    var found := M.Identify(lim, s, p, v, luck);
    if found.ids.None? then M.Rewatch(found.state)
    else M.Publish(lim, found.state, p, v, found.ids.value, luck)
  }

  lemma {:induction false} RecordableAppend(a: seq<M.Output>, b: seq<M.Output>)
    ensures M.Recordable(a + b) == M.Recordable(a) + M.Recordable(b)
  {
    if a == [] {
      assert a + b == b;
    } else {
      assert (a + b)[0] == a[0] && (a + b)[1..] == a[1..] + b;
      var first := if a[0].uri.Some? then [a[0]] else [];
      assert M.Recordable(a + b) == first + M.Recordable(a[1..] + b);
      assert M.Recordable(a) == first + M.Recordable(a[1..]);
      hide *;
      RecordableAppend(a[1..], b);
      Regroup(first, M.Recordable(a[1..]), M.Recordable(b));
    }
  }

  lemma RecordableSplit(outputs: seq<M.Output>, j: nat)
    requires j < |outputs|
    ensures M.Recordable(outputs[..j + 1]) ==
            M.Recordable(outputs[..j]) + if outputs[j].uri.Some? then [outputs[j]] else []
  {
    assert outputs[..j + 1] == outputs[..j] + [outputs[j]];
    RecordableAppend(outputs[..j], [outputs[j]]);
  }

  lemma RecordablePrefix(outputs: seq<M.Output>, j: nat)
    requires j < |outputs| && outputs[j].uri.Some?
    ensures M.Recordable(outputs[..j]) < M.Recordable(outputs)
  {
    assert outputs == outputs[..j] + outputs[j..];
    RecordableAppend(outputs[..j], outputs[j..]);
    assert M.Recordable(outputs[j..]) != [];
  }
}
