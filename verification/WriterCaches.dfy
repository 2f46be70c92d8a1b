/**
  The pod cache and the workflow cache stay in step: listing the workflows of the cached
  pods from the most recently used pod on, each once, gives the first part of the workflow
  cache.  So a pod that is found in its cache has its workflow in the other one.
 */
module WriterCaches {
  import opened Wrappers
  import opened Lru
  import Contexts
  import opened MetadataWriter

  function Remove<T(==)>(xs: seq<T>, x: T): seq<T> {
    if xs == [] then []
    else if xs[0] == x then Remove(xs[1..], x)
    else [xs[0]] + Remove(xs[1..], x)
  }

  function Keys<K, V>(es: seq<Entry<K, V>>): seq<K> {
    if es == [] then [] else [es[0].key] + Keys(es[1..])
  }

  ghost predicate AllOwned(es: IdCache, owner: map<string, string>) {
    forall i :: 0 <= i < |es| ==> es[i].key in owner
  }

  /** The workflows of the listed pods in order of first appearance. */
  function Workflows(es: IdCache, owner: map<string, string>): seq<string>
    requires AllOwned(es, owner)
  {
    if es == [] then []
    else [owner[es[0].key]] + Remove(Workflows(es[1..], owner), owner[es[0].key])
  }

  ghost predicate InStep(es: IdCache, ws: IdCache, owner: map<string, string>) {
    AllOwned(es, owner) && Workflows(es, owner) <= Keys(ws)
  }

  /* ---- Removing from sequences ---- */

  lemma {:induction false} RemoveTwice<T>(xs: seq<T>, x: T, y: T)
    ensures Remove(Remove(xs, x), y) == Remove(Remove(xs, y), x)
  {
    if xs != [] {
      RemoveTwice(xs[1..], x, y);
      RemoveCons(xs[0], Remove(xs[1..], x), y);
      RemoveCons(xs[0], Remove(xs[1..], y), x);
    }
  }

  lemma RemoveCons<T>(h: T, t: seq<T>, x: T)
    ensures Remove([h] + t, x) == (if h == x then [] else [h]) + Remove(t, x)
  {
    assert ([h] + t)[1..] == t;
  }

  lemma {:induction false} RemoveSame<T>(xs: seq<T>, x: T)
    ensures Remove(Remove(xs, x), x) == Remove(xs, x)
    ensures |Remove(xs, x)| <= |xs|
  {
    if xs != [] {
      RemoveSame(xs[1..], x);
      RemoveCons(xs[0], Remove(xs[1..], x), x);
    }
  }

  lemma {:induction false} RemovePrefix<T>(xs: seq<T>, ys: seq<T>, x: T)
    requires xs <= ys
    ensures Remove(xs, x) <= Remove(ys, x)
  {
    if xs != [] {
      RemovePrefix(xs[1..], ys[1..], x);
    }
  }

  lemma {:induction false} RemoveMember<T>(xs: seq<T>, x: T, y: T)
    ensures y in Remove(xs, x) <==> y in xs && y != x
  {
    if xs != [] {
      RemoveMember(xs[1..], x, y);
      assert y in xs <==> y == xs[0] || y in xs[1..];
    }
  }

  lemma {:induction false} KeysWithout<K, V>(es: seq<Entry<K, V>>, k: K)
    ensures Keys(Without(es, k)) == Remove(Keys(es), k)
  {
    if es != [] {
      KeysWithout(es[1..], k);
      assert Keys(es)[1..] == Keys(es[1..]);
      if es[0].key != k {
        assert Without(es, k)[1..] == Without(es[1..], k);
      }
    }
  }

  lemma {:induction false} KeysHas<K, V>(es: seq<Entry<K, V>>, k: K)
    ensures k in Keys(es) <==> Has(es, k)
    ensures |Keys(es)| == |es|
  {
    if es != [] {
      KeysHas(es[1..], k);
      HasTail(es, k);
      assert Keys(es)[1..] == Keys(es[1..]);
    }
  }

  lemma {:induction false} KeysTake<K, V>(es: seq<Entry<K, V>>, n: nat)
    requires n <= |es|
    ensures |Keys(es)| == |es| && Keys(es[..n]) == Keys(es)[..n]
  {
    if es != [] {
      if n > 0 {
        assert es[..n][1..] == es[1..][..n - 1];
        KeysTake(es[1..], n - 1);
      } else {
        KeysTake(es[1..], 0);
      }
    }
  }

  /* ---- Listing the workflows of a changed pod cache ---- */

  lemma {:induction false} WorkflowsHas(es: IdCache, owner: map<string, string>, i: nat)
    requires AllOwned(es, owner) && i < |es|
    ensures owner[es[i].key] in Workflows(es, owner)
  {
    var w := owner[es[0].key];
    if i > 0 {
      WorkflowsHas(es[1..], owner, i - 1);
      RemoveMember(Workflows(es[1..], owner), w, owner[es[i].key]);
    }
  }

  lemma WithoutOwned(es: IdCache, owner: map<string, string>, p: string)
    requires AllOwned(es, owner)
    ensures AllOwned(Without(es, p), owner)
  {
    forall i | 0 <= i < |Without(es, p)| ensures Without(es, p)[i].key in owner {
      WithoutEntry(es, p, i);
    }
  }

  /** Leaving one pod out changes nothing once its workflow is left out as well. */
  lemma {:induction false} WorkflowsWithout(es: IdCache, owner: map<string, string>, p: string)
    requires AllOwned(es, owner) && p in owner
    ensures AllOwned(Without(es, p), owner)
    ensures Remove(Workflows(Without(es, p), owner), owner[p]) == Remove(Workflows(es, owner), owner[p])
  {
    WithoutOwned(es, owner, p);
    if es != [] {
      var t, w, h := es[1..], owner[p], owner[es[0].key];
      WorkflowsWithout(t, owner, p);
      var d, dt := Workflows(Without(t, p), owner), Workflows(t, owner);
      RemoveCons(h, Remove(dt, h), w);
      if es[0].key == p {
        RemoveSame(dt, w);
      } else {
        assert Without(es, p)[1..] == Without(t, p);
        RemoveCons(h, Remove(d, h), w);
        RemoveTwice(d, h, w);
        RemoveTwice(dt, h, w);
      }
    }
  }

  lemma {:induction false} WorkflowsTake(es: IdCache, owner: map<string, string>, n: nat)
    requires AllOwned(es, owner) && n <= |es|
    ensures Workflows(es[..n], owner) <= Workflows(es, owner)
    ensures |Workflows(es[..n], owner)| <= n
  {
    if n > 0 {
      assert es[..n][1..] == es[1..][..n - 1];
      WorkflowsTake(es[1..], owner, n - 1);
      var w := owner[es[0].key];
      RemovePrefix(Workflows(es[1..][..n - 1], owner), Workflows(es[1..], owner), w);
      RemoveSame(Workflows(es[1..][..n - 1], owner), w);
    }
  }

  lemma {:induction false} WorkflowsMoreOwners(es: IdCache, owner: map<string, string>, p: string, w: string)
    requires AllOwned(es, owner) && p !in owner
    ensures Workflows(es, owner[p := w]) == Workflows(es, owner)
  {
    if es != [] {
      WorkflowsMoreOwners(es[1..], owner, p, w);
    }
  }

  /** Moving a pod and its workflow to the front, or putting them there, keeps the caches in step. */
  lemma FrontInStep(es: IdCache, ws: IdCache, owner: map<string, string>, p: string, e: nat, c: nat)
    requires InStep(es, ws, owner) && p in owner
    ensures InStep([Entry(p, e)] + Without(es, p), [Entry(owner[p], c)] + Without(ws, owner[p]), owner)
  {
    var w := owner[p];
    var es', ws' := [Entry(p, e)] + Without(es, p), [Entry(w, c)] + Without(ws, w);
    WithoutOwned(es, owner, p);
    WorkflowsWithout(es, owner, p);
    KeysWithout(ws, w);
    RemovePrefix(Workflows(es, owner), Keys(ws), w);
    assert es'[1..] == Without(es, p) && ws'[1..] == Without(ws, w);
  }

  lemma PutInStep(es: IdCache, ws: IdCache, owner: map<string, string>, lim: Limits, p: string, e: nat, c: nat)
    requires InStep(es, ws, owner) && p in owner
    requires lim.execution <= lim.context
    ensures InStep(Put(es, lim.execution, p, e), Put(ws, lim.context, owner[p], c), owner)
  {
    FrontInStep(es, ws, owner, p, e, c);
    var es', ws' := [Entry(p, e)] + Without(es, p), [Entry(owner[p], c)] + Without(ws, owner[p]);
    var n := if |es'| > lim.execution then lim.execution else |es'|;
    var m := if |ws'| > lim.context then lim.context else |ws'|;
    assert es'[..n] == Put(es, lim.execution, p, e);
    assert ws'[..m] == Put(ws, lim.context, owner[p], c);
    WorkflowsTake(es', owner, n);
    KeysTake(ws', m);
  }

  lemma TouchInStep(es: IdCache, ws: IdCache, owner: map<string, string>, p: string)
    requires InStep(es, ws, owner) && Has(es, p) && p in owner && Has(ws, owner[p])
    ensures InStep(Touch(es, p), Touch(ws, owner[p]), owner)
  {
    FrontInStep(es, ws, owner, p, Value(es, p), Value(ws, owner[p]));
  }

  /** The cache hit at `pod_name_to_execution_id[...]` never meets a missing workflow. */
  lemma HitHasWorkflow(es: IdCache, ws: IdCache, owner: map<string, string>, p: string)
    requires InStep(es, ws, owner) && Has(es, p)
    ensures p in owner && Has(ws, owner[p])
  {
    var i :| 0 <= i < |es| && es[i].key == p;
    WorkflowsHas(es, owner, i);
    KeysHas(ws, owner[p]);
  }

  ghost predicate CachesInStep(s: State) {
    InStep(s.podExecution, s.workflowContext, s.owner)
  }

  lemma RegisterInStep(lim: Limits, s: State, p: string, luck: Luck)
    requires Inv(lim, s) && CachesInStep(s) && p in s.pods && lim.execution <= lim.context
    ensures CachesInStep(Register(lim, s, p, luck).state)
  {
    RegisterInv(lim, s, p, luck);
    var found := Contexts.GetOrCreate(s.contexts, s.memo, Contexts.Call(s.owner[p], RUN_CONTEXT_TYPE));
    if found.result.Ok? {
      PutInStep(s.podExecution, s.workflowContext, s.owner, lim, p, |s.executions|, found.result.value);
      hide Inv, InStep, Put;
    }
  }

  lemma IdentifyInStep(lim: Limits, s: State, p: string, v: Version, luck: Luck)
    requires Inv(lim, s) && CachesInStep(s) && p in s.pods && v in s.pods[p].versions
    requires lim.execution <= lim.context
    ensures CachesInStep(Identify(lim, s, p, v, luck).state)
  {
    if Has(s.podExecution, p) {
      HitHasWorkflow(s.podExecution, s.workflowContext, s.owner, p);
      TouchInStep(s.podExecution, s.workflowContext, s.owner, p);
    } else if v.ids.None? {
      RegisterInStep(lim, s, p, luck);
    }
  }

  lemma HandleInStep(lim: Limits, s: State, p: string, i: nat, luck: Luck)
    requires Inv(lim, s) && CachesInStep(s) && Deliverable(s, p, i) && lim.execution <= lim.context
    ensures CachesInStep(Handle(lim, s, p, i, luck))
  {
    var v, s0 := s.pods[p].versions[i], Delivered(s, p, i);
    if v.written || s.pods[p].skipped || luck.fault == OnParse {
    } else {
      DeliveredInv(lim, s, p, i);
      IdentifyInv(lim, s0, p, v, luck);
      IdentifyInStep(lim, s0, p, v, luck);
      var found := Identify(lim, s0, p, v, luck);
      if found.ids.Some? {
        PublishKeepsCaches(lim, found.state, p, v, found.ids.value, luck);
      }
    }
  }

  lemma PublishKeepsCaches(lim: Limits, s: State, p: string, v: Version, ids: Ids, luck: Luck)
    requires p in s.pods && s.pods[p].versions != []
    ensures var after := Publish(lim, s, p, v, ids, luck);
            && after.podExecution == s.podExecution
            && after.workflowContext == s.workflowContext
            && after.owner == s.owner
            && after.executions == s.executions
            && after.contexts == s.contexts
  {
  }

  lemma NextInStep(lim: Limits, s: State, step: Step)
    requires Inv(lim, s) && CachesInStep(s) && Enabled(s, step) && lim.execution <= lim.context
    ensures CachesInStep(Next(lim, s, step))
  {
    match step
    case CreatePod(p, w, _) => WorkflowsMoreOwners(s.podExecution, s.owner, p, w);
    case Deliver(p, i, luck) => HandleInStep(lim, s, p, i, luck);
    case _ =>
  }
}
