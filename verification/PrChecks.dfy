/**
  Watching the checks of a pull request: each poll reduces the reported runs to the latest
  run of every check and decides from those alone.
 */
module PrChecks {
  import opened Wrappers

  /** Time stamps are compared, nothing else; a missing one is the smallest. */
  datatype Check = Check(name: string, time: nat, status: string, conclusion: string)

  /** The dictionary in insertion order. */
  type Latest = seq<Check>

  datatype Verdict = Wait | Raise(name: string) | Done

  predicate Failed(c: Check) {
    || (c.conclusion != "" && c.conclusion !in {"SUCCESS", "NEUTRAL", "SKIPPED"})
    || c.status in {"FAILURE", "ERROR"}
  }

  predicate Complete(c: Check) {
    c.status in {"COMPLETED", "SUCCESS", "NEUTRAL", "SKIPPED"}
  }

  /* ---- The reduction ---- */

  function Find(latest: Latest, name: string): (i: nat)
    ensures i <= |latest|
    ensures i < |latest| ==> latest[i].name == name
    ensures forall j :: 0 <= j < i ==> latest[j].name != name
  {
    if latest == [] || latest[0].name == name then 0 else 1 + Find(latest[1..], name)
  }

  /** A run replaces the one remembered for its check unless that one is younger. */
  function Remember(latest: Latest, c: Check): Latest {
    var i := Find(latest, c.name);
    if i == |latest| then latest + [c]
    else if c.time >= latest[i].time then latest[i := c]
    else latest
  }

  /** The run at i is the last of the youngest runs of its check. */
  ghost predicate IsLatestAt(checks: seq<Check>, i: int) {
    && 0 <= i < |checks|
    && forall j :: 0 <= j < |checks| && checks[j].name == checks[i].name ==>
         checks[j].time < checks[i].time || (checks[j].time == checks[i].time && j <= i)
  }

  ghost predicate IsLatest(checks: seq<Check>, c: Check) {
    exists i :: IsLatestAt(checks, i) && checks[i] == c
  }

  ghost predicate Reduces(latest: Latest, checks: seq<Check>) {
    && (forall i, j :: 0 <= i < j < |latest| ==> latest[i].name != latest[j].name)
    && (forall c :: c in latest <==> IsLatest(checks, c))
  }

  /** The latest run of a check so far, or the new run if it replaces it. */
  lemma LatestOrNew(front: seq<Check>, last: Check, i: nat)
    requires IsLatestAt(front, i)
    ensures last.name == front[i].name && last.time >= front[i].time ==> IsLatestAt(front + [last], |front|)
    ensures !(last.name == front[i].name && last.time >= front[i].time) ==> IsLatestAt(front + [last], i)
  {
    var checks := front + [last];
    assert checks[|front|] == last && forall j :: 0 <= j < |front| ==> checks[j] == front[j];
  }

  lemma OnlyRun(front: seq<Check>, last: Check)
    requires forall j :: 0 <= j < |front| ==> front[j].name != last.name
    ensures IsLatestAt(front + [last], |front|)
  {
    var checks := front + [last];
    assert checks[|front|] == last && forall j :: 0 <= j < |front| ==> checks[j] == front[j];
  }

  lemma {:induction false} SomeLatest(checks: seq<Check>, name: string) returns (k: nat)
    requires exists c :: c in checks && c.name == name
    ensures IsLatestAt(checks, k) && checks[k].name == name
  {
    var front, last := checks[..|checks| - 1], checks[|checks| - 1];
    assert checks == front + [last];
    if exists c :: c in front && c.name == name {
      var i := SomeLatest(front, name);
      LatestOrNew(front, last, i);
      k := if last.name == name && last.time >= front[i].time then |front| else i;
    } else {
      assert forall c :: c in checks ==> c in front || c == last;
      forall j | 0 <= j < |front| ensures front[j].name != name {
        assert front[j] in front;
      }
      OnlyRun(front, last);
      k := |front|;
    }
  }

  /** Two latest runs of one check are the same run. */
  lemma LatestUnique(checks: seq<Check>, c: Check, d: Check)
    requires IsLatest(checks, c) && IsLatest(checks, d) && c.name == d.name
    ensures c == d
  {
    var i :| IsLatestAt(checks, i) && checks[i] == c;
    var j :| IsLatestAt(checks, j) && checks[j] == d;
  }

  /** One more run leaves the latest runs of other checks, and younger ones, alone. */
  lemma LatestKept(checks: seq<Check>, c: Check, d: Check)
    requires d.name != c.name || c.time < d.time
    ensures IsLatest(checks + [c], d) <==> IsLatest(checks, d)
  {
    var after, n := checks + [c], |checks|;
    assert after[n] == c && forall j :: 0 <= j < n ==> after[j] == checks[j];
    if IsLatest(after, d) {
      var i :| IsLatestAt(after, i) && after[i] == d;
      assert i != n;
      assert IsLatestAt(checks, i);
    }
    if IsLatest(checks, d) {
      var i :| IsLatestAt(checks, i) && checks[i] == d;
      assert IsLatestAt(after, i);
    }
  }

  /** A run older than the latest one of its check changes nothing. */
  lemma LatestOlder(checks: seq<Check>, c: Check, b: Check, d: Check)
    requires IsLatest(checks, b) && b.name == c.name == d.name && c.time < b.time
    ensures IsLatest(checks + [c], d) <==> IsLatest(checks, d)
  {
    LatestKept(checks, c, b);
    if IsLatest(checks + [c], d) {
      LatestUnique(checks + [c], b, d);
    }
    if IsLatest(checks, d) {
      LatestUnique(checks, b, d);
    }
  }

  /** How one more run changes what is latest. */
  lemma LatestExtended(checks: seq<Check>, c: Check, d: Check)
    ensures IsLatest(checks + [c], d) <==>
            if d.name != c.name then IsLatest(checks, d)
            else if exists b :: IsLatest(checks, b) && b.name == c.name && c.time < b.time then IsLatest(checks, d)
            else d == c
  {
    if d.name != c.name {
      LatestKept(checks, c, d);
    } else if b :| IsLatest(checks, b) && b.name == c.name && c.time < b.time {
      LatestOlder(checks, c, b, d);
    } else {
      LastIsLatest(checks, c);
      hide IsLatest;
      if IsLatest(checks + [c], d) {
        LatestUnique(checks + [c], c, d);
      }
    }
  }

  lemma LastIsLatest(checks: seq<Check>, c: Check)
    requires forall b :: IsLatest(checks, b) && b.name == c.name ==> b.time <= c.time
    ensures IsLatest(checks + [c], c)
  {
    var after, n := checks + [c], |checks|;
    forall j | 0 <= j < n && checks[j].name == c.name ensures checks[j].time <= c.time {
      assert checks[j] in checks;
      var k := SomeLatest(checks, c.name);
      assert IsLatest(checks, checks[k]);
    }
    assert IsLatestAt(after, n);
  }

  /** One pass over the runs keeps exactly the latest of each check. */
  lemma RememberReduces(latest: Latest, checks: seq<Check>, c: Check)
    requires Reduces(latest, checks)
    ensures Reduces(Remember(latest, c), checks + [c])
  {
    var i := Find(latest, c.name);
    var after := Remember(latest, c);
    forall d ensures d in after <==> IsLatest(checks + [c], d) {
      LatestExtended(checks, c, d);
      if i == |latest| {
        assert forall b :: b in latest ==> b.name != c.name;
        assert d in after <==> d in latest || d == c;
      } else {
        assert latest[i] in latest;
        forall b | IsLatest(checks, b) && b.name == c.name ensures b == latest[i] {
          LatestUnique(checks, b, latest[i]);
        }
        if c.time >= latest[i].time {
          Replaced(latest, i, c, d);
        }
      }
    }
  }

  lemma Replaced(latest: Latest, i: nat, c: Check, d: Check)
    requires i < |latest| && latest[i].name == c.name
    requires forall j, k :: 0 <= j < k < |latest| ==> latest[j].name != latest[k].name
    ensures d in latest[i := c] <==> d == c || (d.name != c.name && d in latest)
  {
    if d in latest && d.name != c.name {
      var j :| 0 <= j < |latest| && latest[j] == d;
      assert latest[i := c][j] == d;
    }
    assert latest[i := c][i] == c;
  }

  /* ---- The decision ---- */

  function FirstFailed(latest: Latest): Option<Check> {
    if latest == [] then None
    else if Failed(latest[0]) then Some(latest[0])
    else FirstFailed(latest[1..])
  }

  function CountComplete(latest: Latest): nat {
    if latest == [] then 0 else (if Complete(latest[0]) then 1 else 0) + CountComplete(latest[1..])
  }

  lemma {:induction false} DecideMeans(latest: Latest)
    ensures FirstFailed(latest).Some? <==> exists c :: c in latest && Failed(c)
    ensures FirstFailed(latest).Some? ==> FirstFailed(latest).value in latest && Failed(FirstFailed(latest).value)
    ensures CountComplete(latest) <= |latest|
    ensures CountComplete(latest) == |latest| <==> forall c :: c in latest ==> Complete(c)
  {
    if latest != [] {
      DecideMeans(latest[1..]);
      assert forall c :: c in latest <==> c == latest[0] || c in latest[1..];
    }
  }

  lemma NothingLatest()
    ensures forall c :: !IsLatest([], c)
    ensures Reduces([], [])
  {
  }

  /** One poll. */
  method Poll(checks: seq<Check>) returns (verdict: Verdict)
    ensures verdict.Raise? <==>
            exists c :: && IsLatest(checks, c)
                        && (|| (c.conclusion != "" && c.conclusion != "SUCCESS" && c.conclusion != "NEUTRAL"
                                && c.conclusion != "SKIPPED")
                            || c.status == "FAILURE" || c.status == "ERROR")
    ensures verdict.Raise? ==> exists c :: IsLatest(checks, c) && Failed(c) && c.name == verdict.name
    ensures verdict == Done <==>
            && checks != []
            && forall c :: IsLatest(checks, c) ==>
                 && (c.conclusion == "" || c.conclusion == "SUCCESS" || c.conclusion == "NEUTRAL"
                     || c.conclusion == "SKIPPED")
                 && (c.status == "COMPLETED" || c.status == "SUCCESS" || c.status == "NEUTRAL" || c.status == "SKIPPED")
  {
    hide IsLatest, Remember;
    if checks == [] {
      assert forall c :: !IsLatest(checks, c) by {
        NothingLatest();
      }
      return Wait;
    }
    var latest: Latest := [];
    NothingLatest();
    for i := 0 to |checks|
      invariant Reduces(latest, checks[..i])
    {
      assert checks[..i + 1] == checks[..i] + [checks[i]];
      RememberReduces(latest, checks[..i], checks[i]);
      latest := Remember(latest, checks[i]);
    }
    assert checks[..|checks|] == checks;
    DecideMeans(latest);
    var completed := 0;
    for i := 0 to |latest|
      invariant forall j :: 0 <= j < i ==> !Failed(latest[j])
      invariant completed + CountComplete(latest[i..]) == CountComplete(latest)
    {
      assert latest[i..][1..] == latest[i + 1..];
      if Failed(latest[i]) {
        assert latest[i] in latest;
        return Raise(latest[i].name);
      }
      if Complete(latest[i]) {
        completed := completed + 1;
      }
    }
    if completed == |latest| {
      return Done;
    }
    return Wait;
  }

  /** Leaving out a run that is not the latest of its check keeps the latest one. */
  lemma LeftOut(before: seq<Check>, old_: Check, after: seq<Check>, i: nat)
    requires IsLatestAt(before + [old_] + after, i) && i != |before|
    ensures IsLatest(before + after, (before + [old_] + after)[i])
  {
    var all, rest, n := before + [old_] + after, before + after, |before|;
    var k := if i < n then i else i - 1;
    assert rest[k] == all[i];
    forall j | 0 <= j < |rest| && rest[j].name == rest[k].name
      ensures rest[j].time < rest[k].time || (rest[j].time == rest[k].time && j <= k)
    {
      assert rest[j] == all[if j < n then j else j + 1];
    }
    assert IsLatestAt(rest, k);
  }

  /** Putting a superseded run back in keeps every latest run. */
  lemma PutIn(before: seq<Check>, old_: Check, after: seq<Check>, k: nat)
    requires IsLatestAt(before + after, k)
    requires (before + after)[k].name == old_.name ==> old_.time < (before + after)[k].time
    ensures IsLatest(before + [old_] + after, (before + after)[k])
  {
    var all, rest, n := before + [old_] + after, before + after, |before|;
    var i := if k < n then k else k + 1;
    assert all[i] == rest[k];
    forall j | 0 <= j < |all| && all[j].name == all[i].name
      ensures all[j].time < all[i].time || (all[j].time == all[i].time && j <= i)
    {
      if j == n {
        assert all[j] == old_;
      } else {
        assert all[j] == rest[if j < n then j else j - 1];
      }
    }
    assert IsLatestAt(all, i);
  }

  /** A run that a younger run of its check supersedes might as well not be there. */
  lemma SupersededIsIgnored(before: seq<Check>, old_: Check, after: seq<Check>, young: Check, c: Check)
    requires young in before + after && young.name == old_.name && old_.time < young.time
    ensures IsLatest(before + [old_] + after, c) <==> IsLatest(before + after, c)
  {
    var all, rest, n := before + [old_] + after, before + after, |before|;
    var y :| 0 <= y < |rest| && rest[y] == young;
    assert all[if y < n then y else y + 1] == young && all[n] == old_;
    if IsLatest(all, c) {
      var i :| IsLatestAt(all, i) && all[i] == c;
      assert i != n;
      LeftOut(before, old_, after, i);
    }
    if IsLatest(rest, c) {
      var k :| IsLatestAt(rest, k) && rest[k] == c;
      PutIn(before, old_, after, k);
    }
  }

  ghost predicate DistinctTimes(checks: seq<Check>) {
    forall i, j :: 0 <= i < j < |checks| && checks[i].name == checks[j].name ==> checks[i].time != checks[j].time
  }

  /** With distinct times the order of the list does not matter. */
  lemma OrderIrrelevant(checks: seq<Check>, others: seq<Check>, c: Check)
    requires multiset(checks) == multiset(others) && DistinctTimes(checks) && DistinctTimes(others)
    ensures IsLatest(checks, c) <==> IsLatest(others, c)
  {
    if IsLatest(checks, c) {
      LatestElsewhere(checks, others, c);
    }
    if IsLatest(others, c) {
      LatestElsewhere(others, checks, c);
    }
  }

  lemma LatestElsewhere(checks: seq<Check>, others: seq<Check>, c: Check)
    requires multiset(checks) == multiset(others) && DistinctTimes(others) && IsLatest(checks, c)
    ensures IsLatest(others, c)
  {
    var i :| IsLatestAt(checks, i) && checks[i] == c;
    assert c in multiset(checks);
    var k :| 0 <= k < |others| && others[k] == c;
    forall j | 0 <= j < |others| && others[j].name == c.name
      ensures others[j].time < c.time || (others[j].time == c.time && j <= k)
    {
      assert others[j] in multiset(others);
      var m :| 0 <= m < |checks| && checks[m] == others[j];
    }
    assert IsLatestAt(others, k);
  }

  /** The watch: polls until one decides; the polls are what the service will report. */
  method Watch(polls: seq<seq<Check>>) returns (r: Option<(nat, Verdict)>)
    ensures r.Some? ==> r.value.0 < |polls| && r.value.1 != Wait
    ensures r.Some? && r.value.1 == Done ==>
              polls[r.value.0] != []
              && forall c :: IsLatest(polls[r.value.0], c) ==> Complete(c) && !Failed(c)
    ensures r.Some? && r.value.1.Raise? ==>
              exists c :: IsLatest(polls[r.value.0], c) && Failed(c) && c.name == r.value.1.name
    ensures forall i :: 0 <= i < (if r.Some? then r.value.0 else |polls|) ==> Undecided(polls[i])
  {
    for i := 0 to |polls|
      invariant forall j :: 0 <= j < i ==> Undecided(polls[j])
    {
      var verdict := Poll(polls[i]);
      if verdict != Wait {
        return Some((i, verdict));
      }
    }
    return None;
  }

  /** Nothing latest has failed, but something is missing or not complete. */
  ghost predicate Undecided(checks: seq<Check>) {
    && (forall c :: IsLatest(checks, c) ==> !Failed(c))
    && (checks == [] || exists c :: IsLatest(checks, c) && !Complete(c))
  }
}
