/**
  `runPool`: a fixed number of asynchronous workers claim task numbers from a shared
  counter until the tasks run out or one of them fails.  Between two awaits a worker runs
  undisturbed, so a run is a sequence of such stretches in any order the tasks allow.
 */
module TaskPool {
  import opened Wrappers

  datatype Outcome = Fulfilled | Threw(reason: string)

  datatype Worker =
    | Ready                                 // about to test the loop condition
    | Running(idx: nat)                     // awaiting its task
    | Finished                              // left the loop
    | Rejected(idx: nat, reason: string)    // its promise is rejected

  datatype Event = Claim(worker: nat, idx: nat) | Settle(worker: nat, idx: nat, outcome: Outcome)

  datatype Pool = Pool(tasks: nat, nextIdx: nat, failed: bool, workers: seq<Worker>, log: seq<Event>)

  /** `Array.from` takes a negative length for zero. */
  function Width(tasks: nat, concurrency: int): nat {
    if concurrency < 0 then 0 else if concurrency < tasks then concurrency else tasks
  }

  /** As many workers as tasks and as the concurrency allows, and no fewer. */
  ghost predicate IsMinimum(n: nat, tasks: nat, concurrency: int) {
    && n <= tasks
    && (concurrency >= 0 ==> n <= concurrency && (n == concurrency || n == tasks))
    && (concurrency < 0 ==> n == 0)
  }

  lemma WidthIsMinimum(tasks: nat, concurrency: int)
    ensures IsMinimum(Width(tasks, concurrency), tasks, concurrency)
  {
  }

  function Start(tasks: nat, concurrency: int): Pool {
    Pool(tasks, 0, false, seq(Width(tasks, concurrency), _ => Ready), [])
  }

  predicate Active(pool: Pool, w: nat) {
    w < |pool.workers| && (pool.workers[w].Ready? || pool.workers[w].Running?)
  }

  /** Worker w runs to its next await; `outcome` is how the task it awaited settled. */
  function Advance(pool: Pool, w: nat, outcome: Outcome): Pool
    requires Active(pool, w)
  {
    match pool.workers[w]
    case Ready =>
      if !pool.failed && pool.nextIdx < pool.tasks then
        pool.(nextIdx := pool.nextIdx + 1,
              workers := pool.workers[w := Running(pool.nextIdx)],
              log := pool.log + [Claim(w, pool.nextIdx)])
      else pool.(workers := pool.workers[w := Finished])
    case Running(idx) =>
      pool.(failed := pool.failed || outcome.Threw?,
            workers := pool.workers[w := if outcome.Threw? then Rejected(idx, outcome.reason) else Ready],
            log := pool.log + [Settle(w, idx, outcome)])
  }

  ghost predicate Settled(pool: Pool) {
    forall w :: 0 <= w < |pool.workers| ==> !Active(pool, w)
  }

  /** What `allSettled` followed by `find` makes of the workers. */
  function FirstFailure(workers: seq<Worker>): Option<string> {
    if workers == [] then None
    else if workers[0].Rejected? then Some(workers[0].reason)
    else FirstFailure(workers[1..])
  }

  /* ---- Reading the log ---- */

  function Claims(log: seq<Event>): seq<nat> {
    if log == [] then []
    else
      var last := log[|log| - 1];
      Claims(log[..|log| - 1]) + if last.Claim? then [last.idx] else []
  }

  function Settles(log: seq<Event>): nat {
    if log == [] then 0
    else Settles(log[..|log| - 1]) + if log[|log| - 1].Settle? then 1 else 0
  }

  function CountRunning(workers: seq<Worker>): nat {
    if workers == [] then 0
    else CountRunning(workers[..|workers| - 1]) + if workers[|workers| - 1].Running? then 1 else 0
  }

  ghost predicate Claimed(log: seq<Event>, w: nat, idx: nat) {
    Claim(w, idx) in log
  }

  ghost predicate IsSettled(log: seq<Event>, idx: nat) {
    exists i :: 0 <= i < |log| && log[i].Settle? && log[i].idx == idx
  }

  /* ---- The invariant ---- */

  /** The k-th claim is of task k, so the claimed tasks are 0, 1, ... each claimed once. */
  ghost predicate ClaimsInOrder(log: seq<Event>, nextIdx: nat) {
    && Claims(log) == seq(nextIdx, i => i)
    && forall i :: 0 <= i < |log| ==> log[i].idx < nextIdx
  }

  ghost predicate SettlesOnce(log: seq<Event>) {
    forall i, j :: 0 <= i < j < |log| && log[i].Settle? && log[j].Settle? ==> log[i].idx != log[j].idx
  }

  ghost predicate SettlesOwnClaim(log: seq<Event>) {
    forall j :: 0 <= j < |log| && log[j].Settle? ==> Claim(log[j].worker, log[j].idx) in log[..j]
  }

  ghost predicate IsThrow(e: Event) {
    e.Settle? && e.outcome.Threw?
  }

  ghost predicate NoClaimAfterThrow(log: seq<Event>) {
    forall i, j :: 0 <= i < j < |log| && IsThrow(log[i]) ==> log[j].Settle?
  }

  ghost predicate FailedMeansThrow(log: seq<Event>, failed: bool) {
    failed <==> exists i :: 0 <= i < |log| && IsThrow(log[i])
  }

  ghost predicate RunningOk(log: seq<Event>, workers: seq<Worker>) {
    && (forall i :: 0 <= i < |log| ==> log[i].worker < |workers|)
    && (forall w :: 0 <= w < |workers| && workers[w].Running? ==>
          Claimed(log, w, workers[w].idx) && !IsSettled(log, workers[w].idx))
    && (forall v, w :: 0 <= v < w < |workers| && workers[v].Running? && workers[w].Running? ==>
          workers[v].idx != workers[w].idx)
  }

  ghost predicate UnsettledRun(log: seq<Event>, workers: seq<Worker>, nextIdx: nat) {
    forall idx :: 0 <= idx < nextIdx && !IsSettled(log, idx) ==> Running(idx) in workers
  }

  ghost predicate FinishedOk(workers: seq<Worker>, stop: bool) {
    forall w :: 0 <= w < |workers| && workers[w].Finished? ==> stop
  }

  ghost predicate RejectedOk(log: seq<Event>, workers: seq<Worker>) {
    && (forall w :: 0 <= w < |workers| && workers[w].Rejected? ==>
          Settle(w, workers[w].idx, Threw(workers[w].reason)) in log)
    && (forall i :: 0 <= i < |log| && IsThrow(log[i]) ==>
          log[i].worker < |workers| && workers[log[i].worker] == Rejected(log[i].idx, log[i].outcome.reason))
  }

  ghost predicate Inv(pool: Pool) {
    && pool.nextIdx <= pool.tasks
    && pool.nextIdx == Settles(pool.log) + CountRunning(pool.workers)
    && ClaimsInOrder(pool.log, pool.nextIdx)
    && SettlesOnce(pool.log) && SettlesOwnClaim(pool.log) && NoClaimAfterThrow(pool.log)
    && FailedMeansThrow(pool.log, pool.failed)
    && RunningOk(pool.log, pool.workers)
    && UnsettledRun(pool.log, pool.workers, pool.nextIdx)
    && FinishedOk(pool.workers, pool.failed || pool.nextIdx == pool.tasks)
    && RejectedOk(pool.log, pool.workers)
  }

  lemma {:induction false} ReadyCount(n: nat)
    ensures CountRunning(seq(n, _ => Ready)) == 0
  {
    if n > 0 {
      ReadyCount(n - 1);
      assert seq(n, _ => Ready)[..n - 1] == seq(n - 1, _ => Ready);
    }
  }

  lemma StartInv(tasks: nat, concurrency: int)
    ensures Inv(Start(tasks, concurrency))
  {
    ReadyCount(Width(tasks, concurrency));
  }

  lemma {:induction false} RunningChange(workers: seq<Worker>, w: nat, x: Worker)
    requires w < |workers|
    ensures CountRunning(workers[w := x]) ==
            CountRunning(workers) - (if workers[w].Running? then 1 else 0) + if x.Running? then 1 else 0
  {
    var last := |workers| - 1;
    if w == last {
      assert workers[w := x][..last] == workers[..last];
    } else {
      RunningChange(workers[..last], w, x);
      assert workers[w := x][..last] == workers[..last][w := x];
    }
  }

  lemma {:induction false} RunningBound(workers: seq<Worker>)
    ensures CountRunning(workers) <= |workers|
    ensures (forall w :: 0 <= w < |workers| ==> !workers[w].Running?) ==> CountRunning(workers) == 0
  {
    if workers != [] {
      RunningBound(workers[..|workers| - 1]);
    }
  }

  lemma LogGrows(log: seq<Event>, e: Event)
    ensures Claims(log + [e]) == Claims(log) + if e.Claim? then [e.idx] else []
    ensures Settles(log + [e]) == Settles(log) + if e.Settle? then 1 else 0
    ensures forall idx :: IsSettled(log + [e], idx) <==> IsSettled(log, idx) || (e.Settle? && e.idx == idx)
  {
    assert (log + [e])[..|log|] == log;
    forall idx
      ensures IsSettled(log + [e], idx) <==> IsSettled(log, idx) || (e.Settle? && e.idx == idx)
    {
      if IsSettled(log, idx) {
        var i :| 0 <= i < |log| && log[i].Settle? && log[i].idx == idx;
        assert (log + [e])[i] == log[i];
      }
      if IsSettled(log + [e], idx) {
        var i :| 0 <= i < |log + [e]| && (log + [e])[i].Settle? && (log + [e])[i].idx == idx;
        assert i < |log| ==> (log + [e])[i] == log[i];
      }
      assert (log + [e])[|log|] == e;
    }
  }

  lemma ClaimInOrder(log: seq<Event>, w: nat, nextIdx: nat)
    requires ClaimsInOrder(log, nextIdx)
    ensures ClaimsInOrder(log + [Claim(w, nextIdx)], nextIdx + 1)
  {
    LogGrows(log, Claim(w, nextIdx));
    assert Claims(log + [Claim(w, nextIdx)]) == seq(nextIdx + 1, i => i);
    hide Claims, Settles;
  }

  lemma ClaimSettles(log: seq<Event>, e: Event)
    requires SettlesOnce(log) && SettlesOwnClaim(log) && e.Claim?
    ensures SettlesOnce(log + [e]) && SettlesOwnClaim(log + [e])
  {
    var after := log + [e];
    forall j | 0 <= j < |after| && after[j].Settle? ensures Claim(after[j].worker, after[j].idx) in after[..j] {
      assert after[..j] == log[..j];
    }
  }

  lemma ClaimThrows(log: seq<Event>, e: Event, failed: bool)
    requires NoClaimAfterThrow(log) && FailedMeansThrow(log, failed) && e.Claim? && !failed
    ensures NoClaimAfterThrow(log + [e]) && FailedMeansThrow(log + [e], failed)
  {
    var after := log + [e];
    assert forall i :: 0 <= i < |log| ==> after[i] == log[i];
    assert !IsThrow(after[|log|]);
  }

  lemma ClaimLog(log: seq<Event>, w: nat, nextIdx: nat, failed: bool)
    requires ClaimsInOrder(log, nextIdx) && SettlesOnce(log) && SettlesOwnClaim(log) && NoClaimAfterThrow(log)
    requires FailedMeansThrow(log, failed) && !failed
    ensures var after := log + [Claim(w, nextIdx)];
            && ClaimsInOrder(after, nextIdx + 1)
            && SettlesOnce(after) && SettlesOwnClaim(after) && NoClaimAfterThrow(after)
            && FailedMeansThrow(after, failed)
  {
    hide *;
    ClaimInOrder(log, w, nextIdx);
    ClaimSettles(log, Claim(w, nextIdx));
    ClaimThrows(log, Claim(w, nextIdx), failed);
  }

  lemma SettleLog(log: seq<Event>, e: Event, nextIdx: nat, failed: bool)
    requires ClaimsInOrder(log, nextIdx) && SettlesOnce(log) && SettlesOwnClaim(log) && NoClaimAfterThrow(log)
    requires FailedMeansThrow(log, failed)
    requires e.Settle? && e.idx < nextIdx && Claimed(log, e.worker, e.idx) && !IsSettled(log, e.idx)
    ensures var after := log + [e];
            && ClaimsInOrder(after, nextIdx)
            && SettlesOnce(after) && SettlesOwnClaim(after) && NoClaimAfterThrow(after)
            && FailedMeansThrow(after, failed || e.outcome.Threw?)
  {
    var after := log + [e];
    LogGrows(log, e);
    assert after[|log|] == e;
    assert forall i :: 0 <= i < |log| ==> after[i] == log[i];
    assert ClaimsInOrder(after, nextIdx) && NoClaimAfterThrow(after) by {
      hide SettlesOnce, SettlesOwnClaim, FailedMeansThrow, Claimed, IsSettled;
    }
    assert SettlesOnce(after) by {
      hide ClaimsInOrder, NoClaimAfterThrow, SettlesOwnClaim, FailedMeansThrow, Claimed;
    }
    hide ClaimsInOrder, SettlesOnce, NoClaimAfterThrow, IsSettled;
    forall j | 0 <= j < |after| && after[j].Settle? ensures Claim(after[j].worker, after[j].idx) in after[..j] {
      assert after[..j] == log[..j];
    }
  }

  lemma ClaimWorkers(log: seq<Event>, workers: seq<Worker>, w: nat, nextIdx: nat)
    requires w < |workers| && workers[w].Ready?
    requires ClaimsInOrder(log, nextIdx)
    requires RunningOk(log, workers) && UnsettledRun(log, workers, nextIdx) && RejectedOk(log, workers)
    ensures var after, workers' := log + [Claim(w, nextIdx)], workers[w := Running(nextIdx)];
            && RunningOk(after, workers') && UnsettledRun(after, workers', nextIdx + 1) && RejectedOk(after, workers')
  {
    var after, workers' := log + [Claim(w, nextIdx)], workers[w := Running(nextIdx)];
    LogGrows(log, Claim(w, nextIdx));
    assert UnsettledRun(after, workers', nextIdx + 1) by {
      UnsettledUpdate(log, workers, w, Running(nextIdx), nextIdx);
      assert workers'[w] == Running(nextIdx);
    }
    assert RunningOk(after, workers') by {
      hide UnsettledRun, RejectedOk;
      ClaimRunning(log, workers, w, nextIdx);
    }
    assert RejectedOk(after, workers') by {
      hide RunningOk, UnsettledRun, ClaimsInOrder, IsSettled;
      assert after[|log|] == Claim(w, nextIdx);
      assert forall i :: 0 <= i < |log| ==> after[i] == log[i];
    }
  }

  lemma ClaimRunning(log: seq<Event>, workers: seq<Worker>, w: nat, nextIdx: nat)
    requires w < |workers| && ClaimsInOrder(log, nextIdx) && RunningOk(log, workers)
    ensures RunningOk(log + [Claim(w, nextIdx)], workers[w := Running(nextIdx)])
  {
    var after := log + [Claim(w, nextIdx)];
    LogGrows(log, Claim(w, nextIdx));
    hide Claims;
    forall v | 0 <= v < |workers| && workers[v].Running?
      ensures Claimed(after, v, workers[v].idx) && workers[v].idx < nextIdx
    {
      assert Claimed(log, v, workers[v].idx);
    }
    assert after[|log|] == Claim(w, nextIdx);
  }

  /** Replacing a worker that runs nothing leaves the running ones in place. */
  lemma UnsettledUpdate(log: seq<Event>, workers: seq<Worker>, w: nat, x: Worker, nextIdx: nat)
    requires w < |workers| && UnsettledRun(log, workers, nextIdx)
    ensures forall idx :: 0 <= idx < nextIdx && !IsSettled(log, idx) && workers[w] != Running(idx) ==>
              Running(idx) in workers[w := x]
  {
    forall idx | 0 <= idx < nextIdx && !IsSettled(log, idx) && workers[w] != Running(idx)
      ensures Running(idx) in workers[w := x]
    {
      var v :| 0 <= v < |workers| && workers[v] == Running(idx);
      assert workers[w := x][v] == Running(idx);
    }
  }

  lemma SettleWorkers(log: seq<Event>, workers: seq<Worker>, w: nat, outcome: Outcome, x: Worker, nextIdx: nat)
    requires w < |workers| && workers[w].Running?
    requires x == if outcome.Threw? then Rejected(workers[w].idx, outcome.reason) else Ready
    requires RunningOk(log, workers) && UnsettledRun(log, workers, nextIdx) && RejectedOk(log, workers)
    ensures var after, workers' := log + [Settle(w, workers[w].idx, outcome)], workers[w := x];
            && RunningOk(after, workers') && UnsettledRun(after, workers', nextIdx) && RejectedOk(after, workers')
  {
    var e := Settle(w, workers[w].idx, outcome);
    var after, workers' := log + [e], workers[w := x];
    LogGrows(log, e);
    forall v | 0 <= v < |workers| && workers[v].Running? ensures Claimed(after, v, workers[v].idx) {
      assert Claimed(log, v, workers[v].idx);
    }
    UnsettledUpdate(log, workers, w, x, nextIdx);
    assert after[|log|] == e;
    assert forall i :: 0 <= i < |log| ==> after[i] == log[i];
  }

  lemma RunningIsOpen(log: seq<Event>, workers: seq<Worker>, w: nat, nextIdx: nat)
    requires w < |workers| && workers[w].Running?
    requires ClaimsInOrder(log, nextIdx) && RunningOk(log, workers)
    ensures workers[w].idx < nextIdx && Claimed(log, w, workers[w].idx) && !IsSettled(log, workers[w].idx)
  {
    hide Claims;
    assert Claimed(log, w, workers[w].idx);
  }

  /** A worker that does not finish, and a condition to stop that only gets weaker. */
  lemma FinishedUpdate(workers: seq<Worker>, w: nat, x: Worker, stop: bool, stop': bool)
    requires w < |workers| && FinishedOk(workers, stop) && !x.Finished? && (stop ==> stop')
    ensures FinishedOk(workers[w := x], stop')
  {
  }

  lemma SettleInv(pool: Pool, w: nat, outcome: Outcome)
    requires Inv(pool) && Active(pool, w) && pool.workers[w].Running?
    ensures Inv(Advance(pool, w, outcome))
  {
    hide ClaimsInOrder, SettlesOnce, SettlesOwnClaim, NoClaimAfterThrow, FailedMeansThrow, RunningOk, UnsettledRun;
    hide RejectedOk, FinishedOk, Settles, CountRunning, Claims, IsSettled, Claimed;
    var idx := pool.workers[w].idx;
    var x := if outcome.Threw? then Rejected(idx, outcome.reason) else Ready;
    var e := Settle(w, idx, outcome);
    RunningChange(pool.workers, w, x);
    LogGrows(pool.log, e);
    RunningIsOpen(pool.log, pool.workers, w, pool.nextIdx);
    SettleLog(pool.log, e, pool.nextIdx, pool.failed);
    SettleWorkers(pool.log, pool.workers, w, outcome, x, pool.nextIdx);
    var stop := pool.failed || pool.nextIdx == pool.tasks;
    FinishedUpdate(pool.workers, w, x, stop, stop || outcome.Threw?);
  }

  lemma ClaimInv(pool: Pool, w: nat, outcome: Outcome)
    requires Inv(pool) && Active(pool, w) && pool.workers[w].Ready? && !pool.failed && pool.nextIdx < pool.tasks
    ensures Inv(Advance(pool, w, outcome))
  {
    hide ClaimsInOrder, SettlesOnce, SettlesOwnClaim, NoClaimAfterThrow, FailedMeansThrow, RunningOk, UnsettledRun;
    hide RejectedOk;
    var e, x := Claim(w, pool.nextIdx), Running(pool.nextIdx);
    RunningChange(pool.workers, w, x);
    LogGrows(pool.log, e);
    ClaimLog(pool.log, w, pool.nextIdx, pool.failed);
    ClaimWorkers(pool.log, pool.workers, w, pool.nextIdx);
    hide FinishedOk, Settles, CountRunning, Claims, IsSettled;
    FinishedUpdate(pool.workers, w, x, false, pool.nextIdx + 1 == pool.tasks);
  }

  lemma LeaveInv(pool: Pool, w: nat, outcome: Outcome)
    requires Inv(pool) && Active(pool, w) && pool.workers[w].Ready? && (pool.failed || pool.nextIdx == pool.tasks)
    ensures Inv(Advance(pool, w, outcome))
  {
    hide ClaimsInOrder, SettlesOnce, SettlesOwnClaim, NoClaimAfterThrow, FailedMeansThrow, CountRunning, Settles;
    hide IsSettled, Claimed;
    RunningChange(pool.workers, w, Finished);
    UnsettledUpdate(pool.log, pool.workers, w, Finished, pool.nextIdx);
  }

  /** Every stretch of every worker keeps the invariant. */
  lemma AdvanceInv(pool: Pool, w: nat, outcome: Outcome)
    requires Inv(pool) && Active(pool, w)
    ensures Inv(Advance(pool, w, outcome))
  {
    if pool.workers[w].Running? {
      SettleInv(pool, w, outcome);
    } else if !pool.failed && pool.nextIdx < pool.tasks {
      ClaimInv(pool, w, outcome);
    } else {
      LeaveInv(pool, w, outcome);
    }
  }

  /* ---- Whole runs ---- */

  /** What is left to do; every stretch lowers it, so once the tasks settle the pool does. */
  function Remaining(pool: Pool): int {
    2 * (pool.tasks - pool.nextIdx) + Weight(pool.workers)
  }

  function Weight(workers: seq<Worker>): nat {
    if workers == [] then 0
    else
      var x := workers[|workers| - 1];
      Weight(workers[..|workers| - 1]) + if x.Running? then 2 else if x.Ready? then 1 else 0
  }

  lemma {:induction false} WeightChange(workers: seq<Worker>, w: nat, x: Worker)
    requires w < |workers|
    ensures Weight(workers[w := x]) == Weight(workers)
              - (if workers[w].Running? then 2 else if workers[w].Ready? then 1 else 0)
              + if x.Running? then 2 else if x.Ready? then 1 else 0
  {
    var last := |workers| - 1;
    if w == last {
      assert workers[w := x][..last] == workers[..last];
    } else {
      WeightChange(workers[..last], w, x);
      assert workers[w := x][..last] == workers[..last][w := x];
    }
  }

  lemma AdvanceProgress(pool: Pool, w: nat, outcome: Outcome)
    requires Inv(pool) && Active(pool, w)
    ensures 0 <= Remaining(Advance(pool, w, outcome)) < Remaining(pool)
  {
    AdvanceInv(pool, w, outcome);
    WeightChange(pool.workers, w, Advance(pool, w, outcome).workers[w]);
  }

  lemma {:induction false} FirstFailureIs(workers: seq<Worker>)
    ensures FirstFailure(workers).None? <==> forall w :: 0 <= w < |workers| ==> !workers[w].Rejected?
    ensures FirstFailure(workers).Some? ==>
              exists w :: 0 <= w < |workers| && workers[w].Rejected? && workers[w].reason == FirstFailure(workers).value
                && forall v :: 0 <= v < w ==> !workers[v].Rejected?
  {
    if workers != [] && !workers[0].Rejected? {
      var t := workers[1..];
      FirstFailureIs(t);
      if FirstFailure(t).Some? {
        var w :| 0 <= w < |t| && t[w].Rejected? && t[w].reason == FirstFailure(t).value
          && forall v :: 0 <= v < w ==> !t[v].Rejected?;
        assert workers[w + 1] == t[w];
        assert forall v :: 0 <= v < w + 1 ==> v == 0 || workers[v] == t[v - 1];
      }
      assert forall v :: 0 < v < |workers| ==> workers[v] == t[v - 1];
    }
  }

  /** Task `idx` was settled, exactly once, with this outcome. */
  ghost predicate SettledWith(log: seq<Event>, idx: nat, outcome: Outcome) {
    exists i :: 0 <= i < |log| && log[i].Settle? && log[i].idx == idx && log[i].outcome == outcome
  }

  /** What a settled pool has done, and what the caller gets to see. */
  ghost predicate PoolDone(tasks: nat, concurrency: int, pool: Pool, error: Option<string>) {
    && (forall idx :: 0 <= idx < pool.nextIdx ==> IsSettled(pool.log, idx))
    && (error.None? && concurrency >= 1 ==>
          pool.nextIdx == tasks && forall idx :: 0 <= idx < tasks ==> SettledWith(pool.log, idx, Fulfilled))
    && (error.Some? <==> exists idx, reason :: SettledWith(pool.log, idx, Threw(reason)))
    && (error.Some? ==>
          exists w :: 0 <= w < |pool.workers| && pool.workers[w].Rejected?
            && SettledWith(pool.log, pool.workers[w].idx, Threw(error.value))
            && forall i :: 0 <= i < |pool.log| && IsThrow(pool.log[i]) ==>
                 w <= pool.log[i].worker)
    && (concurrency < 1 ==> pool.log == [] && error.None?)
  }

  lemma SettledPool(tasks: nat, concurrency: int, pool: Pool)
    requires Inv(pool) && Settled(pool)
    requires pool.tasks == tasks && |pool.workers| == Width(tasks, concurrency)
    ensures PoolDone(tasks, concurrency, pool, FirstFailure(pool.workers))
  {
    hide Inv, Settled, SettledWith, IsSettled, IsThrow;
    AllSettled(pool);
    FailureShows(pool);
    if FirstFailure(pool.workers).Some? {
      FirstRejected(pool);
    } else if concurrency >= 1 {
      AllFulfilled(pool);
    }
    if concurrency < 1 {
      NothingRuns(pool);
    }
  }

  lemma NothingRuns(pool: Pool)
    requires Inv(pool)
    ensures pool.log != [] ==> pool.workers != []
  {
    assert RunningOk(pool.log, pool.workers);
    if pool.log != [] {
      assert pool.log[0].worker < |pool.workers|;
    }
  }

  lemma AllFulfilled(pool: Pool)
    requires Inv(pool) && Settled(pool) && FirstFailure(pool.workers).None?
    requires pool.workers == [] ==> pool.tasks == 0
    ensures pool.nextIdx == pool.tasks
    ensures forall idx :: 0 <= idx < pool.tasks ==> SettledWith(pool.log, idx, Fulfilled)
  {
    AllSettled(pool);
    FailureShows(pool);
    if pool.workers != [] {
      FirstFailureIs(pool.workers);
      assert !Active(pool, 0) && pool.workers[0].Finished?;
    }
    hide Claims, Settles, CountRunning, RunningOk, UnsettledRun, RejectedOk, SettlesOnce, SettlesOwnClaim;
    forall idx | 0 <= idx < pool.tasks ensures SettledWith(pool.log, idx, Fulfilled) {
      assert IsSettled(pool.log, idx);
      var i :| 0 <= i < |pool.log| && pool.log[i].Settle? && pool.log[i].idx == idx;
      assert !IsThrow(pool.log[i]);
    }
  }

  /** The failure shown is that of the lowest-numbered worker that failed. */
  lemma FirstRejected(pool: Pool)
    requires Inv(pool) && FirstFailure(pool.workers).Some?
    ensures exists w :: 0 <= w < |pool.workers| && pool.workers[w].Rejected?
              && SettledWith(pool.log, pool.workers[w].idx, Threw(FirstFailure(pool.workers).value))
              && forall i :: 0 <= i < |pool.log| && IsThrow(pool.log[i]) ==> w <= pool.log[i].worker
  {
    assert RejectedOk(pool.log, pool.workers);
    hide Inv;
    FirstShown(pool.log, pool.workers);
  }

  lemma FirstShown(log: seq<Event>, workers: seq<Worker>)
    requires RejectedOk(log, workers) && FirstFailure(workers).Some?
    ensures exists w :: 0 <= w < |workers| && workers[w].Rejected?
              && SettledWith(log, workers[w].idx, Threw(FirstFailure(workers).value))
              && forall i :: 0 <= i < |log| && IsThrow(log[i]) ==> w <= log[i].worker
  {
    FirstFailureIs(workers);
    var reason := FirstFailure(workers).value;
    var w :| 0 <= w < |workers| && workers[w].Rejected? && workers[w].reason == reason
      && forall v :: 0 <= v < w ==> !workers[v].Rejected?;
    hide FirstFailure;
    assert Settle(w, workers[w].idx, Threw(reason)) in log;
    assert SettledWith(log, workers[w].idx, Threw(reason));
  }

  lemma AllSettled(pool: Pool)
    requires Inv(pool) && Settled(pool)
    ensures forall idx :: 0 <= idx < pool.nextIdx ==> IsSettled(pool.log, idx)
  {
    forall idx | 0 <= idx < pool.nextIdx ensures IsSettled(pool.log, idx) {
      if !IsSettled(pool.log, idx) {
        var w :| 0 <= w < |pool.workers| && pool.workers[w] == Running(idx);
        assert Active(pool, w);
        assert false;
      }
    }
  }

  lemma FailureShows(pool: Pool)
    requires Inv(pool)
    ensures FirstFailure(pool.workers).Some? <==> pool.failed
    ensures pool.failed <==> exists idx, reason :: SettledWith(pool.log, idx, Threw(reason))
  {
    FirstFailureIs(pool.workers);
    if pool.failed {
      var i :| 0 <= i < |pool.log| && IsThrow(pool.log[i]);
      assert SettledWith(pool.log, pool.log[i].idx, Threw(pool.log[i].outcome.reason));
    }
    if idx, reason :| SettledWith(pool.log, idx, Threw(reason)) {
      assert pool.failed;
    }
    if FirstFailure(pool.workers).Some? {
      var w :| 0 <= w < |pool.workers| && pool.workers[w].Rejected?;
      assert Settle(w, pool.workers[w].idx, Threw(pool.workers[w].reason)) in pool.log;
    }
  }

  /** The tasks under way are those claimed and not settled; each has a worker of its own. */
  lemma InFlightBound(pool: Pool)
    requires Inv(pool)
    ensures |Claims(pool.log)| - Settles(pool.log) == CountRunning(pool.workers)
    ensures 0 <= |Claims(pool.log)| - Settles(pool.log) <= |pool.workers|
  {
    RunningBound(pool.workers);
  }

  /** At no moment were more than n tasks claimed and not settled. */
  ghost predicate NeverMore(log: seq<Event>, n: nat) {
    forall k :: 0 <= k <= |log| ==> |Claims(log[..k])| - Settles(log[..k]) <= n
  }

  lemma NothingMore(n: nat)
    ensures NeverMore([], n)
  {
  }

  lemma NeverMoreThan(log: seq<Event>, n: nat, m: nat)
    requires NeverMore(log, n) && n <= m
    ensures NeverMore(log, m)
  {
  }

  lemma NeverMoreAppend(log: seq<Event>, e: Event, n: nat)
    requires NeverMore(log, n) && |Claims(log + [e])| - Settles(log + [e]) <= n
    ensures NeverMore(log + [e], n)
  {
    hide Claims, Settles;
    forall k | 0 <= k <= |log + [e]| ensures |Claims((log + [e])[..k])| - Settles((log + [e])[..k]) <= n {
      assert (log + [e])[..k] == if k <= |log| then log[..k] else log + [e];
    }
  }

  lemma NeverMoreStep(pool: Pool, w: nat, outcome: Outcome, n: nat)
    requires Inv(pool) && Active(pool, w) && |pool.workers| <= n && NeverMore(pool.log, n)
    ensures NeverMore(Advance(pool, w, outcome).log, n)
  {
    var after := Advance(pool, w, outcome);
    AdvanceInv(pool, w, outcome);
    InFlightBound(after);
    assert |after.workers| == |pool.workers|;
    if after.log != pool.log {
      var e := after.log[|pool.log|];
      assert after.log == pool.log + [e];
      hide *;
      NeverMoreAppend(pool.log, e, n);
    }
  }

  /** The shared variables and the workers' promises. */
  class SharedPool {
    const tasks: nat
    var nextIdx: nat
    var failed: bool
    var workers: seq<Worker>
    ghost var log: seq<Event>

    ghost function State(): Pool
      reads this
    {
      Pool(tasks, nextIdx, failed, workers, log)
    }

    constructor (tasks: nat, concurrency: int)
      ensures State() == Start(tasks, concurrency)
    {
      this.tasks := tasks;
      nextIdx, failed, log := 0, false, [];
      workers := seq(Width(tasks, concurrency), _ => Ready);
    }

    /** One stretch of `worker`, from where it last awaited to the next await. */
    method Run(w: nat, outcome: Outcome)
      requires Active(State(), w)
      modifies this
      ensures State() == Advance(old(State()), w, outcome)
    {
      if workers[w].Running? {
        var idx := workers[w].idx;
        log := log + [Settle(w, idx, outcome)];
        if outcome.Threw? {
          failed := true;
          workers := workers[w := Rejected(idx, outcome.reason)];
        } else {
          workers := workers[w := Ready];
        }
      } else if !failed && nextIdx < tasks {
        var idx := nextIdx;
        nextIdx := nextIdx + 1;
        log := log + [Claim(w, idx)];
        workers := workers[w := Running(idx)];
      } else {
        workers := workers[w := Finished];
      }
    }
  }

  /** The pool under any schedule: which worker goes on, and how its task settled, is arbitrary. */
  method RunPool(tasks: nat, concurrency: int) returns (pool: SharedPool, error: Option<string>)
    ensures fresh(pool) && pool.tasks == tasks && IsMinimum(|pool.workers|, tasks, concurrency)
    ensures Inv(pool.State()) && Settled(pool.State())
    ensures PoolDone(tasks, concurrency, pool.State(), error)
    ensures NeverMore(pool.log, tasks) && (concurrency >= 0 ==> NeverMore(pool.log, concurrency))
  {
    WidthIsMinimum(tasks, concurrency);
    ghost var width := Width(tasks, concurrency);
    hide Inv, Remaining, PoolDone, NeverMore, Width;
    pool := new SharedPool(tasks, concurrency);
    StartInv(tasks, concurrency);
    NothingMore(width);
    while exists w :: 0 <= w < |pool.workers| && (pool.workers[w].Ready? || pool.workers[w].Running?)
      invariant fresh(pool) && pool.tasks == tasks && |pool.workers| == width
      invariant Inv(pool.State()) && NeverMore(pool.log, width)
      decreases Remaining(pool.State())
    {
      var w :| 0 <= w < |pool.workers| && (pool.workers[w].Ready? || pool.workers[w].Running?);
      var outcome: Outcome := *;
      AdvanceInv(pool.State(), w, outcome);
      AdvanceProgress(pool.State(), w, outcome);
      NeverMoreStep(pool.State(), w, outcome, width);
      pool.Run(w, outcome);
    }
    NeverMoreThan(pool.log, width, tasks);
    if concurrency >= 0 {
      NeverMoreThan(pool.log, width, concurrency);
    }
    error := FirstFailure(pool.workers);
    SettledPool(tasks, concurrency, pool.State());
  }
}
