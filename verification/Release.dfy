/**
  The checkpointed release flow: which steps a release has, what the commands do to the
  list of completed steps, and the drivers `run` and `next`.  Handlers are arbitrary: given
  the handlers started so far, an oracle says whether the last one succeeds.
 */
module Release {
  import opened Wrappers

  datatype ReleaseType = Major | Minor | Patch

  /** `Unknown` is any text in a checkpoint that names no step. */
  datatype Step =
    | Preflight
    | PreparePatchBranch | CherryPickPrs | MergeCherryPickPr
    | PrepareReleaseBranch
    | UpdateVersionTags | MergeVersionPr
    | PublishImages
    | CreateSdkTag | PublishSdks | CreateKfpKubernetesDocsBranch | ConfirmRtd | CreateSdkRelease
    | CreateBackendRelease | SyncMaster | ConfirmWebsiteAndSlack
    | Unknown(text: string)

  function BranchSteps(releaseType: ReleaseType): seq<Step> {
    if releaseType == Patch then [PreparePatchBranch, CherryPickPrs, MergeCherryPickPr] else [PrepareReleaseBranch]
  }

  function SdkSteps(sdk: bool): seq<Step> {
    if sdk then [CreateSdkTag, PublishSdks, CreateKfpKubernetesDocsBranch, ConfirmRtd, CreateSdkRelease] else []
  }

  function BackendSteps(backend: bool): seq<Step> {
    if backend then [CreateBackendRelease, SyncMaster, ConfirmWebsiteAndSlack] else []
  }

  function BuildSteps(releaseType: ReleaseType, backend: bool, sdk: bool): seq<Step> {
    [Preflight] + BranchSteps(releaseType) + [UpdateVersionTags, MergeVersionPr]
    + (if backend then [PublishImages] else []) + SdkSteps(sdk) + BackendSteps(backend)
  }

  ghost predicate Distinct(steps: seq<Step>) {
    forall i, j :: 0 <= i < j < |steps| ==> steps[i] != steps[j]
  }

  function Rank(s: Step): nat {
    match s
    case Preflight => 0
    case PreparePatchBranch => 1
    case CherryPickPrs => 2
    case MergeCherryPickPr => 3
    case PrepareReleaseBranch => 4
    case UpdateVersionTags => 5
    case MergeVersionPr => 6
    case PublishImages => 7
    case CreateSdkTag => 8
    case PublishSdks => 9
    case CreateKfpKubernetesDocsBranch => 10
    case ConfirmRtd => 11
    case CreateSdkRelease => 12
    case CreateBackendRelease => 13
    case SyncMaster => 14
    case ConfirmWebsiteAndSlack => 15
    case Unknown(_) => 16
  }

  /** The ranks ascend, from `low` on and below `high`. */
  ghost predicate Ascending(steps: seq<Step>, low: nat, high: nat) {
    && (forall i :: 0 <= i < |steps| ==> low <= Rank(steps[i]) < high)
    && (forall i, j :: 0 <= i < j < |steps| ==> Rank(steps[i]) < Rank(steps[j]))
  }

  lemma AscendingAppend(a: seq<Step>, low: nat, middle: nat, b: seq<Step>, high: nat)
    requires low <= middle <= high && Ascending(a, low, middle) && Ascending(b, middle, high)
    ensures Ascending(a + b, low, high)
  {
  }

  lemma PiecesAscend(releaseType: ReleaseType, backend: bool, sdk: bool)
    ensures Ascending(BranchSteps(releaseType), 1, 5)
    ensures Ascending(SdkSteps(sdk), 8, 13)
    ensures Ascending(BackendSteps(backend), 13, 16)
  {
    SdkAscends(sdk);
  }

  lemma SdkAscends(sdk: bool)
    ensures Ascending(SdkSteps(sdk), 8, 13)
  {
  }

  lemma RanksAscend(steps: seq<Step>, low: nat, high: nat)
    requires Ascending(steps, low, high)
    ensures forall i, j :: 0 <= i < j < |steps| ==> Rank(steps[i]) < Rank(steps[j])
  {
  }

  lemma AscendingDistinct(steps: seq<Step>, low: nat, high: nat)
    requires Ascending(steps, low, high)
    ensures Distinct(steps)
  {
  }

  lemma StepsDistinct(releaseType: ReleaseType, backend: bool, sdk: bool)
    ensures Distinct(BuildSteps(releaseType, backend, sdk))
  {
    hide *;
    StepsAscend(releaseType, backend, sdk);
    AscendingDistinct(BuildSteps(releaseType, backend, sdk), 0, 16);
  }

  lemma StepsAscend(releaseType: ReleaseType, backend: bool, sdk: bool)
    ensures Ascending(BuildSteps(releaseType, backend, sdk), 0, 16)
    ensures forall i, j :: 0 <= i < j < |BuildSteps(releaseType, backend, sdk)| ==>
              Rank(BuildSteps(releaseType, backend, sdk)[i]) < Rank(BuildSteps(releaseType, backend, sdk)[j])
  {
    var a, b, c := [Preflight], BranchSteps(releaseType), [UpdateVersionTags, MergeVersionPr];
    var d := if backend then [PublishImages] else [];
    var e, f := SdkSteps(sdk), BackendSteps(backend);
    assert BuildSteps(releaseType, backend, sdk) == a + b + c + d + e + f;
    assert Ascending(a, 0, 1) && Ascending(c, 5, 7) && Ascending(d, 7, 8);
    PiecesAscend(releaseType, backend, sdk);
    hide *;
    AscendingAppend(a, 0, 1, b, 5);
    AscendingAppend(a + b, 0, 5, c, 7);
    AscendingAppend(a + b + c, 0, 7, d, 8);
    AscendingAppend(a + b + c + d, 0, 8, e, 13);
    AscendingAppend(a + b + c + d + e, 0, 13, f, 16);
    RanksAscend(a + b + c + d + e + f, 0, 16);
  }

  /** The step belongs to this kind of release. */
  ghost predicate Needed(s: Step, releaseType: ReleaseType, backend: bool, sdk: bool) {
    match s
    case Preflight | UpdateVersionTags | MergeVersionPr => true
    case PreparePatchBranch | CherryPickPrs | MergeCherryPickPr => releaseType == Patch
    case PrepareReleaseBranch => releaseType != Patch
    case PublishImages | CreateBackendRelease | SyncMaster | ConfirmWebsiteAndSlack => backend
    case CreateSdkTag | PublishSdks | CreateKfpKubernetesDocsBranch | ConfirmRtd | CreateSdkRelease => sdk
    case Unknown(_) => false
  }

  /** The order of the steps in the flows that have them all. */
  const PATCH_FLOW: seq<Step> :=
    [Preflight, PreparePatchBranch, CherryPickPrs, MergeCherryPickPr, UpdateVersionTags, MergeVersionPr,
     PublishImages, CreateSdkTag, PublishSdks, CreateKfpKubernetesDocsBranch, ConfirmRtd, CreateSdkRelease,
     CreateBackendRelease, SyncMaster, ConfirmWebsiteAndSlack]

  const OTHER_FLOW: seq<Step> :=
    [Preflight, PrepareReleaseBranch, UpdateVersionTags, MergeVersionPr,
     PublishImages, CreateSdkTag, PublishSdks, CreateKfpKubernetesDocsBranch, ConfirmRtd, CreateSdkRelease,
     CreateBackendRelease, SyncMaster, ConfirmWebsiteAndSlack]

  /** The flows that have all their steps, in order. */
  lemma FlowsSpelled()
    ensures BuildSteps(Patch, true, true) == PATCH_FLOW
    ensures BuildSteps(Minor, true, true) == OTHER_FLOW && BuildSteps(Major, true, true) == OTHER_FLOW
  {
  }

  /** A release has exactly the steps it needs, and in every release they come in the same order. */
  lemma StepsExactly(releaseType: ReleaseType, backend: bool, sdk: bool)
    ensures var steps := BuildSteps(releaseType, backend, sdk);
            && (forall s :: s in steps <==> Needed(s, releaseType, backend, sdk))
            && (forall i, j :: 0 <= i < j < |steps| ==> Rank(steps[i]) < Rank(steps[j]))
  {
    hide *;
    forall s ensures s in BuildSteps(releaseType, backend, sdk) <==> Needed(s, releaseType, backend, sdk) {
      StepsNeeded(releaseType, backend, sdk, s);
    }
    StepsAscend(releaseType, backend, sdk);
  }

  lemma StepsNeeded(releaseType: ReleaseType, backend: bool, sdk: bool, s: Step)
    ensures s in BuildSteps(releaseType, backend, sdk) <==> Needed(s, releaseType, backend, sdk)
  {
    BuildMember(releaseType, backend, sdk, s);
    BranchMember(releaseType, s);
    SdkMember(sdk, s);
    BackendMember(backend, s);
    hide BuildSteps, BranchSteps, SdkSteps, BackendSteps;
  }

  lemma BuildMember(releaseType: ReleaseType, backend: bool, sdk: bool, s: Step)
    ensures s in BuildSteps(releaseType, backend, sdk) <==>
            || s.Preflight? || s in BranchSteps(releaseType) || s.UpdateVersionTags? || s.MergeVersionPr?
            || (backend && s.PublishImages?) || s in SdkSteps(sdk) || s in BackendSteps(backend)
  {
    hide BranchSteps, SdkSteps, BackendSteps;
  }

  lemma BranchMember(releaseType: ReleaseType, s: Step)
    ensures s in BranchSteps(releaseType) <==>
            if releaseType == Patch then s.PreparePatchBranch? || s.CherryPickPrs? || s.MergeCherryPickPr?
            else s.PrepareReleaseBranch?
  {
  }

  lemma SdkMember(sdk: bool, s: Step)
    ensures s in SdkSteps(sdk) <==>
            sdk && (s.CreateSdkTag? || s.PublishSdks? || s.CreateKfpKubernetesDocsBranch? || s.ConfirmRtd?
                    || s.CreateSdkRelease?)
  {
  }

  lemma BackendMember(backend: bool, s: Step)
    ensures s in BackendSteps(backend) <==>
            backend && (s.CreateBackendRelease? || s.SyncMaster? || s.ConfirmWebsiteAndSlack?)
  {
  }

  /** Whether the handler started last succeeds. */
  type Handlers = seq<Step> -> bool

  /** The checkpoint on disk, all handlers started so far, and whether the driver ended without an error. */
  datatype Flow = Flow(completed: seq<Step>, trace: seq<Step>, ok: bool)

  /* ---- What the commands mean ---- */

  function MarkDone(completed: seq<Step>, s: Step): seq<Step> {
    if s in completed then completed else completed + [s]
  }

  function ResetStep(completed: seq<Step>, s: Step): seq<Step> {
    if completed == [] then []
    else (if completed[0] != s then [completed[0]] else []) + ResetStep(completed[1..], s)
  }

  /** `validate_state`: every completed step belongs to this flow. */
  predicate Validates(steps: seq<Step>, completed: seq<Step>) {
    forall s :: s in completed ==> s in steps
  }

  function RunFrom(steps: seq<Step>, completed: seq<Step>, trace: seq<Step>, h: Handlers): Flow {
    if steps == [] then Flow(completed, trace, true)
    else if steps[0] in completed then RunFrom(steps[1..], completed, trace, h)
    else
      var t := trace + [steps[0]];
      if h(t) then RunFrom(steps[1..], MarkDone(completed, steps[0]), t, h) else Flow(completed, t, false)
  }

  function NextStep(steps: seq<Step>, completed: seq<Step>): (r: Option<Step>)
    ensures r.Some? ==> r.value in steps && r.value !in completed
  {
    if steps == [] then None
    else if steps[0] in completed then NextStep(steps[1..], completed)
    else Some(steps[0])
  }

  /** One `next` command. */
  function NextOnce(steps: seq<Step>, completed: seq<Step>, trace: seq<Step>, h: Handlers): Flow {
    if !Validates(steps, completed) then Flow(completed, trace, false)
    else
      var s := NextStep(steps, completed);
      if s.None? then Flow(completed, trace, true)
      else
        var t := trace + [s.value];
        if h(t) then Flow(MarkDone(completed, s.value), t, true) else Flow(completed, t, false)
  }

  ghost function Open(steps: seq<Step>, completed: seq<Step>): set<Step> {
    set s | s in steps && s !in completed
  }

  /** `next` over and over, until nothing is pending or a command fails. */
  ghost function NextAll(steps: seq<Step>, completed: seq<Step>, trace: seq<Step>, h: Handlers): Flow
    decreases |Open(steps, completed)|
  {
    var f := NextOnce(steps, completed, trace, h);
    if !f.ok || NextStep(steps, completed).None? then f
    else
      NextShrinks(steps, completed);
      NextAll(steps, f.completed, f.trace, h)
  }

  lemma NextShrinks(steps: seq<Step>, completed: seq<Step>)
    requires NextStep(steps, completed).Some?
    ensures |Open(steps, MarkDone(completed, NextStep(steps, completed).value))| < |Open(steps, completed)|
  {
    var s := NextStep(steps, completed).value;
    assert Open(steps, MarkDone(completed, s)) == Open(steps, completed) - {s};
  }

  function Position(steps: seq<Step>, s: Step): (i: nat)
    requires s in steps
    ensures i < |steps| && steps[i] == s && s !in steps[..i]
  {
    if steps[0] == s then 0 else 1 + Position(steps[1..], s)
  }

  /** `goto`: everything before the step is complete and nothing else. */
  function Goto(steps: seq<Step>, completed: seq<Step>, s: Step): Option<seq<Step>> {
    if !Validates(steps, completed) || s !in steps then None else Some(steps[..Position(steps, s)])
  }

  /* ---- The two drivers ---- */

  /** Steps that are complete already are passed over. */
  lemma {:induction false} SkipsCompleted(steps: seq<Step>, n: nat, completed: seq<Step>, trace: seq<Step>, h: Handlers)
    requires n <= |steps| && forall i :: 0 <= i < n ==> steps[i] in completed
    ensures RunFrom(steps, completed, trace, h) == RunFrom(steps[n..], completed, trace, h)
  {
    if n > 0 {
      SkipsCompleted(steps[1..], n - 1, completed, trace, h);
      assert steps[1..][n - 1..] == steps[n..];
    } else {
      assert steps[0..] == steps;
    }
  }

  lemma {:induction false} NextPosition(steps: seq<Step>, completed: seq<Step>)
    requires NextStep(steps, completed).Some?
    ensures var s := NextStep(steps, completed).value;
            forall i :: 0 <= i < Position(steps, s) ==> steps[i] in completed
  {
    if steps[0] in completed {
      NextPosition(steps[1..], completed);
    }
  }

  lemma {:induction false} NothingPending(steps: seq<Step>, completed: seq<Step>)
    ensures NextStep(steps, completed).None? <==> forall s :: s in steps ==> s in completed
  {
    if steps != [] {
      NothingPending(steps[1..], completed);
      assert forall s :: s in steps <==> s == steps[0] || s in steps[1..];
    }
  }

  /** On a valid checkpoint `next` over and over does what one `run` does. */
  lemma {:induction false} NextAllIsRun(steps: seq<Step>, completed: seq<Step>, trace: seq<Step>, h: Handlers)
    requires Validates(steps, completed)
    ensures NextAll(steps, completed, trace, h) == RunFrom(steps, completed, trace, h)
    decreases |Open(steps, completed)|
  {
    if NextStep(steps, completed).None? {
      NothingPending(steps, completed);
      SkipsCompleted(steps, |steps|, completed, trace, h);
    } else {
      var s := NextStep(steps, completed).value;
      var i := Position(steps, s);
      NextPosition(steps, completed);
      SkipsCompleted(steps, i, completed, trace, h);
      var t := trace + [s];
      if h(t) {
        NextShrinks(steps, completed);
        var after := MarkDone(completed, s);
        NextAllIsRun(steps, after, t, h);
        SkipsCompleted(steps, i + 1, after, t, h);
        assert steps[i..][1..] == steps[i + 1..];
      }
    }
  }

  /** The two drivers have the same effect exactly when the checkpoint is valid or nothing is pending. */
  lemma DriversAgreeExactly(steps: seq<Step>, completed: seq<Step>, trace: seq<Step>, h: Handlers)
    ensures (var f, g := NextAll(steps, completed, trace, h), RunFrom(steps, completed, trace, h);
             f.trace == g.trace && f.completed == g.completed)
            <==> Validates(steps, completed) || NextStep(steps, completed).None?
  {
    if Validates(steps, completed) {
      NextAllIsRun(steps, completed, trace, h);
    } else if NextStep(steps, completed).None? {
      NothingPending(steps, completed);
      SkipsCompleted(steps, |steps|, completed, trace, h);
    } else {
      NextPosition(steps, completed);
      var i := Position(steps, NextStep(steps, completed).value);
      SkipsCompleted(steps, i, completed, trace, h);
      RunTraceGrows(steps[i + 1..], MarkDone(completed, steps[i]), trace + [steps[i]], h);
      assert steps[i..][1..] == steps[i + 1..];
    }
  }

  lemma {:induction false} RunTraceGrows(steps: seq<Step>, completed: seq<Step>, trace: seq<Step>, h: Handlers)
    ensures trace <= RunFrom(steps, completed, trace, h).trace
  {
    if steps != [] {
      RunTraceGrows(steps[1..], completed, trace, h);
      RunTraceGrows(steps[1..], MarkDone(completed, steps[0]), trace + [steps[0]], h);
    }
  }

  /* ---- Every checkpoint the commands can leave ---- */

  datatype Command = RunIt | NextIt | DoneIt(step: Step) | ResetIt(step: Step) | GotoIt(step: Step)

  function Apply(steps: seq<Step>, f: Flow, c: Command, h: Handlers): Flow {
    match c
    case RunIt => RunFrom(steps, f.completed, f.trace, h)
    case NextIt => NextOnce(steps, f.completed, f.trace, h)
    case DoneIt(s) => f.(completed := MarkDone(f.completed, s))
    case ResetIt(s) => f.(completed := ResetStep(f.completed, s))
    case GotoIt(s) =>
      var g := Goto(steps, f.completed, s);
      if g.Some? then f.(completed := g.value) else f
  }

  function ApplyAll(steps: seq<Step>, f: Flow, commands: seq<Command>, h: Handlers): Flow
    decreases |commands|
  {
    if commands == [] then f else ApplyAll(steps, Apply(steps, f, commands[0], h), commands[1..], h)
  }

  lemma {:induction false} RunKeepsValid(steps: seq<Step>, i: nat, completed: seq<Step>, trace: seq<Step>, h: Handlers)
    requires i <= |steps| && Validates(steps, completed)
    ensures Validates(steps, RunFrom(steps[i..], completed, trace, h).completed)
    decreases |steps| - i
  {
    if i < |steps| {
      assert steps[i..][1..] == steps[i + 1..];
      RunKeepsValid(steps, i + 1, completed, trace, h);
      RunKeepsValid(steps, i + 1, MarkDone(completed, steps[i]), trace + [steps[i]], h);
    }
  }

  lemma ApplyKeepsValid(steps: seq<Step>, f: Flow, c: Command, h: Handlers)
    requires Validates(steps, f.completed) && (c.DoneIt? ==> c.step in steps)
    ensures Validates(steps, Apply(steps, f, c, h).completed)
  {
    match c
    case RunIt =>
      RunKeepsValid(steps, 0, f.completed, f.trace, h);
      assert steps[0..] == steps;
    case ResetIt(s) => ResetUndoesDone(f.completed, s);
    case _ =>
  }

  /** However the commands are mixed, as long as `done` names steps of this flow the two drivers agree. */
  lemma {:induction false} ReachableDriversAgree(steps: seq<Step>, f: Flow, commands: seq<Command>, h: Handlers)
    requires Validates(steps, f.completed)
    requires forall c :: c in commands && c.DoneIt? ==> c.step in steps
    ensures var g := ApplyAll(steps, f, commands, h);
            && Validates(steps, g.completed)
            && NextAll(steps, g.completed, g.trace, h) == RunFrom(steps, g.completed, g.trace, h)
    decreases |commands|
  {
    if commands == [] {
      NextAllIsRun(steps, f.completed, f.trace, h);
    } else {
      assert commands[0] in commands && forall c :: c in commands[1..] ==> c in commands;
      ApplyKeepsValid(steps, f, commands[0], h);
      hide Apply, NextAll, RunFrom, Validates;
      ReachableDriversAgree(steps, Apply(steps, f, commands[0], h), commands[1..], h);
    }
  }

  /** `done` can name a step of another kind of release; from there `next` refuses what `run` accepts. */
  lemma DriversDisagree(h: Handlers)
    ensures var steps := BuildSteps(Minor, true, true);
            var completed := MarkDone([], PreparePatchBranch);
            NextAll(steps, completed, [], h).trace == [] && RunFrom(steps, completed, [], h).trace != []
  {
    var steps := BuildSteps(Minor, true, true);
    var completed := MarkDone([], PreparePatchBranch);
    assert PreparePatchBranch in completed && PreparePatchBranch !in steps;
    assert steps[0] == Preflight && Preflight !in completed;
    hide BuildSteps;
    RunTraceGrows(steps[1..], MarkDone(completed, Preflight), [] + [Preflight], h);
  }

  function Pending(steps: seq<Step>, completed: seq<Step>): seq<Step> {
    if steps == [] then []
    else (if steps[0] in completed then [] else [steps[0]]) + Pending(steps[1..], completed)
  }

  /** A flow that ran the first k of these steps; all of them if it succeeded, else the last one failed. */
  ghost predicate RanFirst(f: Flow, k: nat, pending: seq<Step>, completed: seq<Step>, trace: seq<Step>) {
    && k <= |pending|
    && f.trace == trace + pending[..k]
    && (f.ok ==> k == |pending| && f.completed == completed + pending)
    && (!f.ok ==> k > 0 && f.completed == completed + pending[..k - 1])
  }

  lemma {:induction false} PendingMore(steps: seq<Step>, completed: seq<Step>, s: Step)
    requires s !in steps
    ensures Pending(steps, completed + [s]) == Pending(steps, completed)
  {
    if steps != [] {
      assert s != steps[0];
      PendingMore(steps[1..], completed, s);
    }
  }

  lemma RanOneMore(f: Flow, j: nat, s: Step, rest: seq<Step>, completed: seq<Step>, trace: seq<Step>)
    requires RanFirst(f, j, rest, completed + [s], trace + [s])
    ensures RanFirst(f, j + 1, [s] + rest, completed, trace)
  {
    var pending := [s] + rest;
    assert pending[..j + 1] == [s] + rest[..j];
    assert trace + [s] + rest[..j] == trace + pending[..j + 1];
    assert completed + [s] + rest == completed + pending;
    if j > 0 {
      assert pending[..j] == [s] + rest[..j - 1];
      assert completed + [s] + rest[..j - 1] == completed + pending[..j];
    }
  }

  /** `run` starts the pending steps in order, each once, up to the first that fails. */
  lemma {:induction false} RunRunsPending(steps: seq<Step>, completed: seq<Step>, trace: seq<Step>, h: Handlers)
    returns (k: nat)
    requires Distinct(steps)
    ensures RanFirst(RunFrom(steps, completed, trace, h), k, Pending(steps, completed), completed, trace)
  {
    var pending := Pending(steps, completed);
    if steps == [] {
      k := 0;
    } else if steps[0] in completed {
      k := RunRunsPending(steps[1..], completed, trace, h);
    } else {
      var t := trace + [steps[0]];
      assert pending[0] == steps[0] && pending[1..] == Pending(steps[1..], completed);
      if h(t) {
        PendingMore(steps[1..], completed, steps[0]);
        var j := RunRunsPending(steps[1..], completed + [steps[0]], t, h);
        k := j + 1;
        hide Pending, Distinct;
        RanOneMore(RunFrom(steps[1..], completed + [steps[0]], t, h), j, steps[0], pending[1..], completed, trace);
        assert [steps[0]] + pending[1..] == pending;
      } else {
        k := 1;
        assert pending[..1] == [steps[0]];
      }
    }
  }

  lemma {:induction false} PendingAfterPrefix(steps: seq<Step>, i: nat)
    requires Distinct(steps) && i <= |steps|
    ensures Pending(steps, steps[..i]) == steps[i..]
  {
    PendingOfSuffix(steps, i, 0);
    assert steps[0..] == steps;
  }

  lemma {:induction false} PendingOfSuffix(steps: seq<Step>, i: nat, j: nat)
    requires Distinct(steps) && j <= |steps| && i <= |steps|
    ensures Pending(steps[j..], steps[..i]) == if j < i then steps[i..] else steps[j..]
    decreases |steps| - j
  {
    if j < |steps| {
      PendingOfSuffix(steps, i, j + 1);
      assert steps[j..][1..] == steps[j + 1..];
      if j < i {
        assert steps[..i][j] == steps[j];
      } else {
        assert steps[j] !in steps[..i];
        assert steps[j..] == [steps[j]] + steps[j + 1..];
      }
    }
  }

  /** After `goto s`, `run` starts exactly the steps from s on, in order. */
  lemma GotoResumes(steps: seq<Step>, completed: seq<Step>, s: Step, h: Handlers) returns (k: nat)
    requires Distinct(steps) && Goto(steps, completed, s).Some?
    ensures var before := Goto(steps, completed, s).value;
            var i := Position(steps, s);
            && Validates(steps, before) && NextStep(steps, before) == Some(s)
            && RanFirst(RunFrom(steps, before, [], h), k, steps[i..], before, [])
            && before + steps[i..] == steps
  {
    var i := Position(steps, s);
    var before := steps[..i];
    assert before + steps[i..] == steps;
    assert Goto(steps, completed, s) == Some(before) && Validates(steps, before);
    assert steps[i..] != [] && steps[i..][0] == s;
    hide *;
    PendingAfterPrefix(steps, i);
    k := RunRunsPending(steps, before, [], h);
    FirstPending(steps, before);
  }

  lemma {:induction false} FirstPending(steps: seq<Step>, completed: seq<Step>)
    ensures Pending(steps, completed) == [] ==> NextStep(steps, completed).None?
    ensures Pending(steps, completed) != [] ==> NextStep(steps, completed) == Some(Pending(steps, completed)[0])
  {
    if steps != [] {
      FirstPending(steps[1..], completed);
    }
  }

  /** Resetting a step undoes marking it done. */
  lemma {:induction false} ResetUndoesDone(completed: seq<Step>, s: Step)
    ensures s !in ResetStep(completed, s)
    ensures s !in completed ==> ResetStep(completed, s) == completed && ResetStep(MarkDone(completed, s), s) == completed
    ensures forall x :: x != s ==> (x in ResetStep(completed, s) <==> x in completed)
  {
    if completed != [] {
      ResetUndoesDone(completed[1..], s);
      assert completed == [completed[0]] + completed[1..];
      if s !in completed {
        assert (completed + [s])[1..] == completed[1..] + [s];
      }
    } else {
      assert [s][1..] == [];
    }
  }

  lemma PrefixGrows(steps: seq<Step>, i: nat)
    requires Distinct(steps) && i < |steps|
    ensures MarkDone(steps[..i], steps[i]) == steps[..i + 1]
  {
    assert steps[i] !in steps[..i];
  }

  /* ---- The code ---- */

  /** The checkpoint in memory and its file. */
  class ReleaseState {
    var completedSteps: seq<Step>
    var file: Option<seq<Step>>
    var trace: seq<Step>   // the handlers started

    constructor (file: Option<seq<Step>>)
      ensures this.file == file && trace == [] && completedSteps == if file.Some? then file.value else []
    {
      this.file, trace := file, [];
      completedSteps := if file.Some? then file.value else [];
    }

    /** A missing file is an empty checkpoint. */
    method Load()
      modifies this`completedSteps
      ensures completedSteps == if file.Some? then file.value else []
    {
      completedSteps := if file.Some? then file.value else [];
    }

    method Save()
      modifies this`file
      ensures file == Some(completedSteps)
    {
      file := Some(completedSteps);
    }

    method MarkStepDone(s: Step)
      modifies this`completedSteps
      ensures completedSteps == MarkDone(old(completedSteps), s)
    {
      if s !in completedSteps {
        completedSteps := completedSteps + [s];
      }
    }

    method RunHandler(s: Step, h: Handlers) returns (ok: bool)
      modifies this`trace
      ensures trace == old(trace) + [s] && ok == h(trace)
    {
      trace := trace + [s];
      ok := h(trace);
    }

    /** `run`: loads and saves the checkpoint, then works through the steps. */
    method RunSteps(steps: seq<Step>, h: Handlers) returns (ok: bool)
      modifies this
      ensures var f := RunFrom(steps, if old(file).Some? then old(file).value else [], old(trace), h);
              file == Some(f.completed) && trace == f.trace && ok == f.ok
    {
      Load();
      Save();
      ghost var start := completedSteps;
      var i := 0;
      while i < |steps|
        invariant 0 <= i <= |steps|
        invariant file == Some(completedSteps)
        invariant RunFrom(steps[i..], completedSteps, trace, h) == RunFrom(steps, start, old(trace), h)
      {
        var step := steps[i];
        assert steps[i..][1..] == steps[i + 1..];
        if step !in completedSteps {
          ok := RunHandler(step, h);
          if !ok {
            return;
          }
          MarkStepDone(step);
          Save();
        }
        i := i + 1;
      }
      ok := true;
    }

    method NextCommand(steps: seq<Step>, h: Handlers) returns (ok: bool)
      modifies this
      ensures var before := if old(file).Some? then old(file).value else [];
              var f := NextOnce(steps, before, old(trace), h);
              && trace == f.trace && ok == f.ok
              && (if file.Some? then file.value else []) == f.completed
    {
      Load();
      if exists s :: s in completedSteps && s !in steps {
        return false;
      }
      ghost var start := completedSteps;
      var i := 0;
      while i < |steps| && steps[i] in completedSteps
        invariant 0 <= i <= |steps|
        invariant NextStep(steps[i..], completedSteps) == NextStep(steps, completedSteps)
      {
        assert steps[i..][1..] == steps[i + 1..];
        i := i + 1;
      }
      if i == |steps| {
        return true;
      }
      assert steps[i..][0] == steps[i];
      Save();
      ok := RunHandler(steps[i], h);
      if ok {
        MarkStepDone(steps[i]);
        Save();
      }
    }

    /** The error exits of `goto` leave the file alone. */
    method GotoCommand(steps: seq<Step>, s: Step) returns (ok: bool)
      requires Distinct(steps)
      modifies this
      ensures trace == old(trace)
      ensures var g := Goto(steps, if old(file).Some? then old(file).value else [], s);
              ok == g.Some? && file == if g.Some? then g else old(file)
    {
      Load();
      if (exists x :: x in completedSteps && x !in steps) || s !in steps {
        return false;
      }
      hide Distinct, MarkDone, Validates;
      completedSteps := [];
      var end := Position(steps, s);
      for i := 0 to end
        invariant completedSteps == steps[..i]
        invariant trace == old(trace)
      {
        PrefixGrows(steps, i);
        MarkStepDone(steps[i]);
      }
      Save();
      ok := true;
    }

    /** `done` accepts every step of any kind of release. */
    method DoneCommand(s: Step) returns (ok: bool)
      modifies this
      ensures trace == old(trace) && ok == !s.Unknown?
      ensures file == if ok then Some(MarkDone(if old(file).Some? then old(file).value else [], s)) else old(file)
    {
      if s.Unknown? {
        return false;
      }
      Load();
      MarkStepDone(s);
      Save();
      ok := true;
    }

    method ResetStepCommand(s: Step) returns (ok: bool)
      modifies this
      ensures trace == old(trace) && ok == !s.Unknown?
      ensures file == if ok then Some(ResetStep(if old(file).Some? then old(file).value else [], s)) else old(file)
    {
      if s.Unknown? {
        return false;
      }
      Load();
      completedSteps := ResetStep(completedSteps, s);
      Save();
      ok := true;
    }
  }
}
