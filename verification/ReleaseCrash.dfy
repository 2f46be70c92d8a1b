/**
  The release flow when its process can die at any moment, also in the middle of saving the
  checkpoint: the state is first written to a temporary file, which then replaces the
  checkpoint in one step.
 */
module ReleaseCrash {
  import opened Wrappers
  import opened Release

  /** The temporary file is either incomplete or holds a whole checkpoint. */
  datatype Temporary = Absent | Partial | Whole(completed: seq<Step>)

  datatype Disk = Disk(file: Option<seq<Step>>, tmp: Temporary)

  datatype Driver = Run | Next

  datatype Stage = NotWritten | HalfWritten | Written

  datatype Place =
    | SavingContext(stage: Stage)      // collect_context saves before the first step
    | Picking
    | InHandler(step: Step)
    | SavingDone(step: Step, stage: Stage)

  datatype Process = Down | Up(driver: Driver, completed: seq<Step>, place: Place)

  datatype Event = Started(step: Step) | Returned(step: Step) | Saved(step: Step) | Died

  datatype Machine = Machine(disk: Disk, process: Process, trace: seq<Event>)

  /** `Fail` is a handler's exception, an I/O error, or the death of the process. */
  datatype Action = Launch(driver: Driver) | Go | Fail

  function Content(disk: Disk): seq<Step> {
    if disk.file.Some? then disk.file.value else []
  }

  ghost predicate Enabled(m: Machine, a: Action) {
    if a.Launch? then m.process.Down? else m.process.Up?
  }

  function Write(disk: Disk, stage: Stage, completed: seq<Step>): Disk {
    match stage
    case NotWritten => disk.(tmp := Partial)
    case HalfWritten => disk.(tmp := Whole(completed))
    case Written => Disk(Some(completed), Absent)
  }

  function Later(stage: Stage): Stage {
    if stage == NotWritten then HalfWritten else Written
  }

  function Advance(steps: seq<Step>, m: Machine, a: Action): Machine
    requires Enabled(m, a)
  {
    match a
    case Launch(driver) =>
      var completed := Content(m.disk);
      if driver == Next && (!Validates(steps, completed) || NextStep(steps, completed).None?) then m
      else m.(process := Up(driver, completed, SavingContext(NotWritten)))
    case Fail => m.(process := Down, trace := m.trace + [Died])
    case Go =>
      var p := m.process;
      match p.place
      case SavingContext(stage) =>
        m.(disk := Write(m.disk, stage, p.completed),
           process := p.(place := if stage == Written then Picking else SavingContext(Later(stage))))
      case Picking =>
        var s := NextStep(steps, p.completed);
        if s.None? then m.(process := Down)
        else m.(process := p.(place := InHandler(s.value)), trace := m.trace + [Started(s.value)])
      case InHandler(s) =>
        m.(process := p.(completed := MarkDone(p.completed, s), place := SavingDone(s, NotWritten)),
           trace := m.trace + [Returned(s)])
      case SavingDone(s, stage) =>
        var disk := Write(m.disk, stage, p.completed);
        if stage != Written then m.(disk := disk, process := p.(place := SavingDone(s, Later(stage))))
        else
          m.(disk := disk,
             process := if p.driver == Next then Down else p.(place := Picking),
             trace := m.trace + [Saved(s)])
  }

  /* ---- What holds at every moment ---- */

  ghost predicate InFlow(steps: seq<Step>, content: seq<Step>, s: Step) {
    |content| < |steps| && steps[|content|] == s
  }

  /** The process holds the checkpoint of the file, one step further while it saves that step. */
  ghost predicate ProcessOk(steps: seq<Step>, m: Machine) {
    m.process.Up? ==>
      var p, content := m.process, Content(m.disk);
      match p.place
      case SavingContext(stage) =>
        p.completed == content && (stage == Written ==> m.disk.tmp == Whole(content))
      case Picking => p.completed == content
      case InHandler(s) => p.completed == content && InFlow(steps, content, s)
      case SavingDone(s, stage) =>
        && InFlow(steps, content, s) && p.completed == content + [s]
        && (stage == Written ==> m.disk.tmp == Whole(content + [s]))
  }

  function SavedSteps(trace: seq<Event>): seq<Step> {
    if trace == [] then []
    else
      var last := trace[|trace| - 1];
      SavedSteps(trace[..|trace| - 1]) + if last.Saved? then [last.step] else []
  }

  /** A handler starts only when exactly the steps before it have been saved. */
  ghost predicate StartsInOrder(steps: seq<Step>, trace: seq<Event>) {
    forall i :: 0 <= i < |trace| && trace[i].Started? ==> InFlow(steps, SavedSteps(trace[..i]), trace[i].step)
  }

  /** A handler that returned is saved next, unless the process died right then. */
  ghost predicate ReturnsSaved(trace: seq<Event>, saving: Option<Step>) {
    && (forall i :: 0 <= i < |trace| - 1 && trace[i].Returned? ==> SavedOrDied(trace[i].step, trace[i + 1]))
    && (trace != [] && trace[|trace| - 1].Returned? ==> saving == Some(trace[|trace| - 1].step))
  }

  ghost predicate SavedOrDied(s: Step, next: Event) {
    next == Saved(s) || next == Died
  }

  function Saving(process: Process): Option<Step> {
    if process.Up? && process.place.SavingDone? then Some(process.place.step) else None
  }

  ghost predicate Inv(steps: seq<Step>, m: Machine) {
    && Content(m.disk) <= steps
    && ProcessOk(steps, m)
    && SavedSteps(m.trace) == Content(m.disk)
    && StartsInOrder(steps, m.trace)
    && ReturnsSaved(m.trace, Saving(m.process))
  }

  const EMPTY := Machine(Disk(None, Absent), Down, [])

  lemma EmptyInv(steps: seq<Step>)
    ensures Inv(steps, EMPTY)
  {
  }

  lemma SavedMore(trace: seq<Event>, e: Event)
    ensures SavedSteps(trace + [e]) == SavedSteps(trace) + if e.Saved? then [e.step] else []
  {
    assert (trace + [e])[..|trace|] == trace;
  }

  lemma StartsMore(steps: seq<Step>, trace: seq<Event>, e: Event)
    requires StartsInOrder(steps, trace)
    requires e.Started? ==> InFlow(steps, SavedSteps(trace), e.step)
    ensures StartsInOrder(steps, trace + [e])
  {
    var t := trace + [e];
    forall i | 0 <= i < |t| && t[i].Started? ensures InFlow(steps, SavedSteps(t[..i]), t[i].step) {
      assert t[..i] == trace[..i];
      assert trace[..|trace|] == trace;
    }
  }

  lemma ReturnsMore(trace: seq<Event>, saving: Option<Step>, e: Event, saving': Option<Step>)
    requires ReturnsSaved(trace, saving)
    requires saving.Some? ==> SavedOrDied(saving.value, e)
    requires e.Returned? ==> saving' == Some(e.step)
    ensures ReturnsSaved(trace + [e], saving')
  {
    var t := trace + [e];
    forall i | 0 <= i < |t| - 1 && t[i].Returned? ensures SavedOrDied(t[i].step, t[i + 1]) {
      if i < |trace| - 1 {
        assert t[i] == trace[i] && t[i + 1] == trace[i + 1];
      }
    }
  }

  /** The first step that is not in a prefix of the flow. */
  lemma {:induction false} NextAfterPrefix(steps: seq<Step>, content: seq<Step>, j: nat)
    requires Distinct(steps) && content <= steps && j <= |content|
    ensures NextStep(steps[j..], content) == if |content| < |steps| then Some(steps[|content|]) else None
    decreases |content| - j
  {
    if j < |content| {
      assert content[j] == steps[j];
      NextAfterPrefix(steps, content, j + 1);
      assert steps[j..][1..] == steps[j + 1..];
    } else if j < |steps| {
      assert forall i :: 0 <= i < j ==> content[i] == steps[i] != steps[j];
      assert steps[j..][0] == steps[j];
    }
  }

  lemma PickInv(steps: seq<Step>, m: Machine)
    requires Distinct(steps) && Inv(steps, m) && m.process.Up? && m.process.place == Picking
    ensures Inv(steps, Advance(steps, m, Go))
  {
    var content := Content(m.disk);
    NextAfterPrefix(steps, content, 0);
    assert steps[0..] == steps;
    if |content| < |steps| {
      var e := Started(steps[|content|]);
      SavedMore(m.trace, e);
      StartsMore(steps, m.trace, e);
      ReturnsMore(m.trace, None, e, None);
    }
  }

  lemma FreshBehind(steps: seq<Step>, content: seq<Step>)
    requires Distinct(steps) && content <= steps && |content| < |steps|
    ensures steps[|content|] !in content
  {
    assert forall i :: 0 <= i < |content| ==> content[i] == steps[i];
  }

  lemma HandlerInv(steps: seq<Step>, m: Machine)
    requires Distinct(steps) && Inv(steps, m) && m.process.Up? && m.process.place.InHandler?
    ensures Inv(steps, Advance(steps, m, Go))
  {
    var content, s := Content(m.disk), m.process.place.step;
    FreshBehind(steps, content);
    hide Distinct, StartsInOrder, ReturnsSaved, SavedSteps;
    SavedMore(m.trace, Returned(s));
    StartsMore(steps, m.trace, Returned(s));
    ReturnsMore(m.trace, None, Returned(s), Some(s));
  }

  lemma SaveInv(steps: seq<Step>, m: Machine)
    requires Distinct(steps) && Inv(steps, m) && m.process.Up? && m.process.place.SavingDone?
    ensures Inv(steps, Advance(steps, m, Go))
  {
    var content, s := Content(m.disk), m.process.place.step;
    if m.process.place.stage == Written {
      SavedMore(m.trace, Saved(s));
      StartsMore(steps, m.trace, Saved(s));
      ReturnsMore(m.trace, Some(s), Saved(s), None);
      assert content + [s] <= steps;
    }
  }

  lemma StepInv(steps: seq<Step>, m: Machine, a: Action)
    requires Distinct(steps) && Inv(steps, m) && Enabled(m, a)
    ensures Inv(steps, Advance(steps, m, a))
  {
    match a
    case Launch(_) =>
    case Fail =>
      SavedMore(m.trace, Died);
      StartsMore(steps, m.trace, Died);
      ReturnsMore(m.trace, Saving(m.process), Died, None);
    case Go =>
      match m.process.place
      case SavingContext(_) =>
      case Picking => PickInv(steps, m);
      case InHandler(_) => HandlerInv(steps, m);
      case SavingDone(_, _) => SaveInv(steps, m);
  }

  /** The file changes only by replacing a whole checkpoint by the next whole one. */
  lemma SaveIsAtomic(steps: seq<Step>, m: Machine, a: Action)
    requires Distinct(steps) && Inv(steps, m) && Enabled(m, a)
    ensures var m' := Advance(steps, m, a);
            && (m'.disk.file != m.disk.file ==> m.disk.tmp == Whole(Content(m'.disk)))
            && (Content(m'.disk) == Content(m.disk)
                || (m.process.Up? && m.process.place.SavingDone?
                    && Content(m'.disk) == Content(m.disk) + [m.process.place.step]))
  {
  }

  /* ---- Whole histories ---- */

  ghost predicate CanRun(steps: seq<Step>, m: Machine, actions: seq<Action>)
    decreases |actions|
  {
    actions == [] || (Enabled(m, actions[0]) && CanRun(steps, Advance(steps, m, actions[0]), actions[1..]))
  }

  ghost function After(steps: seq<Step>, m: Machine, actions: seq<Action>): Machine
    requires CanRun(steps, m, actions)
    decreases |actions|
  {
    if actions == [] then m else After(steps, Advance(steps, m, actions[0]), actions[1..])
  }

  lemma {:induction false} RunInv(steps: seq<Step>, m: Machine, actions: seq<Action>)
    requires Distinct(steps) && Inv(steps, m) && CanRun(steps, m, actions)
    ensures Inv(steps, After(steps, m, actions))
    decreases |actions|
  {
    if actions != [] {
      StepInv(steps, m, actions[0]);
      RunInv(steps, Advance(steps, m, actions[0]), actions[1..]);
    }
  }

  lemma {:induction false} SavedPrefix(trace: seq<Event>, i: nat)
    requires i <= |trace|
    ensures SavedSteps(trace[..i]) <= SavedSteps(trace)
    decreases |trace| - i
  {
    if i < |trace| {
      SavedPrefix(trace, i + 1);
      assert trace[..i + 1][..i] == trace[..i];
    } else {
      assert trace[..i] == trace;
    }
  }

  lemma SavedMember(trace: seq<Event>, i: nat)
    requires i < |trace| && trace[i].Saved?
    ensures trace[i].step in SavedSteps(trace[..i + 1])
  {
    assert trace[..i + 1][..i] == trace[..i];
  }

  /** A step whose checkpoint was saved never starts again. */
  lemma SavedNeverRestarts(steps: seq<Step>, trace: seq<Event>, i: nat, j: nat)
    requires Distinct(steps) && StartsInOrder(steps, trace) && SavedSteps(trace) <= steps
    requires i < j < |trace| && trace[i].Saved? && trace[j].Started?
    ensures trace[i].step != trace[j].step
  {
    var before := SavedSteps(trace[..j]);
    SavedMember(trace, i);
    assert trace[..j][..i + 1] == trace[..i + 1];
    SavedPrefix(trace[..j], i + 1);
    SavedPrefix(trace, j);
    assert trace[i].step in before;
    assert forall k :: 0 <= k < |before| ==> before[k] == steps[k];
  }

  /** A handler that returned at i starts again at j. */
  ghost predicate Reruns(trace: seq<Event>, i: int, j: int) {
    && 0 <= i < j < |trace|
    && trace[i].Returned? && trace[j].Started?
    && trace[i].step == trace[j].step
  }

  /**
    Any number of `run` and `next` commands, dying anywhere: the checkpoint is a prefix of
    the flow, a handler starts only when exactly its predecessors are saved, and a handler
    that returned starts again only if the process died between its return and the save.
   */
  lemma CrashSafe(steps: seq<Step>, actions: seq<Action>)
    requires Distinct(steps) && CanRun(steps, EMPTY, actions)
    ensures var m := After(steps, EMPTY, actions);
            && Content(m.disk) <= steps && SavedSteps(m.trace) == Content(m.disk)
            && StartsInOrder(steps, m.trace)
            && forall i, j :: Reruns(m.trace, i, j) ==> m.trace[i + 1] == Died
  {
    EmptyInv(steps);
    RunInv(steps, EMPTY, actions);
    var m := After(steps, EMPTY, actions);
    forall i, j | Reruns(m.trace, i, j)
      ensures m.trace[i + 1] == Died
    {
      assert SavedOrDied(m.trace[i].step, m.trace[i + 1]);
      if m.trace[i + 1] == Saved(m.trace[i].step) && i + 1 < j {
        SavedNeverRestarts(steps, m.trace, i + 1, j);
      }
    }
  }

  /* ---- Without a crash, the process does what the loop of `run` says ---- */

  function StartedSteps(trace: seq<Event>): seq<Step> {
    if trace == [] then []
    else
      var last := trace[|trace| - 1];
      StartedSteps(trace[..|trace| - 1]) + if last.Started? then [last.step] else []
  }

  lemma StartedMore(trace: seq<Event>, e: Event)
    ensures StartedSteps(trace + [e]) == StartedSteps(trace) + if e.Started? then [e.step] else []
  {
    assert (trace + [e])[..|trace|] == trace;
  }

  lemma RunCons(steps: seq<Step>, m: Machine, a: Action, rest: seq<Action>)
    requires Enabled(m, a) && CanRun(steps, Advance(steps, m, a), rest)
    ensures CanRun(steps, m, [a] + rest)
    ensures After(steps, m, [a] + rest) == After(steps, Advance(steps, m, a), rest)
  {
    assert ([a] + rest)[1..] == rest;
  }

  lemma PicksNext(steps: seq<Step>, content: seq<Step>)
    requires Distinct(steps) && content <= steps && |content| < |steps|
    ensures NextStep(steps, content) == Some(steps[|content|]) && steps[|content|] !in content
  {
    NextAfterPrefix(steps, content, 0);
    assert steps[0..] == steps;
  }

  /** The loop of `run` at the first step that is not complete. */
  lemma LoopAt(steps: seq<Step>, content: seq<Step>, trace: seq<Step>, h: Handlers)
    requires Distinct(steps) && content <= steps
    ensures |content| == |steps| ==> RunFrom(steps, content, trace, h) == Flow(content, trace, true)
    ensures |content| < |steps| ==>
              var t := trace + [steps[|content|]];
              RunFrom(steps, content, trace, h) ==
                if h(t) then RunFrom(steps, content + [steps[|content|]], t, h) else Flow(content, t, false)
  {
    var n := |content|;
    assert forall i :: 0 <= i < n ==> steps[i] == content[i];
    SkipsCompleted(steps, n, content, trace, h);
    if n < |steps| {
      var s := steps[n];
      PicksNext(steps, content);
      assert steps[n..][1..] == steps[n + 1..];
      assert forall i :: 0 <= i < n + 1 ==> steps[i] == (content + [s])[i];
      SkipsCompleted(steps, n + 1, content + [s], trace + [s], h);
    }
  }

  /** What the handlers of `h` make of the process: it fails only where a handler fails. */
  ghost predicate Follows(m: Machine, a: Action, h: Handlers)
    requires m.process.Up?
  {
    a == if m.process.place.InHandler? && !h(StartedSteps(m.trace)) then Fail else Go
  }

  /** The driver's process goes on without interruption until it ends. */
  ghost predicate Uninterrupted(steps: seq<Step>, m: Machine, actions: seq<Action>, h: Handlers)
    decreases |actions|
  {
    if actions == [] then m.process.Down?
    else
      && m.process.Up? && Follows(m, actions[0], h)
      && Uninterrupted(steps, Advance(steps, m, actions[0]), actions[1..], h)
  }

  /** What `run` and `next` do from here on, read off the checkpoint and the handlers started. */
  ghost function Remainder(steps: seq<Step>, driver: Driver, completed: seq<Step>, started: seq<Step>, h: Handlers)
    : Flow
  {
    if driver == Run then RunFrom(steps, completed, started, h) else NextOnce(steps, completed, started, h)
  }

  /** Where a process that is not interrupted will end. */
  ghost function Expected(steps: seq<Step>, m: Machine, h: Handlers): Flow {
    var content, started := Content(m.disk), StartedSteps(m.trace);
    if m.process.Down? then Flow(content, started, true)
    else
      var p := m.process;
      match p.place
      case SavingContext(_) => Remainder(steps, p.driver, content, started, h)
      case Picking => Remainder(steps, p.driver, content, started, h)
      case InHandler(s) =>
        if !h(started) then Flow(content, started, false)
        else if p.driver == Run then RunFrom(steps, content + [s], started, h)
        else Flow(content + [s], started, true)
      case SavingDone(s, _) =>
        if p.driver == Run then RunFrom(steps, content + [s], started, h)
        else Flow(content + [s], started, true)
  }

  ghost predicate SameEnd(f: Flow, g: Flow) {
    f.completed == g.completed && f.trace == g.trace
  }

  lemma {:induction false} PrefixValid(steps: seq<Step>, content: seq<Step>)
    requires content <= steps
    ensures Validates(steps, content)
  {
    assert forall i :: 0 <= i < |content| ==> content[i] == steps[i];
  }

  /** What is left to do at the first step that is not complete. */
  lemma RemainderAt(steps: seq<Step>, driver: Driver, content: seq<Step>, started: seq<Step>, h: Handlers)
    requires Distinct(steps) && content <= steps
    ensures NextStep(steps, content) == if |content| < |steps| then Some(steps[|content|]) else None
    ensures |content| == |steps| ==> SameEnd(Remainder(steps, driver, content, started, h), Flow(content, started, true))
    ensures |content| < |steps| ==>
              var s := steps[|content|];
              SameEnd(Remainder(steps, driver, content, started, h),
                      if !h(started + [s]) then Flow(content, started + [s], false)
                      else if driver == Run then RunFrom(steps, content + [s], started + [s], h)
                      else Flow(content + [s], started + [s], true))
  {
    PrefixValid(steps, content);
    NextAfterPrefix(steps, content, 0);
    assert steps[0..] == steps;
    LoopAt(steps, content, started, h);
    hide RunFrom, Distinct;
  }

  lemma PickExpected(steps: seq<Step>, m: Machine, h: Handlers)
    requires Distinct(steps) && Inv(steps, m) && m.process.Up? && m.process.place == Picking
    ensures SameEnd(Expected(steps, Advance(steps, m, Go), h), Expected(steps, m, h))
  {
    var content, started := Content(m.disk), StartedSteps(m.trace);
    RemainderAt(steps, m.process.driver, content, started, h);
    hide RunFrom, NextStep, NextOnce, Remainder, StartedSteps, Distinct, Inv;
    if |content| < |steps| {
      var s, r := steps[|content|], Advance(steps, m, Go);
      StartedMore(m.trace, Started(s));
      assert r.process.place == InHandler(s) && Content(r.disk) == content;
    }
  }

  lemma HandlerExpected(steps: seq<Step>, m: Machine, h: Handlers)
    requires Inv(steps, m) && m.process.Up? && m.process.place.InHandler?
    requires h(StartedSteps(m.trace))
    ensures SameEnd(Expected(steps, Advance(steps, m, Go), h), Expected(steps, m, h))
  {
    var s, r := m.process.place.step, Advance(steps, m, Go);
    StartedMore(m.trace, Returned(s));
    assert StartedSteps(r.trace) == StartedSteps(m.trace);
    hide RunFrom, StartedSteps, Inv;
  }

  lemma SaveExpected(steps: seq<Step>, m: Machine, h: Handlers)
    requires Inv(steps, m) && m.process.Up? && m.process.place.SavingDone?
    ensures SameEnd(Expected(steps, Advance(steps, m, Go), h), Expected(steps, m, h))
  {
    var s, r := m.process.place.step, Advance(steps, m, Go);
    var content := Content(m.disk);
    StartedMore(m.trace, Saved(s));
    assert StartedSteps(r.trace) == StartedSteps(m.trace);
    assert m.process.completed == content + [s];
    hide RunFrom, StartedSteps, Inv;
    if m.process.place.stage == Written {
      assert Content(r.disk) == content + [s];
      assert r.process.Down? || (r.process.place == Picking && r.process.driver == Run);
      hide Advance, Content;
    } else {
      assert Content(r.disk) == content && r.process.place.SavingDone?;
      hide Advance, Content;
    }
  }

  lemma GoExpected(steps: seq<Step>, m: Machine, h: Handlers)
    requires Distinct(steps) && Inv(steps, m) && m.process.Up? && m.process.place != Picking
    requires m.process.place.InHandler? ==> h(StartedSteps(m.trace))
    ensures SameEnd(Expected(steps, Advance(steps, m, Go), h), Expected(steps, m, h))
  {
    match m.process.place
    case SavingContext(_) =>
    case InHandler(_) => HandlerExpected(steps, m, h);
    case SavingDone(_, _) => SaveExpected(steps, m, h);
  }

  lemma FollowsExpected(steps: seq<Step>, m: Machine, a: Action, h: Handlers)
    requires Distinct(steps) && Inv(steps, m) && m.process.Up? && Follows(m, a, h)
    ensures SameEnd(Expected(steps, Advance(steps, m, a), h), Expected(steps, m, h))
  {
    if a == Fail {
      StartedMore(m.trace, Died);
    } else if m.process.place == Picking {
      PickExpected(steps, m, h);
    } else {
      GoExpected(steps, m, h);
    }
  }

  lemma {:induction false} UninterruptedEnds(steps: seq<Step>, m: Machine, actions: seq<Action>, h: Handlers)
    requires Distinct(steps) && Inv(steps, m) && Uninterrupted(steps, m, actions, h)
    ensures CanRun(steps, m, actions) && After(steps, m, actions).process.Down?
    ensures SameEnd(Expected(steps, After(steps, m, actions), h), Expected(steps, m, h))
    decreases |actions|
  {
    if actions != [] {
      FollowsExpected(steps, m, actions[0], h);
      StepInv(steps, m, actions[0]);
      hide Expected, Inv, Advance;
      UninterruptedEnds(steps, Advance(steps, m, actions[0]), actions[1..], h);
    }
  }

  /**
    Every uninterrupted `run`, and every uninterrupted `next`, leaves the checkpoint and the
    started handlers that `RunFrom` and `NextOnce` say.
   */
  lemma UninterruptedDriver(steps: seq<Step>, m: Machine, driver: Driver, actions: seq<Action>, h: Handlers)
    requires Distinct(steps) && Inv(steps, m) && m.process.Down?
    requires Uninterrupted(steps, Advance(steps, m, Launch(driver)), actions, h)
    ensures CanRun(steps, m, [Launch(driver)] + actions)
    ensures var r := After(steps, m, [Launch(driver)] + actions);
            && r.process.Down?
            && SameEnd(Flow(Content(r.disk), StartedSteps(r.trace), true),
                       Remainder(steps, driver, Content(m.disk), StartedSteps(m.trace), h))
  {
    var up := Advance(steps, m, Launch(driver));
    StepInv(steps, m, Launch(driver));
    UninterruptedEnds(steps, up, actions, h);
    RunCons(steps, m, Launch(driver), actions);
    hide After, CanRun, Uninterrupted, Inv;
    assert SameEnd(Expected(steps, up, h), Remainder(steps, driver, Content(m.disk), StartedSteps(m.trace), h));
  }

  /* ---- And there always is such a run ---- */

  function StagesLeft(stage: Stage): nat {
    match stage
    case NotWritten => 3
    case HalfWritten => 2
    case Written => 1
  }

  /** What is left for the process to do. */
  function Left(steps: seq<Step>, m: Machine): int {
    if m.process.Down? then 0
    else
      var rest := 9 * (|steps| - |Content(m.disk)|);
      match m.process.place
      case SavingContext(stage) => rest + 5 + StagesLeft(stage)
      case Picking => rest + 5
      case InHandler(_) => rest + 4
      case SavingDone(_, stage) => rest + StagesLeft(stage)
  }

  lemma LeftFalls(steps: seq<Step>, m: Machine, a: Action)
    requires Distinct(steps) && Inv(steps, m) && m.process.Up? && !a.Launch?
    ensures 0 <= Left(steps, Advance(steps, m, a)) < Left(steps, m)
  {
    StepInv(steps, m, a);
  }

  lemma {:induction false} SomeUninterrupted(steps: seq<Step>, m: Machine, h: Handlers) returns (actions: seq<Action>)
    requires Distinct(steps) && Inv(steps, m)
    ensures Uninterrupted(steps, m, actions, h)
    decreases Left(steps, m)
  {
    if m.process.Down? {
      actions := [];
    } else {
      var a := if m.process.place.InHandler? && !h(StartedSteps(m.trace)) then Fail else Go;
      LeftFalls(steps, m, a);
      StepInv(steps, m, a);
      var rest := SomeUninterrupted(steps, Advance(steps, m, a), h);
      actions := [a] + rest;
      assert actions[1..] == rest;
    }
  }
}
