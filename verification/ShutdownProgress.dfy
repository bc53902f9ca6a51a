/** The shutdown comes to its end: a measure that every step of the protocol makes smaller, and no state
    in which it is stuck. And exactly when it can close stopCh twice. */
module ShutdownProgress {
  import opened Wrappers
  import opened Shutdown
  import opened ShutdownSafety

  // ----- the measure

  /** What a stopper has still to do for the levels below `level`. */
  function CostBelow(registered: seq<nat>, level: nat): nat
    requires level <= |registered|
  {
    if level == 0 then 0 else CostBelow(registered, level - 1) + 3 * registered[level - 1] + 3
  }

  /** What a stopper at pc has still to do. */
  function Cost(registered: seq<nat>, pc: Pc): int
    requires |registered| == LEVELS
  {
    match pc
    case Waiting => CostBelow(registered, LEVELS) + 3
    case Closing => CostBelow(registered, LEVELS) + 2
    case Spawning(level, next) =>
      if level < LEVELS then CostBelow(registered, level) + 3 * (registered[level] - next) + 4 else 0
    case Joining(level) => if level < LEVELS then CostBelow(registered, level) + 3 else 0
    case Draining(level) => if level < LEVELS then CostBelow(registered, level) + 2 else 0
    case Leaving => 1
    case Gone => 0
  }

  function StopperCost(registered: seq<nat>, stoppers: seq<Pc>): int
    requires |registered| == LEVELS
  {
    if stoppers == [] then 0
    else StopperCost(registered, stoppers[..|stoppers| - 1]) + Cost(registered, stoppers[|stoppers| - 1])
  }

  function Sum(s: seq<nat>): nat {
    if s == [] then 0 else Sum(s[..|s| - 1]) + s[|s| - 1]
  }

  function GroupCost(registered: seq<nat>, phase: Phase, actors: nat): int
    requires |registered| == LEVELS
  {
    match phase
    case Building => actors + 3 + Cost(registered, Waiting)
    case Executing => actors + 2 + Cost(registered, Waiting)
    case Interrupting(next) => actors - next + 1 + Cost(registered, Waiting)
    case Stopping => 0
  }

  function Measure(s: State): int
    requires Shaped(s)
  {
    (if s.ending == Live then 1 else 0)
    + StopperCost(s.registered, s.stoppers)
    + 2 * |s.created| + |s.running|
    + GroupCost(s.registered, s.phase, s.actors)
    + Sum(s.work)
  }

  lemma {:induction false} StopperUpdate(registered: seq<nat>, stoppers: seq<Pc>, i: nat, pc: Pc)
    requires |registered| == LEVELS && i < |stoppers|
    ensures StopperCost(registered, stoppers[i := pc]) ==
            StopperCost(registered, stoppers) - Cost(registered, stoppers[i]) + Cost(registered, pc)
  {
    var k := |stoppers| - 1;
    if i < k {
      StopperUpdate(registered, stoppers[..k], i, pc);
      assert stoppers[i := pc][..k] == stoppers[..k][i := pc];
    } else {
      assert stoppers[i := pc][..k] == stoppers[..k];
    }
  }

  lemma StopperAdded(registered: seq<nat>, stoppers: seq<Pc>)
    requires |registered| == LEVELS
    ensures StopperCost(registered, stoppers + [Waiting]) ==
            StopperCost(registered, stoppers) + Cost(registered, Waiting)
  {
    assert (stoppers + [Waiting])[..|stoppers|] == stoppers;
  }

  lemma {:induction false} SumUpdate(s: seq<nat>, i: nat, x: nat)
    requires i < |s|
    ensures Sum(s[i := x]) == Sum(s) - s[i] + x
  {
    var k := |s| - 1;
    if i < k {
      SumUpdate(s[..k], i, x);
      assert s[i := x][..k] == s[..k][i := x];
    } else {
      assert s[i := x][..k] == s[..k];
    }
  }

  lemma {:induction false} StopperCostIsNatural(registered: seq<nat>, stoppers: seq<Pc>)
    requires |registered| == LEVELS
    requires forall i :: 0 <= i < |stoppers| ==> Cost(registered, stoppers[i]) >= 0
    ensures StopperCost(registered, stoppers) >= 0
  {
    if stoppers != [] { StopperCostIsNatural(registered, stoppers[..|stoppers| - 1]); }
  }

  // ----- every step

  /** A state that a run can reach. */
  ghost predicate Sound(s: State) {
    Inv(s) || Over(s)
  }

  lemma MeasureIsNatural(s: State)
    requires Sound(s)
    ensures Shaped(s) && Measure(s) >= 0
  {
    forall i | 0 <= i < |s.stoppers|
      ensures Cost(s.registered, s.stoppers[i]) >= 0
    {
    }
    StopperCostIsNatural(s.registered, s.stoppers);
  }

  /** The mutex holder, or the stopper that takes the mutex, moves on. */
  predicate Moves(step: Step) {
    step.Lock? || step.Close? || step.Spawned? || step.Join? || step.Drain? || Releases(step)
  }

  lemma MoveDecreases(s: State, step: Step)
    requires Shaped(s) && Enabled(s, step) && Moves(step) && (step.Close? ==> !s.closed)
    requires LevelInRange(s.stoppers[step.i])
    ensures Measure(Apply(s, step)) < Measure(s)
  {
    var i, s' := step.i, Apply(s, step);
    CostDecreases(s, step);
    hide StopperCost, Sum, GroupCost, HasTasks, Cost, CostBelow;
    StopperUpdate(s.registered, s.stoppers, i, s'.stoppers[i]);
  }

  lemma CostDecreases(s: State, step: Step)
    requires Shaped(s) && Enabled(s, step) && Moves(step) && (step.Close? ==> !s.closed)
    requires LevelInRange(s.stoppers[step.i])
    ensures var pc := Apply(s, step).stoppers[step.i];
            && Apply(s, step).stoppers == s.stoppers[step.i := pc]
            && Cost(s.registered, pc) < Cost(s.registered, s.stoppers[step.i])
  {
    hide HasTasks;
    assert CostBelow(s.registered, LEVELS) + 1 == Cost(s.registered, Spawning(LEVELS - 1, 0));
    if step.Drain? && s.stoppers[step.i].level > 0 {
      var level := s.stoppers[step.i].level;
      assert CostBelow(s.registered, level) + 1 == Cost(s.registered, Spawning(level - 1, 0));
    }
  }

  lemma SpawnDecreases(s: State, step: Step)
    requires Shaped(s) && Enabled(s, step) && step.Spawn?
    ensures Measure(Apply(s, step)) < Measure(s)
  {
    hide StopperCost, Sum, GroupCost, CostBelow;
    var i, s' := step.i, Apply(s, step);
    StopperUpdate(s.registered, s.stoppers, i, s'.stoppers[i]);
    assert |s'.created| <= |s.created| + 1;
  }

  lemma TaskDecreases(s: State, step: Step)
    requires Shaped(s) && Enabled(s, step) && (step.Begin? || step.Finish?)
    ensures Measure(Apply(s, step)) < Measure(s)
  {
    hide StopperCost, Sum, GroupCost;
  }

  lemma EndDecreases(s: State, step: Step)
    requires Shaped(s) && Enabled(s, step) && Apply(s, step) == s.(ending := Apply(s, step).ending)
    requires Apply(s, step).ending != Live
    ensures Measure(Apply(s, step)) < Measure(s)
  {
    hide StopperCost, Sum, GroupCost, HasTasks;
  }

  lemma GroupDecreases(s: State, step: Step)
    requires Shaped(s) && Enabled(s, step) && CountsDown(s, step)
    requires step.DoneFor? || step.RunGroup? || step.ActorReturns? || step.Interrupt? || step.EnterSafeStop?
    ensures Measure(Apply(s, step)) < Measure(s)
  {
    hide StopperCost, Sum, CostBelow, HasTasks;
    if step.DoneFor? {
      SumUpdate(s.work, step.level, s.work[step.level] - 1);
    } else if step.EnterSafeStop? {
      StopperAdded(s.registered, s.stoppers);
    }
  }

  /** A step that is not a call from outside, nor a timer whose exit function returns. */
  predicate Inner(step: Step) {
    !FromOutside(step) && !(step.Timeout? && step.goesOn)
  }

  /** How often safeStop has been called, and will be: the group calls it once. */
  function PlannedCalls(s: State): nat {
    |s.stoppers| + if s.phase == Stopping then 0 else 1
  }

  lemma SoundKept(s: State, step: Step)
    requires Sound(s) && Enabled(s, step)
    ensures Sound(Apply(s, step)) && Apply(s, step).exits == s.exits
    ensures Apply(s, step).ending == Panicked ==> BadPreStop(step) || (!s.exits && |s.stoppers| >= 2)
  {
    hide Inv, Over, Settled, Apply, Enabled;
    StepAddsCall(s, step);
    if Over(s) {
      OverKept(s, step);
      OverGoesOn(s);
    } else if Releases(step) {
      ReleaseIsOver(s, step);
    } else {
      InvKept(s, step);
    }
  }

  lemma OverGoesOn(s: State)
    requires Over(s)
    ensures !s.exits
  {
  }

  lemma SoundFacts(s: State, step: Step)
    requires Sound(s) && Enabled(s, step)
    ensures Shaped(s) && CountsDown(s, step)
    ensures Moves(step) ==> LevelInRange(s.stoppers[step.i])
    ensures step.Close? && s.closed ==> Apply(s, step) == s.(ending := Panicked)
  {
    hide HooksFit, Orderly, HasTasks;
    CountedKept(s, step);
  }

  /** Every inner step brings the end nearer, and changes nothing about how often safeStop is called. */
  lemma StepDecreases(s: State, step: Step)
    requires Sound(s) && Enabled(s, step) && Inner(step)
    ensures Sound(Apply(s, step)) && Shaped(s) && Measure(Apply(s, step)) < Measure(s)
    ensures PlannedCalls(Apply(s, step)) == PlannedCalls(s)
  {
    hide Measure, Inv, Over, HasTasks;
    SoundKept(s, step);
    SoundFacts(s, step);
    if step.Spawn? {
      SpawnDecreases(s, step);
    } else if step.Begin? || step.Finish? {
      TaskDecreases(s, step);
    } else if (step.Exit? && !step.goesOn) || step.Timeout? || (step.Close? && s.closed) {
      EndDecreases(s, step);
    } else if Moves(step) {
      MoveDecreases(s, step);
    } else {
      GroupDecreases(s, step);
    }
  }

  // ----- no state is stuck

  /** A step of the protocol that does not rely on the timer. */
  predicate OwnStep(step: Step) {
    !FromOutside(step) && !step.Timeout?
  }

  ghost predicate AllOwn(steps: seq<Step>) {
    forall i :: 0 <= i < |steps| ==> OwnStep(steps[i])
  }

  /** Some stopper is not through. */
  ghost predicate Unfinished(s: State) {
    exists i :: 0 <= i < |s.stoppers| && s.stoppers[i] != Gone
  }

  lemma TaskStep(s: State, i: nat) returns (step: Step)
    requires Shaped(s) && s.ending == Live && HasTasks(s, i)
    ensures Enabled(s, step) && (step.Begin? || step.Finish?)
  {
    var t :| t in s.created + s.running && t.stopper == i;
    step := if t in s.created then Begin(t) else Finish(t);
  }

  /** Once safeStop has been called its timer can end the process at any time, whatever hangs. */
  lemma TimerCanEnd(s: State)
    requires Shaped(s) && s.ending == Live && s.stoppers != []
    ensures Enabled(s, Timeout(0, false)) && Apply(s, Timeout(0, false)) == s.(ending := TimedOut)
  {
  }

  /** Until the group is inside its own SafeStop, it can go on once stopCh is closed. */
  lemma GroupStep(s: State) returns (step: Step)
    requires Counted(s) && s.ending == Live && s.closed && s.phase != Stopping
    ensures Enabled(s, step) && OwnStep(step) && !step.Exit?
  {
    match s.phase
    case Building => step := RunGroup;
    case Executing => step := ActorReturns;
    case Interrupting(next) => step := if next < s.actors then Interrupt else EnterSafeStop;
  }

  /** A counter that is not at zero has work to be done, or actors to be interrupted. */
  lemma CounterStep(s: State, level: nat) returns (step: Step)
    requires Counted(s) && s.ending == Live && s.closed && level < LEVELS && s.count[level] > 0
    ensures Enabled(s, step) && OwnStep(step) && !step.Exit?
  {
    assert CountedAt(s, level);
    if s.work[level] > 0 {
      step := DoneFor(level);
    } else {
      step := GroupStep(s);
    }
  }

  /** Until every call of safeStop is through, or the process has ended, some hook, actor or piece of
      counted work can go on, or the shutdown itself can. Exit functions return where they may. */
  lemma NeverStuck(s: State) returns (step: Step)
    requires Sound(s) && s.ending == Live && Unfinished(s)
    ensures Enabled(s, step) && OwnStep(step) && (step.Exit? ==> step.goesOn == !s.exits)
  {
    hide HooksFit, Orderly;
    var k :| 0 <= k < |s.stoppers| && s.stoppers[k] != Gone;
    match s.holder
    case None => step := Lock(k);
    case Some(i) =>
      match s.stoppers[i]
      case Closing => step := Close(i);
      case Spawning(level, next) => step := if next < s.registered[level] then Spawn(i) else Spawned(i);
      case Joining(_) =>
        if HasTasks(s, i) { step := TaskStep(s, i); } else { step := Join(i); }
      case Draining(level) =>
        if s.count[level] > 0 { step := CounterStep(s, level); } else { step := Drain(i); }
      case Leaving => step := Exit(i, !s.exits);
  }

  /** How many steps are not timers whose exit function returns: these may come again and again. */
  function InnerSteps(steps: seq<Step>): nat
    decreases |steps|
  {
    if steps == [] then 0 else (if Inner(steps[0]) then 1 else 0) + InnerSteps(steps[1..])
  }

  lemma {:induction false} AllOwnAreInner(steps: seq<Step>)
    requires AllOwn(steps)
    ensures InnerSteps(steps) == |steps|
    decreases |steps|
  {
    if steps != [] {
      assert OwnStep(steps[0]);
      AllOwnAreInner(steps[1..]);
    }
  }

  lemma {:induction false} RunIsBounded(s: State, steps: seq<Step>)
    requires Sound(s) && IsRun(s, steps) && (forall i :: 0 <= i < |steps| ==> !FromOutside(steps[i]))
    ensures Shaped(s) && Shaped(End(s, steps)) && Sound(End(s, steps))
    ensures InnerSteps(steps) + Measure(End(s, steps)) <= Measure(s)
    decreases |steps|
  {
    hide Measure, Sound, Apply, Enabled;
    MeasureIsNatural(s);
    if steps != [] {
      assert !FromOutside(steps[0]);
      if Inner(steps[0]) {
        StepDecreases(s, steps[0]);
      } else {
        TimerStays(s, steps[0]);
      }
      RunIsBounded(Apply(s, steps[0]), steps[1..]);
    }
  }

  lemma TimerStays(s: State, step: Step)
    requires Enabled(s, step) && step.Timeout? && step.goesOn
    ensures Apply(s, step) == s
  {
  }

  lemma {:induction false} RunIsSound(s: State, steps: seq<Step>)
    requires Sound(s) && IsRun(s, steps)
    ensures Sound(End(s, steps)) && End(s, steps).exits == s.exits
    decreases |steps|
  {
    hide Sound, Apply, Enabled;
    if steps != [] {
      SoundKept(s, steps[0]);
      RunIsSound(Apply(s, steps[0]), steps[1..]);
    }
  }

  lemma ReachedIsSound(exits: bool, before: seq<Step>)
    requires IsRun(Initial(exits), before)
    ensures Sound(End(Initial(exits), before)) && End(Initial(exits), before).exits == exits
  {
    hide Inv, Over;
    InitialInv(exits);
    RunIsSound(Initial(exits), before);
  }

  /** From every reachable state, with any number of actors, hooks, counted work and stoppers: if no new
      calls come from outside, the process takes no more than Measure(s) steps, not counting timers whose
      exit function returns; and a run that goes on as long as it can without the timer drains all levels and
      exits, or, where exit functions may return, ends with every stopper through or with a second close. */
  lemma ShutdownEnds(exits: bool, before: seq<Step>, steps: seq<Step>)
    requires IsRun(Initial(exits), before) && IsRun(End(Initial(exits), before), steps)
    requires End(Initial(exits), before).ending == Live && End(Initial(exits), before).stoppers != []
    requires forall i :: 0 <= i < |steps| ==> !FromOutside(steps[i])
    ensures var s := End(Initial(exits), before);
            var end := End(s, steps);
            && Shaped(s) && InnerSteps(steps) <= Measure(s) && (AllOwn(steps) ==> |steps| <= Measure(s))
            && ((forall step :: OwnStep(step) ==> !Enabled(end, step)) ==>
                  if exits then end.ending == Drained || (end.ending == TimedOut && !AllOwn(steps))
                  else end.ending != Live || !Unfinished(end))
  {
    hide Measure, Sound, Apply, Enabled, Unfinished;
    var s := End(Initial(exits), before);
    ReachedIsSound(exits, before);
    RunIsBounded(s, steps);
    if AllOwn(steps) { AllOwnAreInner(steps); }
    var end := End(s, steps);
    MeasureIsNatural(end);
    if end.ending == Live && Unfinished(end) {
      var step := NeverStuck(end);
    }
    RunEndsWell(s, steps);
  }

  /** Where exit functions end the process, nothing else does but the timer. */
  lemma {:induction false} RunEndsWell(s: State, steps: seq<Step>)
    requires Sound(s) && s.ending == Live && s.stoppers != [] && IsRun(s, steps)
    requires forall i :: 0 <= i < |steps| ==> !FromOutside(steps[i])
    ensures s.exits && End(s, steps).ending == Live ==> Unfinished(End(s, steps))
    ensures s.exits ==> End(s, steps).ending != Panicked
    ensures End(s, steps).ending == TimedOut ==> !AllOwn(steps)
    decreases |steps|
  {
    hide Sound, Apply, Enabled, Unfinished;
    if steps == [] {
      if s.exits { ExitingIsUnfinished(s); }
    } else {
      var next := Apply(s, steps[0]);
      assert !FromOutside(steps[0]);
      SoundKept(s, steps[0]);
      StepAddsCall(s, steps[0]);
      if OwnStep(steps[0]) { EndingOf(s, steps[0]); } else { assert !AllOwn(steps); }
      if next.ending != Live {
        NothingAfterEnd(next, steps[1..]);
      } else {
        RunEndsWell(next, steps[1..]);
        if AllOwn(steps) { assert AllOwn(steps[1..]); }
      }
    }
  }

  lemma EndingOf(s: State, step: Step)
    requires Enabled(s, step) && OwnStep(step)
    ensures Apply(s, step).ending == Live || Apply(s, step).ending == Drained || Apply(s, step).ending == Panicked
  {
    hide HasTasks;
  }

  lemma ExitingIsUnfinished(s: State)
    requires Sound(s) && s.exits && s.stoppers != []
    ensures Unfinished(s)
  {
    hide HooksFit, Orderly, Counted;
    assert s.stoppers[0] != Gone;
  }

  // ----- exactly when stopCh can be closed twice

  /** Without new calls from outside, the process may still panic. */
  ghost predicate CanPanic(s: State) {
    exists steps :: Panics(s, steps)
  }

  ghost predicate Panics(s: State, steps: seq<Step>) {
    && (forall i :: 0 <= i < |steps| ==> !FromOutside(steps[i]))
    && IsRun(s, steps) && End(s, steps).ending == Panicked
  }

  lemma OneMore(s: State, step: Step, rest: seq<Step>)
    requires Enabled(s, step) && !FromOutside(step) && Panics(Apply(s, step), rest)
    ensures CanPanic(s)
  {
    var steps := [step] + rest;
    assert steps[1..] == rest;
    assert Panics(s, steps);
  }

  lemma {:induction false} PanicNeedsTwoCalls(s: State, steps: seq<Step>)
    requires Sound(s) && s.ending == Live && Panics(s, steps)
    ensures !s.exits && PlannedCalls(s) >= 2
    decreases |steps|
  {
    hide Sound, Apply, Enabled;
    assert steps != [];
    var next := Apply(s, steps[0]);
    assert !FromOutside(steps[0]);
    SoundKept(s, steps[0]);
    PlannedStays(s, steps[0]);
    if next.ending == Live {
      PanicNeedsTwoCalls(next, steps[1..]);
    } else {
      NothingAfterEnd(next, steps[1..]);
    }
  }

  lemma PlannedStays(s: State, step: Step)
    requires Enabled(s, step) && !FromOutside(step)
    ensures PlannedCalls(Apply(s, step)) == PlannedCalls(s)
  {
    hide HasTasks;
  }

  /** The step that brings the second close nearer: the first stopper drains all levels, then the next
      one takes the mutex, be it the group's own. */
  lemma StepToPanic(s: State) returns (step: Step)
    requires Sound(s) && s.ending == Live && !s.exits && PlannedCalls(s) >= 2
    ensures Enabled(s, step) && OwnStep(step) && (step.Exit? ==> step.goesOn)
  {
    hide Inv;
    if Unfinished(s) {
      step := NeverStuck(s);
    } else {
      assert Over(s) by { if Inv(s) { InvIsUnfinished(s); } }
      var g: nat :| OnlyGone(s.stoppers, g);
      assert |s.stoppers| == 1 by { OthersAreNotGone(s.stoppers, g); }
      step := GroupStep(s);
    }
  }

  lemma OthersAreNotGone(stoppers: seq<Pc>, g: nat)
    requires OnlyGone(stoppers, g) && forall i :: 0 <= i < |stoppers| ==> stoppers[i] == Gone
    ensures |stoppers| == 1
  {
    assert stoppers[0] == Gone && stoppers[|stoppers| - 1] == Gone;
  }

  lemma InvIsUnfinished(s: State)
    requires Inv(s) && s.stoppers != []
    ensures Unfinished(s)
  {
    hide HooksFit, Orderly, Counted;
    assert s.stoppers[0] != Gone;
  }

  lemma {:induction false} TwoCallsPanic(s: State)
    requires Sound(s) && s.ending == Live && !s.exits && PlannedCalls(s) >= 2
    ensures CanPanic(s)
    decreases Measure(s)
  {
    hide Sound, Measure, Apply, Enabled;
    var step := StepToPanic(s);
    var next := Apply(s, step);
    StepDecreases(s, step);
    SoundKept(s, step);
    StepAddsCall(s, step);
    MeasureIsNatural(next);
    LiveUnlessPanicked(s, step);
    if next.ending == Live {
      TwoCallsPanic(next);
      var rest :| Panics(next, rest);
      OneMore(s, step, rest);
    } else {
      NoStep(next);
      assert Panics(next, []);
      OneMore(s, step, []);
    }
  }

  lemma LiveUnlessPanicked(s: State, step: Step)
    requires Enabled(s, step) && OwnStep(step) && (step.Exit? ==> step.goesOn)
    ensures Apply(s, step).ending == Live || Apply(s, step).ending == Panicked
  {
    hide HasTasks;
  }

  lemma NoStep(s: State)
    ensures IsRun(s, []) && End(s, []) == s
  {
  }

  /** In every reachable state: without new calls from outside the process can panic if and only if exit
      functions may return and safeStop has been called, or will be by the group, at least twice. */
  lemma PanicsExactly(exits: bool, before: seq<Step>)
    requires IsRun(Initial(exits), before) && End(Initial(exits), before).ending == Live
    ensures var s := End(Initial(exits), before);
            CanPanic(s) <==> !exits && PlannedCalls(s) >= 2
  {
    hide Sound, PlannedCalls;
    var s := End(Initial(exits), before);
    ReachedIsSound(exits, before);
    if CanPanic(s) {
      var steps :| Panics(s, steps);
      PanicNeedsTwoCalls(s, steps);
    }
    if !exits && PlannedCalls(s) >= 2 { TwoCallsPanic(s); }
  }

  lemma {:induction false} RunsCompose(s: State, first: seq<Step>, second: seq<Step>)
    requires IsRun(s, first) && IsRun(End(s, first), second)
    ensures IsRun(s, first + second) && End(s, first + second) == End(End(s, first), second)
    decreases |first|
  {
    hide Enabled, Apply;
    if first == [] {
      assert first + second == second;
    } else {
      RunsCompose(Apply(s, first[0]), first[1..], second);
      assert (first + second)[1..] == first[1..] + second;
    }
  }

  /** Two calls of safeStop are enough, without hooks, actors or counted work. */
  lemma SecondCloseWhenExitReturns() returns (steps: seq<Step>)
    ensures IsRun(Initial(false), steps) && End(Initial(false), steps).ending == Panicked
    ensures forall i :: 0 <= i < |steps| ==> !BadPreStop(steps[i])
  {
    hide Panics, Sound, Measure;
    var calls := [SafeStop, SafeStop];
    assert IsRun(Initial(false), calls[1..]) && calls[1..][1..] == [];
    var s := End(Initial(false), calls);
    assert s.ending == Live && |s.stoppers| == 2;
    PanicsExactly(false, calls);
    var rest :| Panics(s, rest);
    PanicsMeans(s, rest);
    RunsCompose(Initial(false), calls, rest);
    steps := calls + rest;
  }

  lemma PanicsMeans(s: State, steps: seq<Step>)
    requires Panics(s, steps)
    ensures IsRun(s, steps) && End(s, steps).ending == Panicked
    ensures forall i :: 0 <= i < |steps| ==> !BadPreStop(steps[i])
  {
  }
}
