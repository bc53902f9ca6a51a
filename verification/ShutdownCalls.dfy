/** The shutdown in terms of the calls that were made: which hooks it waits for, what the counters hold, and in
    which order the hooks of two PreStop calls run. */
module ShutdownCalls {
  import opened Wrappers
  import opened Shutdown
  import opened ShutdownSafety
  import opened ShutdownProgress

  /** How many calls PreStop(level, _) there are among the steps. */
  function PreStops(steps: seq<Step>, level: nat): nat
    decreases |steps|
  {
    if steps == [] then 0 else (if steps[0] == PreStop(level) then 1 else 0) + PreStops(steps[1..], level)
  }

  /** The sum of the deltas of AddFor(level, _). */
  function AddedFor(steps: seq<Step>, level: nat): nat
    decreases |steps|
  {
    if steps == [] then 0
    else (if steps[0].AddFor? && steps[0].level == level then steps[0].delta else 0) + AddedFor(steps[1..], level)
  }

  function DoneWith(steps: seq<Step>, level: nat): nat
    decreases |steps|
  {
    if steps == [] then 0 else (if steps[0] == DoneFor(level) then 1 else 0) + DoneWith(steps[1..], level)
  }

  function ActorsAdded(steps: seq<Step>): nat
    decreases |steps|
  {
    if steps == [] then 0 else (if steps[0].AddActor? then 1 else 0) + ActorsAdded(steps[1..])
  }

  function Interrupts(steps: seq<Step>): nat
    decreases |steps|
  {
    if steps == [] then 0 else (if steps[0].Interrupt? then 1 else 0) + Interrupts(steps[1..])
  }

  // ----- one step

  lemma StepRegisters(s: State, step: Step, level: nat)
    requires Enabled(s, step) && level < 32
    ensures var s' := Apply(s, step);
            Shaped(s') && s'.registered[level] == s.registered[level] + if step == PreStop(level) then 1 else 0
  {
    hide HasTasks;
  }

  lemma StepWorks(s: State, step: Step, level: nat)
    requires Enabled(s, step) && CountsDown(s, step) && level < 32
    ensures var s' := Apply(s, step);
            && Shaped(s')
            && s'.work[level] + (if step == DoneFor(level) then 1 else 0) ==
               s.work[level] + if step.AddFor? && step.level == level then step.delta else 0
  {
    hide HasTasks;
  }

  lemma StepActs(s: State, step: Step)
    requires Enabled(s, step) && CountsDown(s, step) && Interrupted(s) <= s.actors
    ensures Apply(s, step).actors == s.actors + if step.AddActor? then 1 else 0
    ensures Interrupted(Apply(s, step)) == Interrupted(s) + if step.Interrupt? then 1 else 0
  {
    hide HasTasks;
  }

  // ----- every run

  /** Over every run the hooks, the counted work and the actors are those of the calls that were made. */
  lemma {:induction false} RunCounts(s: State, steps: seq<Step>, level: nat)
    requires Counted(s) && IsRun(s, steps) && level < 32
    ensures var end := End(s, steps);
            && Counted(end)
            && end.registered[level] == s.registered[level] + PreStops(steps, level)
            && end.work[level] + DoneWith(steps, level) == s.work[level] + AddedFor(steps, level)
            && end.actors == s.actors + ActorsAdded(steps)
            && Interrupted(end) == Interrupted(s) + Interrupts(steps)
    decreases |steps|
  {
    hide Counted, Apply, Enabled, CountsDown, Interrupted;
    ShapeOf(s);
    if steps != [] {
      CountedKept(s, steps[0]);
      StepRegisters(s, steps[0], level);
      StepWorks(s, steps[0], level);
      StepActs(s, steps[0]);
      RunCounts(Apply(s, steps[0]), steps[1..], level);
    }
  }

  lemma ShapeOf(s: State)
    requires Counted(s)
    ensures Shaped(s) && Interrupted(s) <= s.actors && |s.registered| == |s.work| == |s.count| == 32
  {
  }

  lemma InitialCounts(exits: bool)
    ensures Counted(Initial(exits)) && Initial(exits).holder == None && Interrupted(Initial(exits)) == 0
    ensures Initial(exits).actors == 0
    ensures forall l :: 0 <= l < 32 ==> Initial(exits).registered[l] == Initial(exits).work[l] == 0
  {
  }

  /** The steps before the first stopper takes the mutex. */
  function BeforeLock(steps: seq<Step>): (before: seq<Step>)
    ensures before <= steps
    decreases |steps|
  {
    if steps == [] || steps[0].Lock? then [] else [steps[0]] + BeforeLock(steps[1..])
  }

  lemma StepLocks(s: State, step: Step)
    requires Enabled(s, step) && s.holder == None
    ensures step.Lock? ==> Apply(s, step).holder.Some? && Apply(s, step).registered == s.registered
    ensures !step.Lock? ==> Apply(s, step).holder == None
  {
    hide HasTasks;
  }

  lemma {:induction false} TakenCounts(s: State, steps: seq<Step>, level: nat)
    requires IsRun(s, steps) && s.holder == None && Shaped(s) && level < 32
    ensures |HooksTaken(s, steps)| == 32
    ensures HooksTaken(s, steps)[level] == s.registered[level] + PreStops(BeforeLock(steps), level)
    decreases |steps|
  {
    hide Apply, Enabled;
    if steps != [] {
      StepLocks(s, steps[0]);
      StepRegisters(s, steps[0], level);
      if !steps[0].Lock? {
        TakenCounts(Apply(s, steps[0]), steps[1..], level);
        assert BeforeLock(steps)[1..] == BeforeLock(steps[1..]);
      }
    }
  }

  /** The hooks that the shutdown runs are those whose PreStop came before the mutex was first taken, each at
      the level that was asked for. */
  lemma HooksAreThoseRegistered(exits: bool, steps: seq<Step>, level: nat)
    requires IsRun(Initial(exits), steps) && level < 32
    ensures |HooksTaken(Initial(exits), steps)| == 32
    ensures HooksTaken(Initial(exits), steps)[level] == PreStops(BeforeLock(steps), level)
  {
    InitialCounts(exits);
    hide Initial;
    TakenCounts(Initial(exits), steps, level);
  }

  /** Every wait group holds what the calls have left in it: the deltas of AddFor less the calls of DoneFor, and
      at level 1 the actors that were added and not interrupted. */
  lemma CountersAreThoseCalled(exits: bool, steps: seq<Step>, level: nat)
    requires IsRun(Initial(exits), steps) && level < 32
    ensures var s := End(Initial(exits), steps);
            && Shaped(s)
            && s.count[level] + DoneWith(steps, level) + (if level == 1 then Interrupts(steps) else 0) ==
               AddedFor(steps, level) + (if level == 1 then ActorsAdded(steps) else 0)
  {
    InitialCounts(exits);
    hide Initial;
    RunCounts(Initial(exits), steps, level);
    var s := End(Initial(exits), steps);
    hide IsRun, End;
    assert CountedAt(s, level);
  }

  /** A wait for a level returns only when DoneFor has been called for everything that AddFor has counted, and
      at level 1 every actor has been interrupted. */
  lemma DrainWaitsForCalls(exits: bool, steps: seq<Step>, i: nat)
    requires IsRun(Initial(exits), steps) && Enabled(End(Initial(exits), steps), Drain(i))
    ensures var level := End(Initial(exits), steps).stoppers[i].level;
            && level < 32 && AddedFor(steps, level) + (if level == 1 then ActorsAdded(steps) else 0) ==
                              DoneWith(steps, level) + (if level == 1 then Interrupts(steps) else 0)
  {
    hide IsRun, End, Initial;
    CountersAreThoseCalled(exits, steps, End(Initial(exits), steps).stoppers[i].level);
  }

  // ----- the hook of a call

  /** The hook that was registered by step a, a PreStop. */
  function HookOf(steps: seq<Step>, a: nat): Hook
    requires a < |steps| && steps[a].PreStop?
  {
    Hook(steps[a].level, PreStops(steps[..a], steps[a].level))
  }

  lemma {:induction false} PreStopsGrow(steps: seq<Step>, a: nat, level: nat)
    requires a < |steps| && steps[a] == PreStop(level)
    ensures PreStops(steps[..a], level) < PreStops(steps, level)
    decreases |steps|
  {
    if a > 0 {
      PreStopsGrow(steps[1..], a - 1, level);
      assert steps[..a][1..] == steps[1..][..a - 1];
    }
  }

  lemma HookIsTaken(exits: bool, steps: seq<Step>, a: nat)
    requires IsRun(Initial(exits), steps)
    requires a < |BeforeLock(steps)| && steps[a].PreStop? && steps[a].level < 32
    ensures |HooksTaken(Initial(exits), steps)| == 32
    ensures HookOf(steps, a).index < HooksTaken(Initial(exits), steps)[steps[a].level]
  {
    hide IsRun, Initial, HooksTaken;
    HooksAreThoseRegistered(exits, steps, steps[a].level);
    PreStopsGrow(BeforeLock(steps), a, steps[a].level);
    assert BeforeLock(steps)[..a] == steps[..a];
  }

  /** Of two hooks that were registered in time, one at a higher level: it has ended, and the counter of its
      level has been seen at zero after that, before the other begins. And when an exit function has been called
      both have ended. */
  lemma PreStopsRunInOrder(exits: bool, steps: seq<Step>, low: nat, high: nat)
    requires IsRun(Initial(exits), steps) && low < |BeforeLock(steps)| && high < |BeforeLock(steps)|
    requires steps[low].PreStop? && steps[high].PreStop? && steps[low].level < steps[high].level < 32
    ensures var s := End(Initial(exits), steps);
            && (forall p :: 0 <= p < |s.log| && s.log[p] == Begun(HookOf(steps, low)) ==>
                  exists q, z :: 0 <= q < z < p && s.log[q] == Ended(HookOf(steps, high))
                                 && s.log[z] == SeenZero(steps[high].level))
            && (s.ending == Drained || Gone in s.stoppers ==>
                  Ended(HookOf(steps, low)) in s.log && Ended(HookOf(steps, high)) in s.log)
  {
    RunsAreSafe(exits, steps);
    HookIsTaken(exits, steps, low);
    HookIsTaken(exits, steps, high);
    var s, taken := End(Initial(exits), steps), HooksTaken(Initial(exits), steps);
    hide IsRun, End, Initial, HooksTaken, Orderly;
    forall p | 0 <= p < |s.log| && s.log[p] == Begun(HookOf(steps, low))
      ensures exists q, z :: 0 <= q < z < p && s.log[q] == Ended(HookOf(steps, high))
                             && s.log[z] == SeenZero(steps[high].level)
    {
      HigherLevelsFirst(taken, s.log, p, HookOf(steps, low), HookOf(steps, high));
    }
    if s.ending == Drained || Gone in s.stoppers {
      HasEnded(taken, s.log, HookOf(steps, low));
      HasEnded(taken, s.log, HookOf(steps, high));
    }
  }

  lemma HasEnded(taken: seq<nat>, log: seq<Event>, h: Hook)
    requires h.level < |taken| && h.index < taken[h.level] && LevelDone(taken, log, h.level)
    ensures Ended(h) in log
  {
    assert h == Hook(h.level, h.index);
  }
}
