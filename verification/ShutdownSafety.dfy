/** What every step of the shutdown keeps, before and after an exit function has returned. */
module ShutdownSafety {
  import opened Wrappers
  import opened Shutdown

  /** The level that the mutex holder is working on; below it nothing has begun. -1: none is left. */
  function Current(pc: Pc): int {
    match pc
    case Spawning(level, _) => level
    case Joining(level) => level
    case Draining(level) => level
    case Leaving => -1
    case _ => LEVELS - 1
  }

  /** How many hooks of that level have got their goroutine. */
  function Launched(registered: seq<nat>, pc: Pc): nat {
    match pc
    case Spawning(_, next) => next
    case Joining(level) => if level < |registered| then registered[level] else 0
    case Draining(level) => if level < |registered| then registered[level] else 0
    case _ => 0
  }

  /** How many actors have been interrupted. */
  function Interrupted(s: State): nat {
    match s.phase
    case Interrupting(next) => next
    case Stopping => s.actors
    case _ => 0
  }

  /** Every counter is what AddFor has left in it, the one of level 1 with one more for each actor that
      has not been interrupted yet. */
  ghost predicate Counted(s: State) {
    && Shaped(s) && Interrupted(s) <= s.actors
    && forall l :: 0 <= l < LEVELS ==> CountedAt(s, l)
  }

  ghost predicate CountedAt(s: State, l: nat)
    requires Shaped(s) && l < LEVELS
  {
    s.count[l] == s.work[l] + if l == ACTOR_LEVEL then s.actors - Interrupted(s) else 0
  }

  /** Who holds the mutex, and what that says about the others. */
  ghost predicate Exclusive(s: State) {
    match s.holder
    case None =>
      (forall i :: 0 <= i < |s.stoppers| ==> s.stoppers[i] == Waiting) && !s.closed
    case Some(i) =>
      && i < |s.stoppers| && s.stoppers[i] != Waiting && s.stoppers[i] != Gone
      && (forall j :: 0 <= j < |s.stoppers| && j != i ==> s.stoppers[j] == Waiting)
      && s.closed == (s.stoppers[i] != Closing)
      && LevelInRange(s.stoppers[i])
      && |s.registered| == LEVELS
      && (s.stoppers[i].Spawning? ==> s.stoppers[i].next <= s.registered[s.stoppers[i].level])
  }

  /** Where the shutdown stands: `pc` is Waiting before it starts, and then that of the holder. */
  function Active(s: State): Pc {
    if s.holder.Some? && s.holder.value < |s.stoppers| then s.stoppers[s.holder.value] else Waiting
  }

  function Holder(s: State): nat {
    if s.holder.Some? then s.holder.value else 0
  }

  ghost predicate DoneAbove(registered: seq<nat>, log: seq<Event>, level: int) {
    forall j :: 0 <= j < |registered| && level < j ==> LevelDone(registered, log, j)
  }

  ghost predicate UntouchedFrom(log: seq<Event>, level: int, launched: nat) {
    forall h: Hook :: h.level < level || (h.level == level && h.index >= launched) ==>
      Begun(h) !in log && Ended(h) !in log
  }

  /** The launched hooks of the current level are on their way or have ended. */
  ghost predicate OnTheirWay(created: set<Task>, running: set<Task>, log: seq<Event>, i: nat,
                             level: int, launched: nat)
  {
    level >= 0 ==>
      forall m: nat {:trigger Hook(level, m)} :: m < launched ==>
        || Task(i, Hook(level, m)) in created
        || Task(i, Hook(level, m)) in running
        || Ended(Hook(level, m)) in log
  }

  ghost predicate IsCurrent(t: Task, i: nat, level: int, launched: nat) {
    t.stopper == i && t.hook.level == level && t.hook.index < launched
  }

  ghost predicate CreatedFit(created: set<Task>, log: seq<Event>, i: nat, level: int, launched: nat) {
    forall t :: t in created ==> IsCurrent(t, i, level, launched) && Begun(t.hook) !in log && Ended(t.hook) !in log
  }

  ghost predicate RunningFit(running: set<Task>, log: seq<Event>, i: nat, level: int, launched: nat) {
    forall t :: t in running ==> IsCurrent(t, i, level, launched) && Begun(t.hook) in log && Ended(t.hook) !in log
  }

  /** The hooks, the goroutines and the log agree with where the shutdown stands. */
  ghost predicate HooksFit(registered: seq<nat>, created: set<Task>, running: set<Task>, log: seq<Event>,
                           pc: Pc, i: nat)
  {
    var level, launched := Current(pc), Launched(registered, pc);
    && |registered| == LEVELS && level < LEVELS
    && (level >= 0 ==> launched <= registered[level])
    && DoneAbove(registered, log, level)
    && UntouchedFrom(log, level, launched)
    && OnTheirWay(created, running, log, i, level, launched)
    && CreatedFit(created, log, i, level, launched)
    && RunningFit(running, log, i, level, launched)
    && (pc.Waiting? ==> log == [])
    && (pc.Draining? || pc.Leaving? ==> created == running == {})
  }

  /** The part of the invariant that is about hooks and the log. */
  ghost predicate Fits(s: State) {
    && HooksFit(s.registered, s.created, s.running, s.log, Active(s), Holder(s))
    && Orderly(s.registered, s.log)
    && (s.ending == Drained ==> Active(s) == Leaving)
  }

  ghost predicate Inv(s: State) {
    Counted(s) && Exclusive(s) && Fits(s)
  }

  lemma InitialInv(exits: bool)
    ensures Inv(Initial(exits)) && Initial(exits).ending == Live
    ensures Initial(exits).exits == exits && Initial(exits).stoppers == []
  {
  }

  // ----- the log grows

  lemma LogGrows(registered: seq<nat>, log: seq<Event>, e: Event)
    requires Orderly(registered, log) && MayFollow(registered, log, e)
    ensures Orderly(registered, log + [e])
  {
    forall p | 0 <= p < |log + [e]|
      ensures MayFollow(registered, (log + [e])[..p], (log + [e])[p])
    {
      if p < |log| {
        assert (log + [e])[..p] == log[..p];
      } else {
        assert (log + [e])[..p] == log;
      }
    }
  }

  lemma DoneStays(registered: seq<nat>, log: seq<Event>, e: Event, level: int)
    requires DoneAbove(registered, log, level)
    ensures DoneAbove(registered, log + [e], level)
  {
    forall j | 0 <= j < |registered| && level < j
      ensures LevelDone(registered, log + [e], j)
    {
      assert LevelDone(registered, log, j);
    }
  }

  lemma BeginKeeps(registered: seq<nat>, created: set<Task>, running: set<Task>, log: seq<Event>,
                   pc: Pc, i: nat, t: Task)
    requires HooksFit(registered, created, running, log, pc, i) && t in created
    ensures MayFollow(registered, log, Begun(t.hook))
    ensures HooksFit(registered, created - {t}, running + {t}, log + [Begun(t.hook)], pc, i)
  {
    DoneStays(registered, log, Begun(t.hook), Current(pc));
  }

  lemma FinishKeeps(registered: seq<nat>, created: set<Task>, running: set<Task>, log: seq<Event>,
                    pc: Pc, i: nat, t: Task)
    requires HooksFit(registered, created, running, log, pc, i) && t in running
    ensures MayFollow(registered, log, Ended(t.hook))
    ensures HooksFit(registered, created, running - {t}, log + [Ended(t.hook)], pc, i)
  {
    DoneStays(registered, log, Ended(t.hook), Current(pc));
  }

  lemma SpawnKeeps(registered: seq<nat>, created: set<Task>, running: set<Task>, log: seq<Event>, pc: Pc, i: nat)
    requires HooksFit(registered, created, running, log, pc, i)
    requires pc.Spawning? && pc.next < registered[pc.level]
    ensures HooksFit(registered, created + {Task(i, Hook(pc.level, pc.next))}, running, log,
                     Spawning(pc.level, pc.next + 1), i)
  {
  }

  lemma DrainKeeps(registered: seq<nat>, log: seq<Event>, pc: Pc, i: nat)
    requires HooksFit(registered, {}, {}, log, pc, i) && pc.Draining?
    ensures MayFollow(registered, log, SeenZero(pc.level))
    ensures HooksFit(registered, {}, {}, log + [SeenZero(pc.level)],
                     if pc.level == 0 then Leaving else Spawning(pc.level - 1, 0), i)
  {
    DoneStays(registered, log, SeenZero(pc.level), pc.level);
  }

  lemma DrainHasNoTasks(registered: seq<nat>, created: set<Task>, running: set<Task>, log: seq<Event>, pc: Pc, i: nat)
    requires HooksFit(registered, created, running, log, pc, i) && pc.Draining?
    ensures created == running == {}
  {
  }

  /** Before the shutdown starts nothing has happened, so hooks may still be registered. */
  lemma RegisterKeeps(registered: seq<nat>, more: seq<nat>, log: seq<Event>, created: set<Task>, running: set<Task>)
    requires HooksFit(registered, created, running, log, Waiting, 0) && |more| == LEVELS
    ensures HooksFit(more, created, running, log, Waiting, 0) && Orderly(more, log)
  {
  }

  lemma LockKeeps(registered: seq<nat>, created: set<Task>, running: set<Task>, log: seq<Event>, i: nat, k: nat)
    requires HooksFit(registered, created, running, log, Waiting, i)
    ensures HooksFit(registered, created, running, log, Closing, k)
  {
  }

  lemma CloseKeeps(registered: seq<nat>, created: set<Task>, running: set<Task>, log: seq<Event>, i: nat)
    requires HooksFit(registered, created, running, log, Closing, i)
    ensures HooksFit(registered, created, running, log, Spawning(LEVELS - 1, 0), i)
  {
  }

  lemma SpawnedKeeps(registered: seq<nat>, created: set<Task>, running: set<Task>, log: seq<Event>, pc: Pc, i: nat)
    requires HooksFit(registered, created, running, log, pc, i)
    requires pc.Spawning? && pc.next == registered[pc.level]
    ensures HooksFit(registered, created, running, log, Joining(pc.level), i)
  {
  }

  lemma JoinKeeps(s: State)
    requires s.holder.Some? && s.holder.value < |s.stoppers| && Active(s).Joining? && !HasTasks(s, s.holder.value)
    requires HooksFit(s.registered, s.created, s.running, s.log, Active(s), Holder(s))
    ensures HooksFit(s.registered, s.created, s.running, s.log, Draining(Active(s).level), Holder(s))
  {
    forall t | t in s.created + s.running
      ensures t.stopper == s.holder.value
    {
    }
    assert s.created == {} && s.running == {};
  }

  // ----- every step

  /** A counter that the step takes one from is not at zero. */
  predicate CountsDown(s: State, step: Step)
    requires Enabled(s, step)
  {
    && (step.Interrupt? ==> s.count[ACTOR_LEVEL] > 0)
    && (step.DoneFor? ==> s.count[step.level] > 0)
  }

  lemma CountedKept(s: State, step: Step)
    requires Counted(s) && Enabled(s, step)
    ensures Counted(Apply(s, step))
    ensures CountsDown(s, step)
  {
    assert CountedAt(s, ACTOR_LEVEL);
    StepInCount(s, step, ACTOR_LEVEL);
    if step.DoneFor? {
      assert CountedAt(s, step.level);
      StepInCount(s, step, step.level);
    }
    assert CountsDown(s, step);
    hide *;
    forall l | 0 <= l < LEVELS
      ensures CountedAt(Apply(s, step), l)
    {
      CountedHas(s, l);
      StepInCount(s, step, l);
    }
    CountedFrom(Apply(s, step));
  }

  lemma CountedHas(s: State, l: nat)
    requires Counted(s) && l < LEVELS
    ensures Shaped(s) && Interrupted(s) <= s.actors && CountedAt(s, l)
  {
  }

  lemma CountedFrom(s: State)
    requires Shaped(s) && Interrupted(s) <= s.actors && forall l :: 0 <= l < LEVELS ==> CountedAt(s, l)
    ensures Counted(s)
  {
  }

  lemma StepInCount(s: State, step: Step, l: nat)
    requires Shaped(s) && Interrupted(s) <= s.actors && Enabled(s, step) && l < LEVELS && CountedAt(s, l)
    ensures Shaped(Apply(s, step)) && CountedAt(Apply(s, step), l)
    ensures l == ACTOR_LEVEL ==> Interrupted(Apply(s, step)) <= s.actors <= Apply(s, step).actors
    ensures (l == ACTOR_LEVEL && step.Interrupt?) || (step.DoneFor? && l == step.level) ==> s.count[l] > 0
  {
    if step.AddFor? || step.DoneFor? {
      WorkInCount(s, step, l);
    } else if step.AddActor? || step.Interrupt? {
      ActorInCount(s, step, l);
    } else {
      LeavesCounts(s, step);
    }
    hide Enabled, Apply;
  }

  lemma WorkInCount(s: State, step: Step, l: nat)
    requires Shaped(s) && Interrupted(s) <= s.actors && Enabled(s, step) && l < LEVELS && CountedAt(s, l)
    requires step.AddFor? || step.DoneFor?
    ensures var s' := Apply(s, step);
            Shaped(s') && CountedAt(s', l) && s'.actors == s.actors && Interrupted(s') == Interrupted(s)
    ensures step.DoneFor? && l == step.level ==> s.count[l] > 0
  {
    hide HasTasks, LevelInRange;
  }

  lemma ActorInCount(s: State, step: Step, l: nat)
    requires Shaped(s) && Interrupted(s) <= s.actors && Enabled(s, step) && l < LEVELS && CountedAt(s, l)
    requires step.AddActor? || step.Interrupt?
    ensures var s' := Apply(s, step);
            Shaped(s') && CountedAt(s', l) && (l == ACTOR_LEVEL ==> Interrupted(s') <= s.actors <= s'.actors)
    ensures step.Interrupt? && l == ACTOR_LEVEL ==> s.count[l] > 0
  {
    hide HasTasks, LevelInRange;
  }

  lemma LeavesCounts(s: State, step: Step)
    requires Shaped(s) && Interrupted(s) <= s.actors && Enabled(s, step)
    requires !step.AddFor? && !step.DoneFor? && !step.AddActor? && !step.Interrupt?
    ensures var s' := Apply(s, step);
            && Shaped(s') && s'.count == s.count && s'.work == s.work && s'.actors == s.actors
            && Interrupted(s') == Interrupted(s)
  {
    hide HasTasks;
  }

  /** A step of the stopper that holds the mutex. */
  predicate HolderStep(step: Step) {
    step.Close? || step.Spawn? || step.Spawned? || step.Join? || step.Drain? || step.Exit?
  }

  lemma ExclusiveKept(s: State, step: Step)
    requires Shaped(s) && Exclusive(s) && Enabled(s, step) && !Releases(step)
    ensures Exclusive(Apply(s, step))
    ensures step.Close? ==> !s.closed
    ensures HolderStep(step) ==> s.holder == Some(step.i)
  {
    if HolderStep(step) {
      HolderIsExclusive(s, step);
    } else if step.Lock? {
      LockIsExclusive(s, step);
    } else {
      OthersAreExclusive(s, step);
    }
    hide *;
  }

  lemma HolderIsExclusive(s: State, step: Step)
    requires Shaped(s) && Exclusive(s) && Enabled(s, step) && !Releases(step) && HolderStep(step)
    ensures Exclusive(Apply(s, step)) && s.holder == Some(step.i)
    ensures step.Close? ==> !s.closed
  {
    hide HasTasks;
    assert s.holder == Some(step.i);
  }

  lemma LockIsExclusive(s: State, step: Step)
    requires Shaped(s) && Exclusive(s) && Enabled(s, step) && step.Lock?
    ensures Exclusive(Apply(s, step))
  {
    hide HasTasks;
  }

  lemma OthersAreExclusive(s: State, step: Step)
    requires Shaped(s) && Exclusive(s) && Enabled(s, step) && !HolderStep(step) && !step.Lock?
    ensures Exclusive(Apply(s, step))
  {
    hide HasTasks;
  }

  lemma InvKept(s: State, step: Step)
    requires Inv(s) && Enabled(s, step) && !Releases(step)
    ensures Inv(Apply(s, step))
    ensures Apply(s, step).ending == Panicked <==> BadPreStop(step)
  {
    hide HooksFit, Orderly, Exclusive, Counted;
    CountedKept(s, step);
    ExclusiveKept(s, step);
    if step.Begin? || step.Finish? || step.Drain? {
      LoggedFits(s, step);
    } else if step.PreStop? {
      RegisteredFits(s, step);
    } else {
      MovedFits(s, step);
    }
    PanicOnly(s, step);
    hide Apply, Enabled;
  }

  lemma PanicOnly(s: State, step: Step)
    requires Shaped(s) && Enabled(s, step) && CountsDown(s, step) && (step.Close? ==> !s.closed)
    ensures Apply(s, step).ending == Panicked <==> BadPreStop(step)
  {
    hide HasTasks;
  }

  lemma LoggedFits(s: State, step: Step)
    requires Exclusive(s) && Fits(s) && Enabled(s, step) && (HolderStep(step) ==> s.holder == Some(step.i))
    requires step.Begin? || step.Finish? || step.Drain?
    ensures Fits(Apply(s, step))
  {
    hide HooksFit, Orderly, HasTasks;
    var pc, i := Active(s), Holder(s);
    match step
    case Begin(t) =>
      BeginKeeps(s.registered, s.created, s.running, s.log, pc, i, t);
      LogGrows(s.registered, s.log, Begun(t.hook));
    case Finish(t) =>
      FinishKeeps(s.registered, s.created, s.running, s.log, pc, i, t);
      LogGrows(s.registered, s.log, Ended(t.hook));
    case Drain(_) =>
      DrainHasNoTasks(s.registered, s.created, s.running, s.log, pc, i);
      DrainKeeps(s.registered, s.log, pc, i);
      LogGrows(s.registered, s.log, SeenZero(pc.level));
  }

  lemma RegisteredFits(s: State, step: Step)
    requires Exclusive(s) && Fits(s) && Enabled(s, step) && step.PreStop?
    ensures Fits(Apply(s, step))
  {
    hide HooksFit, Orderly;
    if step.level < LEVELS {
      RegisterKeeps(s.registered, Apply(s, step).registered, s.log, s.created, s.running);
    }
  }

  lemma MovedFits(s: State, step: Step)
    requires Exclusive(s) && Fits(s) && Enabled(s, step) && (HolderStep(step) ==> s.holder == Some(step.i))
    requires !step.Begin? && !step.Finish? && !step.Drain? && !step.PreStop? && !Releases(step)
    requires step.Close? ==> !s.closed
    ensures Fits(Apply(s, step))
  {
    hide HooksFit, Orderly;
    var pc, i := Active(s), Holder(s);
    match step
    case Lock(k) => LockKeeps(s.registered, s.created, s.running, s.log, i, k);
    case Close(_) => CloseKeeps(s.registered, s.created, s.running, s.log, i);
    case Spawn(_) => SpawnKeeps(s.registered, s.created, s.running, s.log, pc, i);
    case Spawned(_) => SpawnedKeeps(s.registered, s.created, s.running, s.log, pc, i);
    case Join(_) => JoinKeeps(s);
    case _ =>
  }

  /** An exit function returns, and with it safeStop, which releases the mutex. */
  predicate Releases(step: Step) {
    step.Exit? && step.goesOn
  }

  /** While a stopper holds the mutex, no hook is registered. */
  lemma LockedKept(s: State, step: Step)
    requires Shaped(s) && Exclusive(s) && Enabled(s, step) && !Releases(step) && s.holder.Some?
    ensures Apply(s, step).holder == s.holder && Apply(s, step).registered == s.registered
  {
    hide HasTasks;
  }

  // ----- after an exit function has returned

  /** One stopper is through. The others wait, but for one that may hold the mutex. Nothing of the
      shutdown is left, and stopCh is closed. */
  ghost predicate Over(s: State) {
    && Counted(s) && !s.exits && s.closed && s.created == {} && s.running == {} && s.ending != Drained
    && (exists g :: OnlyGone(s.stoppers, g))
    && match s.holder
       case None => forall i :: 0 <= i < |s.stoppers| ==> s.stoppers[i] == Gone || s.stoppers[i] == Waiting
       case Some(k) =>
         && k < |s.stoppers| && s.stoppers[k] == Closing
         && forall i :: 0 <= i < |s.stoppers| && i != k ==> s.stoppers[i] == Gone || s.stoppers[i] == Waiting
  }

  ghost predicate OnlyGone(stoppers: seq<Pc>, g: nat) {
    g < |stoppers| && forall i :: 0 <= i < |stoppers| ==> (stoppers[i] == Gone <==> i == g)
  }

  /** Every hook in `taken` has ended, level by level, and nothing else has begun. */
  ghost predicate Settled(taken: seq<nat>, log: seq<Event>) {
    |taken| == LEVELS && Orderly(taken, log) && DoneAbove(taken, log, -1)
  }

  lemma ReleaseIsOver(s: State, step: Step)
    requires Inv(s) && Enabled(s, step) && Releases(step)
    ensures var s' := Apply(s, step);
            Over(s') && s'.ending == Live && s'.log == s.log && s'.stoppers == s.stoppers[step.i := Gone]
    ensures Settled(s.registered, s.log)
  {
    hide Orderly, LevelDone;
    CountedKept(s, step);
    assert Active(s) == Leaving;
    hide Counted;
    assert OnlyGone(Apply(s, step).stoppers, step.i);
  }

  /** From then on nothing is logged any more, and the one thing that can go wrong, apart from a PreStop
      beyond the highest level, is that the next stopper closes stopCh again. */
  lemma OverKept(s: State, step: Step)
    requires Over(s) && Enabled(s, step)
    ensures Over(Apply(s, step)) && Apply(s, step).log == s.log
    ensures Apply(s, step).ending == Panicked <==> step.Close? || BadPreStop(step)
    ensures step.Close? ==> |s.stoppers| >= 2
  {
    CountedKept(s, step);
    hide Counted;
    OverStep(s, step);
  }

  lemma OverStep(s: State, step: Step)
    requires Over(s) && Enabled(s, step) && Counted(Apply(s, step)) && CountsDown(s, step)
    ensures Over(Apply(s, step)) && Apply(s, step).log == s.log
    ensures Apply(s, step).ending == Panicked <==> step.Close? || BadPreStop(step)
    ensures step.Close? ==> |s.stoppers| >= 2
  {
    hide Counted, HasTasks;
    var g: nat :| OnlyGone(s.stoppers, g);
    assert OnlyGone(Apply(s, step).stoppers, g);
  }

  // ----- every run

  predicate BadPreStop(step: Step) {
    step.PreStop? && step.level >= LEVELS
  }

  ghost predicate HasBadPreStop(steps: seq<Step>) {
    exists i :: 0 <= i < |steps| && BadPreStop(steps[i])
  }

  lemma BadPreStopLater(steps: seq<Step>)
    requires steps != [] && HasBadPreStop(steps[1..])
    ensures HasBadPreStop(steps)
  {
    var i :| 0 <= i < |steps[1..]| && BadPreStop(steps[1..][i]);
    assert BadPreStop(steps[i + 1]);
  }

  /** The hooks that were registered when the mutex was first taken by a stopper, or are now. */
  function HooksTaken(s: State, steps: seq<Step>): seq<nat>
    requires IsRun(s, steps)
    decreases |steps|
  {
    if steps == [] || s.holder.Some? then s.registered else HooksTaken(Apply(s, steps[0]), steps[1..])
  }

  /** How often safeStop is called. */
  function StopCalls(steps: seq<Step>): nat
    decreases |steps|
  {
    if steps == [] then 0
    else (if steps[0].SafeStop? || steps[0].EnterSafeStop? then 1 else 0) + StopCalls(steps[1..])
  }

  lemma NothingAfterEnd(s: State, steps: seq<Step>)
    requires s.ending != Live && IsRun(s, steps)
    ensures steps == [] && End(s, steps) == s
  {
  }

  lemma StepAddsCall(s: State, step: Step)
    requires Enabled(s, step)
    ensures |Apply(s, step).stoppers| == |s.stoppers| + StopCalls([step])
    ensures Apply(s, step).exits == s.exits
  {
    hide HasTasks;
  }

  /** Every call of safeStop is a stopper. */
  lemma {:induction false} StoppersAreCalls(s: State, steps: seq<Step>)
    requires IsRun(s, steps)
    ensures |End(s, steps).stoppers| == |s.stoppers| + StopCalls(steps) && End(s, steps).exits == s.exits
    decreases |steps|
  {
    hide Enabled, Apply;
    if steps != [] {
      StepAddsCall(s, steps[0]);
      StoppersAreCalls(Apply(s, steps[0]), steps[1..]);
    }
  }

  lemma {:induction false} RunStaysOver(s: State, steps: seq<Step>)
    requires Over(s) && s.ending != Panicked && IsRun(s, steps)
    ensures Over(End(s, steps)) && End(s, steps).log == s.log
    ensures End(s, steps).ending == Panicked ==> HasBadPreStop(steps) || |End(s, steps).stoppers| >= 2
    decreases |steps|
  {
    if steps != [] {
      hide Over, Enabled, Apply;
      var next := Apply(s, steps[0]);
      OverKept(s, steps[0]);
      StepAddsCall(s, steps[0]);
      if next.ending == Panicked {
        NothingAfterEnd(next, steps[1..]);
        assert BadPreStop(steps[0]) ==> HasBadPreStop(steps);
      } else {
        RunStaysOver(next, steps[1..]);
        if HasBadPreStop(steps[1..]) { BadPreStopLater(steps); }
      }
    }
  }

  /** What holds at the end of a run: the invariant, or what follows the return of an exit function. */
  ghost predicate SafeEnd(end: State, taken: seq<nat>, steps: seq<Step>) {
    || (Inv(end) && taken == end.registered && (end.ending == Panicked ==> HasBadPreStop(steps)))
    || (Over(end) && Settled(taken, end.log)
        && (end.ending == Panicked ==> HasBadPreStop(steps) || |end.stoppers| >= 2))
  }

  lemma SafeEndLater(end: State, taken: seq<nat>, steps: seq<Step>)
    requires steps != [] && SafeEnd(end, taken, steps[1..])
    ensures SafeEnd(end, taken, steps)
  {
    hide Inv, Over, Settled;
    if HasBadPreStop(steps[1..]) { BadPreStopLater(steps); }
  }

  lemma {:induction false} RunIsSafe(s: State, steps: seq<Step>)
    requires Inv(s) && s.ending != Panicked && IsRun(s, steps)
    ensures SafeEnd(End(s, steps), HooksTaken(s, steps), steps)
    decreases |steps|
  {
    hide Inv, Over, Settled, Enabled, Apply;
    if steps != [] {
      var next := Apply(s, steps[0]);
      if Releases(steps[0]) {
        ReleasedRunIsSafe(s, steps);
      } else {
        InvKept(s, steps[0]);
        TakenNext(s, steps);
        hide HooksTaken, SafeEnd;
        if next.ending == Panicked {
          PanickedRunIsSafe(next, steps);
        } else {
          RunIsSafe(next, steps[1..]);
          SafeEndLater(End(s, steps), HooksTaken(s, steps), steps);
        }
      }
    }
  }

  lemma ReleasedRunIsSafe(s: State, steps: seq<Step>)
    requires Inv(s) && IsRun(s, steps) && steps != [] && Releases(steps[0])
    ensures SafeEnd(End(s, steps), HooksTaken(s, steps), steps)
  {
    hide Inv, Over, Settled, Enabled, Apply, IsRun;
    RunStarts(s, steps);
    ReleaseIsOver(s, steps[0]);
    ReleaseNeedsLock(s, steps[0]);
    RunStaysOver(Apply(s, steps[0]), steps[1..]);
    if HasBadPreStop(steps[1..]) { BadPreStopLater(steps); }
  }

  lemma PanickedRunIsSafe(s: State, steps: seq<Step>)
    requires Inv(s) && s.ending == Panicked && steps != [] && BadPreStop(steps[0]) && IsRun(s, steps[1..])
    ensures SafeEnd(End(s, steps[1..]), HooksTaken(s, steps[1..]), steps)
  {
    hide Inv, Over;
    NothingAfterEnd(s, steps[1..]);
    assert HasBadPreStop(steps);
  }

  lemma RunStarts(s: State, steps: seq<Step>)
    requires IsRun(s, steps) && steps != []
    ensures Enabled(s, steps[0]) && IsRun(Apply(s, steps[0]), steps[1..])
    ensures End(s, steps) == End(Apply(s, steps[0]), steps[1..])
  {
    hide Enabled, Apply;
  }

  lemma ReleaseNeedsLock(s: State, step: Step)
    requires Inv(s) && Enabled(s, step) && Releases(step)
    ensures s.holder.Some?
  {
  }

  lemma TakenNext(s: State, steps: seq<Step>)
    requires steps != [] && IsRun(s, steps) && Inv(s) && !Releases(steps[0])
    ensures HooksTaken(s, steps) == HooksTaken(Apply(s, steps[0]), steps[1..])
  {
    hide Apply, Enabled;
    if s.holder.Some? { LockedKept(s, steps[0]); }
  }

  /** Over every run, under every interleaving, whether exit functions return or not:
      - of the hooks that were registered when safeStop first took the mutex, and of these only, each
        begins when all hooks and counters above its level are through;
      - the counter of level 1 counts the actors that are still to be interrupted on top of other work,
        and the group enters its own SafeStop when none of them is left;
      - when the process has exited after a drain, or an exit function has returned, all these hooks
        have begun and ended, and hooks that were registered later never begin;
      - stopCh is closed twice only if safeStop is called twice and an exit function returns. */
  lemma RunsAreSafe(exits: bool, steps: seq<Step>)
    requires IsRun(Initial(exits), steps)
    ensures var s, taken := End(Initial(exits), steps), HooksTaken(Initial(exits), steps);
            && Orderly(taken, s.log) && |taken| == LEVELS
            && Shaped(s) && s.count[ACTOR_LEVEL] == s.work[ACTOR_LEVEL] + s.actors - Interrupted(s)
            && (s.phase == Stopping ==> s.count[ACTOR_LEVEL] == s.work[ACTOR_LEVEL])
            && (s.ending == Drained || Gone in s.stoppers ==>
                  forall l :: 0 <= l < LEVELS ==> LevelDone(taken, s.log, l))
            && (Gone !in s.stoppers ==> taken == s.registered)
            && (s.ending == Panicked ==>
                  HasBadPreStop(steps) || (!exits && Gone in s.stoppers && StopCalls(steps) >= 2))
  {
    hide *;
    InitialInv(exits);
    RunIsSafe(Initial(exits), steps);
    StoppersAreCalls(Initial(exits), steps);
    SafeEndMeans(End(Initial(exits), steps), HooksTaken(Initial(exits), steps), steps);
  }

  lemma SafeEndMeans(s: State, taken: seq<nat>, steps: seq<Step>)
    requires SafeEnd(s, taken, steps)
    ensures Orderly(taken, s.log) && |taken| == LEVELS && Shaped(s)
    ensures s.count[ACTOR_LEVEL] == s.work[ACTOR_LEVEL] + s.actors - Interrupted(s)
    ensures s.phase == Stopping ==> s.count[ACTOR_LEVEL] == s.work[ACTOR_LEVEL]
    ensures s.ending == Drained || Gone in s.stoppers ==> forall l :: 0 <= l < LEVELS ==> LevelDone(taken, s.log, l)
    ensures Gone !in s.stoppers ==> taken == s.registered
    ensures s.ending == Panicked ==>
      HasBadPreStop(steps) || (!s.exits && Gone in s.stoppers && |s.stoppers| >= 2)
  {
    hide Inv, Over, Settled, Orderly, LevelDone, HasBadPreStop, Shaped, Interrupted;
    if Inv(s) { InvMeans(s); }
    if Over(s) && Settled(taken, s.log) { OverMeans(s, taken); }
  }

  lemma InvMeans(s: State)
    requires Inv(s)
    ensures Orderly(s.registered, s.log) && |s.registered| == LEVELS && Shaped(s) && Gone !in s.stoppers
    ensures s.count[ACTOR_LEVEL] == s.work[ACTOR_LEVEL] + s.actors - Interrupted(s)
    ensures s.phase == Stopping ==> s.count[ACTOR_LEVEL] == s.work[ACTOR_LEVEL]
    ensures s.ending == Drained ==> forall l :: 0 <= l < LEVELS ==> LevelDone(s.registered, s.log, l)
  {
    hide LevelDone, Orderly;
    assert CountedAt(s, ACTOR_LEVEL);
    if s.ending == Drained { assert DoneAbove(s.registered, s.log, -1); }
  }

  lemma OverMeans(s: State, taken: seq<nat>)
    requires Over(s) && Settled(taken, s.log)
    ensures Orderly(taken, s.log) && |taken| == LEVELS && Shaped(s) && Gone in s.stoppers && !s.exits
    ensures s.count[ACTOR_LEVEL] == s.work[ACTOR_LEVEL] + s.actors - Interrupted(s)
    ensures s.phase == Stopping ==> s.count[ACTOR_LEVEL] == s.work[ACTOR_LEVEL]
    ensures forall l :: 0 <= l < LEVELS ==> LevelDone(taken, s.log, l)
  {
    hide LevelDone, Orderly;
    assert CountedAt(s, ACTOR_LEVEL);
    var g: nat :| OnlyGone(s.stoppers, g);
    assert s.stoppers[g] == Gone;
  }

  /** Before a hook begins, each hook above it has ended, and after that the counter of that level has
      been seen at zero. */
  lemma HigherLevelsFirst(registered: seq<nat>, log: seq<Event>, p: nat, h: Hook, higher: Hook)
    requires Orderly(registered, log) && p < |log| && log[p] == Begun(h)
    requires h.level < higher.level < |registered| && higher.index < registered[higher.level]
    ensures exists q, z :: 0 <= q < z < p && log[q] == Ended(higher) && log[z] == SeenZero(higher.level)
  {
    assert MayFollow(registered, log[..p], log[p]);
    assert LevelDone(registered, log[..p], higher.level);
    var z :| 0 <= z < |log[..p]| && log[..p][z] == SeenZero(higher.level);
    assert MayFollow(registered, log[..z], log[z]);
    assert higher == Hook(higher.level, higher.index);
    var q :| 0 <= q < |log[..z]| && log[..z][q] == Ended(higher);
  }

  /** Hooks begin once and end once at most, and they begin before they end. */
  lemma HooksRunOnce(registered: seq<nat>, log: seq<Event>, p: nat, q: nat, h: Hook)
    requires Orderly(registered, log) && p < |log| && q < |log|
    ensures log[p] == log[q] == Begun(h) ==> p == q
    ensures log[p] == log[q] == Ended(h) ==> p == q
    ensures log[p] == Ended(h) ==> exists b :: 0 <= b < p && log[b] == Begun(h)
  {
    assert MayFollow(registered, log[..p], log[p]) && MayFollow(registered, log[..q], log[q]);
    assert p < q ==> log[p] in log[..q];
    assert q < p ==> log[q] in log[..p];
    if log[p] == Ended(h) {
      var b :| 0 <= b < |log[..p]| && log[..p][b] == Begun(h);
    }
  }
}
