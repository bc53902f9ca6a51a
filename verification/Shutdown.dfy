/** The protocol of signals/signal.go and wrapper/run.go as a state machine. Every call of safeStop is a
    `stopper`; all of them share one mutex, one stop channel and one counter for each level. The log
    records, in order, when hooks begin and end and when a wait for a counter returns. */
module Shutdown {
  import opened Wrappers

  const LEVELS: nat := 32       // LevelMax + 1
  const ACTOR_LEVEL: nat := 1   // the level whose counter Group.Add and its interrupt functions change

  /** The index-th function that was registered for a level. */
  datatype Hook = Hook(level: nat, index: nat)

  datatype Event = Begun(hook: Hook) | Ended(hook: Hook) | SeenZero(level: nat)

  /** Where a call of safeStop is. */
  datatype Pc =
    | Waiting                            // for the mutex
    | Closing                            // holds it and is about to close stopCh
    | Spawning(level: nat, next: nat)    // has started the goroutines of the hooks before `next`
    | Joining(level: nat)                // wg.Wait()
    | Draining(level: nat)               // WaitFor(level)
    | Leaving                            // about to call exitFunc
    | Gone                               // exitFunc has returned, and the mutex is released

  /** A goroutine started by a stopper. */
  datatype Task = Task(stopper: nat, hook: Hook)

  /** The actor group: being built; running; interrupting actor `next`; inside its own SafeStop. */
  datatype Phase = Building | Executing | Interrupting(next: nat) | Stopping

  datatype Ending = Live | Drained | TimedOut | Panicked

  datatype State = State(
    exits: bool,            // every exitFunc ends the process, as os.Exit does; otherwise each call may return
    registered: seq<nat>,   // how many hooks each level has
    work: seq<nat>,         // what AddFor has counted for each level and DoneFor has not yet taken back
    count: seq<nat>,        // the wait group of each level
    stoppers: seq<Pc>,
    holder: Option<nat>,    // the stopper that holds the mutex
    closed: bool,           // stopCh
    created: set<Task>,     // goroutines whose hook has not begun
    running: set<Task>,     // goroutines whose hook has not ended
    actors: nat,
    phase: Phase,
    log: seq<Event>,
    ending: Ending)

  datatype Step =
    // calls from outside
    | PreStop(level: nat)
    | AddFor(level: nat, delta: nat)
    | SafeStop
    | AddActor
    // the protocol at work
    | Lock(i: nat)
    | Close(i: nat)
    | Spawn(i: nat)
    | Spawned(i: nat)
    | Begin(task: Task)
    | Finish(task: Task)
    | Join(i: nat)
    | Drain(i: nat)
    | Exit(i: nat, goesOn: bool)
    | Timeout(i: nat, goesOn: bool)
    | DoneFor(level: nat)
    | RunGroup
    | ActorReturns
    | Interrupt
    | EnterSafeStop

  predicate FromOutside(step: Step) {
    step.PreStop? || step.AddFor? || step.SafeStop? || step.AddActor?
  }

  function Zeros(n: nat): (z: seq<nat>)
    ensures |z| == n && forall i :: 0 <= i < n ==> z[i] == 0
  {
    seq(n, _ => 0)
  }

  /** SetupSignalHandler, before any call. */
  function Initial(exits: bool): State {
    State(exits, Zeros(LEVELS), Zeros(LEVELS), Zeros(LEVELS), [], None, false, {}, {}, 0, Building, [], Live)
  }

  predicate Shaped(s: State) {
    |s.registered| == |s.work| == |s.count| == LEVELS
  }

  predicate LevelInRange(pc: Pc) {
    (pc.Spawning? || pc.Joining? || pc.Draining?) ==> pc.level < LEVELS
  }

  predicate HasTasks(s: State, i: nat) {
    exists t :: t in s.created + s.running && t.stopper == i
  }

  /** When a step can be taken. PreStop waits for the mutex, unless it panics before. Callers do not
      take back more than they have counted. */
  predicate Enabled(s: State, step: Step) {
    && Shaped(s) && s.ending == Live
    && match step
       case PreStop(level) => level < LEVELS ==> s.holder == None
       case AddFor(level, _) => level < LEVELS
       case SafeStop => true
       case AddActor => s.phase == Building
       case Lock(i) => i < |s.stoppers| && s.stoppers[i] == Waiting && s.holder == None
       case Close(i) => i < |s.stoppers| && s.stoppers[i] == Closing
       case Spawn(i) =>
         && i < |s.stoppers| && s.stoppers[i].Spawning? && LevelInRange(s.stoppers[i])
         && s.stoppers[i].next < s.registered[s.stoppers[i].level]
       case Spawned(i) =>
         && i < |s.stoppers| && s.stoppers[i].Spawning? && LevelInRange(s.stoppers[i])
         && s.stoppers[i].next == s.registered[s.stoppers[i].level]
       case Begin(t) => t in s.created
       case Finish(t) => t in s.running
       case Join(i) => i < |s.stoppers| && s.stoppers[i].Joining? && !HasTasks(s, i)
       case Drain(i) =>
         && i < |s.stoppers| && s.stoppers[i].Draining? && LevelInRange(s.stoppers[i])
         && s.count[s.stoppers[i].level] == 0
       case Exit(i, goesOn) => i < |s.stoppers| && s.stoppers[i] == Leaving && !(goesOn && s.exits)
       case Timeout(i, goesOn) => i < |s.stoppers| && !(goesOn && s.exits)
       case DoneFor(level) => level < LEVELS && s.work[level] > 0
       case RunGroup => s.phase == Building
       case ActorReturns => s.phase == Executing && (s.actors > 0 || s.closed)
       case Interrupt => s.phase.Interrupting? && s.phase.next < s.actors
       case EnterSafeStop => s.phase.Interrupting? && s.phase.next == s.actors
  }

  function At(s: State, i: nat, pc: Pc): State
    requires i < |s.stoppers|
  {
    s.(stoppers := s.stoppers[i := pc])
  }

  function Apply(s: State, step: Step): State
    requires Enabled(s, step)
  {
    match step
    case PreStop(level) =>
      if level >= LEVELS then s.(ending := Panicked)
      else s.(registered := s.registered[level := s.registered[level] + 1])
    case AddFor(level, delta) =>
      s.(work := s.work[level := s.work[level] + delta], count := s.count[level := s.count[level] + delta])
    case SafeStop => s.(stoppers := s.stoppers + [Waiting])
    case AddActor =>
      s.(actors := s.actors + 1, count := s.count[ACTOR_LEVEL := s.count[ACTOR_LEVEL] + 1])
    case Lock(i) => At(s, i, Closing).(holder := Some(i))
    case Close(i) =>
      if s.closed then s.(ending := Panicked)
      else At(s, i, Spawning(LEVELS - 1, 0)).(closed := true)
    case Spawn(i) =>
      var pc := s.stoppers[i];
      At(s, i, Spawning(pc.level, pc.next + 1)).(created := s.created + {Task(i, Hook(pc.level, pc.next))})
    case Spawned(i) => At(s, i, Joining(s.stoppers[i].level))
    case Begin(t) =>
      s.(created := s.created - {t}, running := s.running + {t}, log := s.log + [Begun(t.hook)])
    case Finish(t) => s.(running := s.running - {t}, log := s.log + [Ended(t.hook)])
    case Join(i) => At(s, i, Draining(s.stoppers[i].level))
    case Drain(i) =>
      var level := s.stoppers[i].level;
      At(s, i, if level == 0 then Leaving else Spawning(level - 1, 0)).(log := s.log + [SeenZero(level)])
    case Exit(i, goesOn) =>
      if goesOn then At(s, i, Gone).(holder := None) else s.(ending := Drained)
    case Timeout(_, goesOn) => if goesOn then s else s.(ending := TimedOut)
    case DoneFor(level) =>
      if s.count[level] == 0 then s.(ending := Panicked)
      else s.(work := s.work[level := s.work[level] - 1], count := s.count[level := s.count[level] - 1])
    case RunGroup => s.(phase := Executing)
    case ActorReturns => s.(phase := Interrupting(0))
    case Interrupt =>
      if s.count[ACTOR_LEVEL] == 0 then s.(ending := Panicked)
      else
        s.(phase := Interrupting(s.phase.next + 1),
           count := s.count[ACTOR_LEVEL := s.count[ACTOR_LEVEL] - 1])
    case EnterSafeStop => s.(phase := Stopping, stoppers := s.stoppers + [Waiting])
  }

  // ----- runs

  predicate IsRun(s: State, steps: seq<Step>)
    decreases |steps|
  {
    steps == [] || (Enabled(s, steps[0]) && IsRun(Apply(s, steps[0]), steps[1..]))
  }

  function End(s: State, steps: seq<Step>): State
    requires IsRun(s, steps)
    decreases |steps|
  {
    if steps == [] then s else End(Apply(s, steps[0]), steps[1..])
  }

  // ----- what a log must look like

  /** Every hook of the level has ended. */
  ghost predicate LevelEnded(registered: seq<nat>, log: seq<Event>, level: nat)
    requires level < |registered|
  {
    forall m: nat {:trigger Hook(level, m)} :: m < registered[level] ==> Ended(Hook(level, m)) in log
  }

  /** Every hook of the level has ended and the wait for its counter has returned. */
  ghost predicate LevelDone(registered: seq<nat>, log: seq<Event>, level: nat)
    requires level < |registered|
  {
    LevelEnded(registered, log, level) && SeenZero(level) in log
  }

  /** e may follow the events in `log`. */
  ghost predicate MayFollow(registered: seq<nat>, log: seq<Event>, e: Event) {
    match e
    case Begun(h) =>
      && e !in log && h.level < |registered| && h.index < registered[h.level]
      && forall j :: h.level < j < |registered| ==> LevelDone(registered, log, j)
    case Ended(h) => e !in log && Begun(h) in log
    case SeenZero(level) => level < |registered| && LevelEnded(registered, log, level)
  }

  /** The whole log: hooks begin at most once, after every hook above has ended and every counter above
      has been seen at zero after that; they end at most once, after they began. */
  ghost predicate Orderly(registered: seq<nat>, log: seq<Event>) {
    forall p :: 0 <= p < |log| ==> MayFollow(registered, log[..p], log[p])
  }
}
