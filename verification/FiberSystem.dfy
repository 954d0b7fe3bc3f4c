/**
 * Worker threads, fibers, the task queue and the pending events and timers as one interleaved
 * system. Every label is one atomic step of one thread: a locked section, one update of a
 * fiber's state, one context switch or one counter update of Scheduler::run, Fiber and IOhook.
 */
module FiberSystem {
  import opened Basics
  import opened Scheduler
  import opened EventTable
  import opened Timers

  /** What a waiter waits for. */
  datatype Source = OnEvent(fd: nat, event: Event) | OnTimer(timer: nat)

  /**
   * Where a worker is in Scheduler::run. `own` tells that the fiber is the thread's callback
   * fiber, `armed` that the running fiber has handed out a wake-up since it was resumed.
   */
  datatype Pc =
    | Scan                                          // before the scan of the queue
    | Callback(cb: nat)                             // took a callback
    | Enter(fiber: nat, own: bool)                  // about to swap in
    | Run(fiber: nat, own: bool, armed: bool)       // the fiber's code runs
    | Leave(fiber: nat, own: bool)                  // the fiber has set its state, not switched yet
    | Post(fiber: nat, own: bool)                   // back in run, still counted as active
    | Fix(fiber: nat, own: bool)                    // no longer counted, state not yet fixed up
    | Idle                                          // in the idle fiber
    | Done                                          // run has returned

  datatype Thread = Thread(pc: Pc, cbFiber: Option<nat>, idleOver: bool)

  datatype System = System(
    fibers: seq<Fiber>,
    threads: seq<Thread>,
    queue: seq<Entry>,
    pending: map<Source, Task>,
    active: int,
    stop: bool)

  datatype Label =
    | SpawnFiber(pin: Option<nat>)
    | SpawnCallback(cb: nat, pin: Option<nat>)
    | Take(thread: nat, at: nat)
    | Discard(thread: nat)
    | StartCallback(thread: nat)
    | SwapIn(thread: nat)
    | Arm(thread: nat, source: Source)
    | Register(source: Source, cb: nat)
    | Fire(source: Source)
    | Repeat(source: Source)
    | Forget(source: Source)
    | YieldToReady(thread: nat)
    | Finish(thread: nat, ok: bool)
    | YieldToHold(thread: nat)
    | SwapOut(thread: nat)
    | Release(thread: nat)
    | Settle(thread: nat)
    | GoIdle(thread: nat)
    | WakeIdle(thread: nat)
    | QuitIdle(thread: nat, wait: nat, events: int)
    | Exit(thread: nat)
    | RequestStop

  predicate Finished(s: State) {
    s == TERM || s == EXCEPT
  }

  predicate HasFiber(pc: Pc) {
    pc.Enter? || pc.Run? || pc.Leave? || pc.Post? || pc.Fix?
  }

  /** Between taking a task and giving up the active count. */
  predicate Busy(pc: Pc) {
    pc.Callback? || pc.Enter? || pc.Run? || pc.Leave? || pc.Post?
  }

  /**
   * IOManager::stopping, evaluated in one step: `wait` is what getNextTimer answers and `events`
   * the pending event count.
   */
  predicate Stopping(s: System, wait: nat, events: int) {
    wait == U64 - 1 && events == 0 && s.stop && s.queue == [] && s.active == 0
  }

  ghost predicate At(s: System, t: nat) {
    t < |s.threads|
  }

  /** The fiber named by the program counter exists. */
  ghost predicate On(s: System, t: nat) {
    t < |s.threads| && HasFiber(s.threads[t].pc) && s.threads[t].pc.fiber < |s.fibers|
  }

  /** The branch conditions of the code, and nothing else. */
  ghost predicate Enabled(s: System, l: Label) {
    match l
    case SpawnFiber(_) => true
    case SpawnCallback(_, _) => true
    case Take(t, i) => At(s, t) && s.threads[t].pc == Scan && i < |s.queue| && IsFirst(s.queue, t, s.fibers, i)
    case Discard(t) =>
      On(s, t) && s.threads[t].pc.Enter? && !s.threads[t].pc.own && Finished(s.fibers[s.threads[t].pc.fiber].state)
    case StartCallback(t) =>
      At(s, t) && s.threads[t].pc.Callback? && (s.threads[t].cbFiber.Some? ==> s.threads[t].cbFiber.value < |s.fibers|)
    case SwapIn(t) =>
      On(s, t) && s.threads[t].pc.Enter? && (s.threads[t].pc.own || !Finished(s.fibers[s.threads[t].pc.fiber].state))
    case Arm(t, src) => On(s, t) && s.threads[t].pc.Run? && src !in s.pending
    case Register(src, _) => src !in s.pending
    case Fire(src) => src in s.pending
    case Repeat(src) => src in s.pending && src.OnTimer? && s.pending[src].CallbackTask?
    case Forget(src) => src in s.pending
    case YieldToReady(t) => On(s, t) && s.threads[t].pc.Run?
    case Finish(t, _) => On(s, t) && s.threads[t].pc.Run?
    case YieldToHold(t) => On(s, t) && s.threads[t].pc.Run?
    case SwapOut(t) => On(s, t) && s.threads[t].pc.Leave?
    case Release(t) => On(s, t) && s.threads[t].pc.Post?
    case Settle(t) => On(s, t) && s.threads[t].pc.Fix?
    case GoIdle(t) =>
      At(s, t) && s.threads[t].pc == Scan && !s.threads[t].idleOver && IsFirst(s.queue, t, s.fibers, |s.queue|)
    case WakeIdle(t) => At(s, t) && s.threads[t].pc == Idle
    case QuitIdle(t, wait, events) => At(s, t) && s.threads[t].pc == Idle && Stopping(s, wait, events)
    case Exit(t) =>
      At(s, t) && s.threads[t].pc == Scan && s.threads[t].idleOver && IsFirst(s.queue, t, s.fibers, |s.queue|)
    case RequestStop => true
  }

  /**
   * What fibers must do: hand out at most one wake-up at a time; with one out, not call
   * YieldToReady, and not finish while they are some thread's callback fiber.
   */
  ghost predicate Disciplined(s: System, l: Label) {
    match l
    case Arm(t, _) => !(On(s, t) && s.threads[t].pc.Run? && s.threads[t].pc.armed)
    case YieldToReady(t) => !(On(s, t) && s.threads[t].pc.Run? && s.threads[t].pc.armed)
    case Finish(t, _) => !(On(s, t) && s.threads[t].pc.Run? && s.threads[t].pc.armed && s.threads[t].pc.own)
    case _ => true
  }

  /** The thread goes to `pc`. */
  function Goto(s: System, t: nat, pc: Pc): System
    requires t < |s.threads|
  {
    s.(threads := s.threads[t := s.threads[t].(pc := pc)])
  }

  /** The thread goes to `pc` and the fiber becomes `r`. */
  function Switch(s: System, t: nat, pc: Pc, f: nat, r: Fiber): System
    requires t < |s.threads| && f < |s.fibers|
  {
    Goto(s, t, pc).(fibers := s.fibers[f := r])
  }

  function Push(s: System, task: Task, pin: Option<nat>): System {
    s.(queue := s.queue + [Entry(task, pin)])
  }

  /** The end of the loop body in run, by the state the fiber was left in. */
  function Settled(s: System, t: nat): System
    requires t < |s.threads| && s.threads[t].pc.Fix? && s.threads[t].pc.fiber < |s.fibers|
  {
    var f, own := s.threads[t].pc.fiber, s.threads[t].pc.own;
    var r := s.fibers[f];
    var gone := s.(threads := s.threads[t := s.threads[t].(pc := Scan, cbFiber := if own then None else s.threads[t].cbFiber)]);
    if r.state == READY then
      Push(gone, FiberTask(f), None)
    else if Finished(r.state) then
      if own then Switch(s, t, Scan, f, Fiber(INIT, true)) else Goto(s, t, Scan)
    else
      gone.(fibers := s.fibers[f := r.(state := HOLD)])
  }

  ghost function Next(s: System, l: Label): System
    requires Enabled(s, l)
  {
    match l
    case SpawnFiber(pin) => Push(s.(fibers := s.fibers + [Fiber(INIT, true)]), FiberTask(|s.fibers|), pin)
    case SpawnCallback(c, pin) => Push(s, CallbackTask(c), pin)
    case Take(t, i) =>
      var task := s.queue[i].task;
      Goto(s, t, if task.FiberTask? then Enter(task.fiber, false) else Callback(task.cb))
      .(queue := Without(s.queue, i), active := s.active + 1)
    case Discard(t) => Goto(s, t, Scan).(active := s.active - 1)
    case StartCallback(t) =>
      var g := s.threads[t].cbFiber;
      if g.Some? then Switch(s, t, Enter(g.value, true), g.value, Fiber(INIT, true))
      else
        var n := |s.fibers|;
        s.(fibers := s.fibers + [Fiber(INIT, true)],
           threads := s.threads[t := s.threads[t].(pc := Enter(n, true), cbFiber := Some(n))])
    case SwapIn(t) =>
      var pc := s.threads[t].pc;
      Switch(s, t, Run(pc.fiber, pc.own, false), pc.fiber, Fiber(EXEC, false))
    case Arm(t, src) =>
      var pc := s.threads[t].pc;
      Goto(s, t, pc.(armed := true)).(pending := s.pending[src := FiberTask(pc.fiber)])
    case Register(src, c) => s.(pending := s.pending[src := CallbackTask(c)])
    case Fire(src) => Push(s.(pending := s.pending - {src}), s.pending[src], None)
    case Repeat(src) => Push(s, s.pending[src], None)
    case Forget(src) => s.(pending := s.pending - {src})
    case YieldToReady(t) =>
      var pc := s.threads[t].pc;
      Switch(s, t, Leave(pc.fiber, pc.own), pc.fiber, s.fibers[pc.fiber].(state := READY))
    case Finish(t, ok) =>
      var pc := s.threads[t].pc;
      Switch(s, t, Leave(pc.fiber, pc.own), pc.fiber, s.fibers[pc.fiber].(state := if ok then TERM else EXCEPT))
    case YieldToHold(t) =>
      var pc := s.threads[t].pc;
      Switch(s, t, Post(pc.fiber, pc.own), pc.fiber, s.fibers[pc.fiber].(saved := true))
    case SwapOut(t) =>
      var pc := s.threads[t].pc;
      Switch(s, t, Post(pc.fiber, pc.own), pc.fiber, s.fibers[pc.fiber].(saved := true))
    case Release(t) =>
      var pc := s.threads[t].pc;
      Goto(s, t, Fix(pc.fiber, pc.own)).(active := s.active - 1)
    case Settle(t) => Settled(s, t)
    case GoIdle(t) => Goto(s, t, Idle)
    case WakeIdle(t) => Goto(s, t, Scan)
    case QuitIdle(t, _, _) => s.(threads := s.threads[t := s.threads[t].(pc := Scan, idleOver := true)])
    case Exit(t) => Goto(s, t, Done)
    case RequestStop => s.(stop := true)
  }

  function Start(n: nat): System {
    System([], seq(n, _ => Thread(Scan, None, false)), [], map[], 0, false)
  }

  /** The state after a run of enabled, disciplined steps, if it is one. */
  ghost function After(n: nat, run: seq<Label>): Option<System> {
    if run == [] then Some(Start(n))
    else
      var s := After(n, run[..|run| - 1]);
      var l := run[|run| - 1];
      if s.Some? && Enabled(s.value, l) && Disciplined(s.value, l) then Some(Next(s.value, l)) else None
  }
}
