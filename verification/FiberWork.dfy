/**
 * How workers go round the loop of Scheduler::run: which way a thread moves, what a step may
 * change, what a whole turn of the loop does, and when a thread leaves idle and returns.
 */
module FiberWork {
  import opened Basics
  import opened Scheduler
  import opened EventTable
  import opened FiberSystem
  import opened FiberInvariant
  import opened FiberSafety

  /** The thread that makes a step, if a worker makes it. */
  function Worker(l: Label): Option<nat> {
    match l
    case SpawnFiber(_) => None
    case SpawnCallback(_, _) => None
    case Register(_, _) => None
    case Fire(_) => None
    case Repeat(_) => None
    case Forget(_) => None
    case RequestStop => None
    case _ => Some(l.thread)
  }

  /** The loop, from place to place; a fiber on its way through it stays the same. */
  predicate Edge(p: Pc, q: Pc) {
    match p
    case Scan => q.Callback? || (q.Enter? && !q.own) || q.Idle? || q.Done?
    case Callback(_) => q.Enter? && q.own
    case Enter(f, own) => q == Run(f, own, false) || (q == Scan && !own)
    case Run(f, own, _) => q == Run(f, own, true) || q == Leave(f, own) || q == Post(f, own)
    case Leave(f, own) => q == Post(f, own)
    case Post(f, own) => q == Fix(f, own)
    case Fix(_, _) => q == Scan
    case Idle => q == Scan
    case Done => false
  }

  /** Only a thread's own steps move it, and they move it along the loop. */
  lemma MovesAlongLoop(s: System, l: Label, t: nat)
    requires Enabled(s, l) && t < |s.threads|
    ensures |Next(s, l).threads| == |s.threads|
    ensures Worker(l) != Some(t) ==> Next(s, l).threads[t] == s.threads[t]
    ensures Worker(l) == Some(t) ==>
              Edge(s.threads[t].pc, Next(s, l).threads[t].pc) && (!l.Arm? ==> Next(s, l).threads[t].pc != s.threads[t].pc)
  {
    if Worker(l) == Some(t) {
      StepAlongLoop(s, l, t);
    } else {
      OthersStand(s, l, t);
    }
  }

  lemma OthersStand(s: System, l: Label, t: nat)
    requires Enabled(s, l) && t < |s.threads| && Worker(l) != Some(t)
    ensures |Next(s, l).threads| == |s.threads| && Next(s, l).threads[t] == s.threads[t]
  {
  }

  lemma StepAlongLoop(s: System, l: Label, t: nat)
    requires Enabled(s, l) && t < |s.threads| && Worker(l) == Some(t)
    ensures |Next(s, l).threads| == |s.threads| && Edge(s.threads[t].pc, Next(s, l).threads[t].pc)
    ensures !l.Arm? ==> Next(s, l).threads[t].pc != s.threads[t].pc
  {
  }

  // ---------------------------------------------------------------- leaving idle

  /** A thread that leaves idle goes back to the scan, and nothing else changes. */
  lemma LeavesIdleToScan(s: System, l: Label, t: nat)
    requires Enabled(s, l) && t < |s.threads| && s.threads[t].pc == Idle && Next(s, l).threads[t].pc != Idle
    ensures Next(s, l).threads[t].pc == Scan && Next(s, l).threads[t].cbFiber == s.threads[t].cbFiber
    ensures Next(s, l) == s.(threads := Next(s, l).threads)
    ensures forall u :: 0 <= u < |s.threads| && u != t ==> Next(s, l).threads[u] == s.threads[u]
  {
    MovesAlongLoop(s, l, t);
    IdleSteps(s, l, t);
    assert Next(s, l) == s.(threads := s.threads[t := Next(s, l).threads[t]]);
  }

  lemma IdleSteps(s: System, l: Label, t: nat)
    requires Enabled(s, l) && Worker(l) == Some(t) && t < |s.threads| && s.threads[t].pc == Idle
    ensures l.WakeIdle? || l.QuitIdle?
  {
  }

  /** The thread has returned from run, or its idle fiber has ended. */
  predicate OutOfIdle(th: Thread) {
    th.pc == Done || th.idleOver
  }

  lemma IdleOverStep(s: System, l: Label, t: nat)
    requires Enabled(s, l) && t < |s.threads| && OutOfIdle(Next(s, l).threads[t])
    ensures OutOfIdle(s.threads[t]) || (l.QuitIdle? && l.thread == t && Stopping(s, l.wait, l.events))
  {
  }

  /** The step `i` of the run ends the idle fiber of thread `t`, and the stopping test holds then. */
  ghost predicate QuitsAt(n: nat, run: seq<Label>, t: nat, i: nat) {
    && i < |run| && run[i].QuitIdle? && run[i].thread == t
    && After(n, run[..i]).Some? && Stopping(After(n, run[..i]).value, run[i].wait, run[i].events)
  }

  lemma QuitsLater(n: nat, run: seq<Label>, t: nat, i: nat)
    requires run != [] && QuitsAt(n, run[..|run| - 1], t, i)
    ensures QuitsAt(n, run, t, i)
  {
    assert run[..|run| - 1][..i] == run[..i];
  }

  /** In every run, a thread returns, and its idle fiber ends, only after its stopping test held. */
  lemma {:induction false} ReturnsOnlyWhenStopping(n: nat, run: seq<Label>, t: nat) returns (i: nat)
    requires After(n, run).Some? && t < |After(n, run).value.threads| && OutOfIdle(After(n, run).value.threads[t])
    ensures QuitsAt(n, run, t, i)
  {
    var init := run[..|run| - 1];
    var s, l := After(n, init).value, run[|run| - 1];
    MovesAlongLoop(s, l, t);
    IdleOverStep(s, l, t);
    if OutOfIdle(s.threads[t]) {
      i := ReturnsOnlyWhenStopping(n, init, t);
      QuitsLater(n, run, t, i);
    } else {
      i := |run| - 1;
    }
  }

  /** Stopping is only true once it has been requested. */
  lemma {:induction false} StopIsRequested(n: nat, run: seq<Label>)
    requires After(n, run).Some?
    ensures After(n, run).value.stop <==> RequestStop in run
  {
    if run != [] {
      var init := run[..|run| - 1];
      StopIsRequested(n, init);
      assert run == init + [run[|run| - 1]];
      var s, l := After(n, init).value, run[|run| - 1];
      assert Next(s, l).stop <==> s.stop || l == RequestStop;
    }
  }

  /** One worker with nothing to do. */
  function Lone(th: Thread, stop: bool): System {
    System([], [th], [], map[], 0, stop)
  }

  /** Asked to stop, it goes idle, its idle fiber ends, and it returns. */
  lemma WorkerReturns()
    ensures Reachable(1, Lone(Thread(Done, None, true), true))
  {
    GoesIdle();
    var s2 := Lone(Thread(Idle, None, false), true);
    var s3 := Lone(Thread(Scan, None, true), true);
    assert Next(s2, QuitIdle(0, 0xFFFF_FFFF_FFFF_FFFF, 0)) == s3;
    ReachOn(1, s2, QuitIdle(0, 0xFFFF_FFFF_FFFF_FFFF, 0), s3);
    Leaves();
  }

  lemma GoesIdle()
    ensures Reachable(1, Lone(Thread(Idle, None, false), true))
  {
    StartReachable(1);
    var s0, s1 := Lone(Thread(Scan, None, false), false), Lone(Thread(Scan, None, false), true);
    assert Start(1) == s0;
    assert Next(s0, RequestStop) == s1;
    ReachOn(1, s0, RequestStop, s1);
    assert Next(s1, GoIdle(0)) == Lone(Thread(Idle, None, false), true);
    ReachOn(1, s1, GoIdle(0), Lone(Thread(Idle, None, false), true));
  }

  lemma Leaves()
    requires Reachable(1, Lone(Thread(Scan, None, true), true))
    ensures Reachable(1, Lone(Thread(Done, None, true), true))
  {
    var s3 := Lone(Thread(Scan, None, true), true);
    assert Next(s3, Label.Exit(0)) == Lone(Thread(Done, None, true), true);
    ReachOn(1, s3, Label.Exit(0), Lone(Thread(Done, None, true), true));
  }

  // ---------------------------------------------------------------- the queue

  /** The thread may run the entry: it is pinned to it or to none, and its fiber does not execute. */
  predicate MayRun(s: System, t: nat, e: Entry) {
    && (e.pin == None || e.pin == Some(t))
    && !(e.task.FiberTask? && e.task.fiber < |s.fibers| && s.fibers[e.task.fiber].state == EXEC)
  }

  /**
   * A thread takes the first entry it may run, so a task pinned to a thread is taken only by
   * that thread; it goes idle or returns only when there is no entry it may run.
   */
  lemma TakesWhatItMay(s: System, l: Label, t: nat)
    requires Enabled(s, l) && t < |s.threads|
    ensures l.Take? && l.thread == t ==>
              && MayRun(s, t, s.queue[l.at])
              && (forall i :: 0 <= i < l.at ==> !MayRun(s, t, s.queue[i]))
              && Next(s, l).queue == s.queue[..l.at] + s.queue[l.at + 1..]
              && (match s.queue[l.at].task
                  case FiberTask(f) => Next(s, l).threads[t].pc == Enter(f, false)
                  case CallbackTask(c) => Next(s, l).threads[t].pc == Callback(c))
    ensures s.threads[t].pc == Scan && Next(s, l).threads[t].pc in {Idle, Done} ==>
              && (forall i :: 0 <= i < |s.queue| ==> !MayRun(s, t, s.queue[i]))
              && (Next(s, l).threads[t].pc == Done <==> s.threads[t].idleOver)
  {
    assert forall i :: 0 <= i < |s.queue| ==> (Eligible(s.queue[i], t, s.fibers) <==> MayRun(s, t, s.queue[i]));
  }

  /** What a step puts at the end of the queue: new tasks with their pin, everything else unpinned. */
  function Pushed(s: System, l: Label): seq<Entry> {
    match l
    case SpawnFiber(pin) => [Entry(FiberTask(|s.fibers|), pin)]
    case SpawnCallback(c, pin) => [Entry(CallbackTask(c), pin)]
    case Fire(src) => if src in s.pending then [Entry(s.pending[src], None)] else []
    case Repeat(src) => if src in s.pending then [Entry(s.pending[src], None)] else []
    case Settle(t) =>
      if t < |s.threads| && HasFiber(s.threads[t].pc) && s.threads[t].pc.fiber < |s.fibers| &&
         s.fibers[s.threads[t].pc.fiber].state == READY
      then [Entry(FiberTask(s.threads[t].pc.fiber), None)] else []
    case _ => []
  }

  /** The queue loses an entry only to a take, and gains only what is scheduled, fired or yields. */
  lemma QueueChanges(s: System, l: Label)
    requires Enabled(s, l)
    ensures !l.Take? ==> Next(s, l).queue == s.queue + Pushed(s, l)
    ensures l.SpawnFiber? ==> Next(s, l).fibers == s.fibers + [Fiber(INIT, true)]
  {
  }

  // ---------------------------------------------------------------- new waiters

  /** A waiter is new only by registration: a running fiber arms itself, or a callback is given. */
  lemma WaiterIsNew(s: System, l: Label, src: Source)
    requires Enabled(s, l) && src !in s.pending && src in Next(s, l).pending
    ensures l.source == src
    ensures l.Arm? || l.Register?
    ensures l.Arm? ==> s.threads[l.thread].pc.Run? && Next(s, l).pending[src] == FiberTask(s.threads[l.thread].pc.fiber)
    ensures l.Arm? ==> Next(s, l).threads[l.thread].pc.armed
    ensures l.Register? ==> Next(s, l).pending[src] == CallbackTask(l.cb) && Next(s, l).threads == s.threads
  {
  }

  // ---------------------------------------------------------------- the life of a fiber

  /** The states of a fiber, by the step that changes them. */
  predicate Lives(from: State, to: State, l: Label) {
    match to
    case EXEC => (from == INIT || from == READY || from == HOLD) && l.SwapIn?
    case READY => from == EXEC && l.YieldToReady?
    case TERM => from == EXEC && l.Finish? && l.ok
    case EXCEPT => from == EXEC && l.Finish? && !l.ok
    case HOLD => from == EXEC && l.Settle?
    case INIT => Finished(from) && l.Settle?
  }

  /** The worker is at fiber `f`. */
  predicate AtFiber(s: System, l: Label, f: nat) {
    match Worker(l)
    case None => false
    case Some(t) =>
      t < |s.threads| && ((HasFiber(s.threads[t].pc) && s.threads[t].pc.fiber == f) || (l.StartCallback? && s.threads[t].cbFiber == Some(f)))
  }

  lemma OtherFibersStay(s: System, l: Label, f: nat)
    requires Enabled(s, l) && f < |s.fibers|
    ensures f < |Next(s, l).fibers| && (!AtFiber(s, l, f) ==> Next(s, l).fibers[f] == s.fibers[f])
  {
  }

  /** The record of the fiber a worker is at, as its place in the loop says. */
  lemma RecordOf(n: nat, s: System, l: Label, f: nat)
    requires Reachable(n, s) && Enabled(s, l) && f < |s.fibers| && AtFiber(s, l, f)
    ensures !l.Discard? ==> (s.fibers[f].saved <==> !(l.Arm? || l.YieldToReady? || l.Finish? || l.YieldToHold? || l.SwapOut?))
    ensures l.SwapIn? ==> s.fibers[f].state != EXEC && !Finished(s.fibers[f].state)
    ensures l.YieldToReady? || l.Finish? || l.YieldToHold? ==> s.fibers[f].state == EXEC
    ensures l.Settle? ==> s.fibers[f].state == READY || s.fibers[f].state == EXEC || Finished(s.fibers[f].state)
    ensures l.StartCallback? ==> s.fibers[f].state == INIT
  {
    RecordAt(n, s, Worker(l).value, f);
  }

  lemma RecordAt(n: nat, s: System, t: nat, f: nat)
    requires Reachable(n, s) && t < |s.threads| && f < |s.fibers|
    ensures var r, th := s.fibers[f], s.threads[t];
            && (HasFiber(th.pc) && th.pc.fiber == f && !(th.pc.Enter? && !th.pc.own && Finished(r.state)) ==>
                  match th.pc
                  case Enter(_, own) => r.saved && r.state != EXEC && !Finished(r.state)
                  case Run(_, _, _) => !r.saved && r.state == EXEC
                  case Leave(_, _) => !r.saved && (r.state == READY || Finished(r.state))
                  case _ => r.saved && (r.state == EXEC || r.state == READY || Finished(r.state)))
            && (th.cbFiber == Some(f) && !HasFiber(th.pc) ==> r == Fiber(INIT, true))
  {
    var h := Invariant(n, s);
    assert ThreadOk(t, s.threads[t], s.fibers, h);
    assert FiberOk(f, s.fibers[f], h.holder[f], h.token[f], h.over[f], s.threads, s.queue);
  }

  /** A fiber's state changes only by steps of the worker that is at it, and as documented. */
  lemma FiberLives(n: nat, s: System, l: Label, f: nat)
    requires Reachable(n, s) && Enabled(s, l) && f < |s.fibers|
    ensures f < |Next(s, l).fibers|
    ensures Next(s, l).fibers[f].state != s.fibers[f].state ==>
              AtFiber(s, l, f) && Lives(s.fibers[f].state, Next(s, l).fibers[f].state, l)
  {
    OtherFibersStay(s, l, f);
    if AtFiber(s, l, f) {
      RecordOf(n, s, l, f);
    }
  }

  /** Its context leaves memory when it is swapped in, and is back when it is swapped out. */
  lemma ContextMoves(n: nat, s: System, l: Label, f: nat)
    requires Reachable(n, s) && Enabled(s, l) && f < |s.fibers|
    ensures f < |Next(s, l).fibers|
    ensures s.fibers[f].saved && !Next(s, l).fibers[f].saved <==> l.SwapIn? && AtFiber(s, l, f)
    ensures !s.fibers[f].saved && Next(s, l).fibers[f].saved <==> (l.YieldToHold? || l.SwapOut?) && AtFiber(s, l, f)
  {
    OtherFibersStay(s, l, f);
    if AtFiber(s, l, f) {
      RecordOf(n, s, l, f);
    }
  }

  // ---------------------------------------------------------------- no worker is stuck

  /** A worker's fiber exists, and a callback fiber about to be entered is not finished. */
  lemma WorkerIsOn(n: nat, s: System, t: nat)
    requires Reachable(n, s) && t < |s.threads|
    ensures HasFiber(s.threads[t].pc) ==> On(s, t)
    ensures s.threads[t].pc.Enter? && s.threads[t].pc.own ==> !Finished(s.fibers[s.threads[t].pc.fiber].state)
    ensures s.threads[t].cbFiber.Some? ==> s.threads[t].cbFiber.value < |s.fibers|
  {
    var h := Invariant(n, s);
    assert ThreadOk(t, s.threads[t], s.fibers, h);
  }

  /** At the scan a worker takes a task, or has none it may run and goes idle or returns. */
  lemma ScanGoesOn(s: System, t: nat)
    requires t < |s.threads| && s.threads[t].pc == Scan
    ensures Enabled(s, GoIdle(t)) || Enabled(s, Label.Exit(t)) || exists i :: 0 <= i < |s.queue| && Enabled(s, Take(t, i))
  {
    var i := FirstEligible(s.queue, t, s.fibers, 0);
    assert i < |s.queue| ==> Enabled(s, Take(t, i));
  }

  /** No worker is stuck: what it can do next, by its place in the loop. */
  lemma WorkerCanGoOn(n: nat, s: System, t: nat)
    requires Reachable(n, s) && t < |s.threads|
    ensures match s.threads[t].pc
            case Scan => Enabled(s, GoIdle(t)) || Enabled(s, Label.Exit(t)) || exists i :: 0 <= i < |s.queue| && Enabled(s, Take(t, i))
            case Callback(_) => Enabled(s, StartCallback(t))
            case Enter(f, _) => Enabled(s, SwapIn(t)) <==> !Enabled(s, Discard(t))
            case Run(_, _, _) => Enabled(s, YieldToHold(t)) && Disciplined(s, YieldToHold(t))
            case Leave(_, _) => Enabled(s, SwapOut(t))
            case Post(_, _) => Enabled(s, Release(t))
            case Fix(_, _) => Enabled(s, Settle(t))
            case Idle => Enabled(s, WakeIdle(t))
            case Done => true
  {
    WorkerIsOn(n, s, t);
    if s.threads[t].pc == Scan {
      ScanGoesOn(s, t);
    }
  }

  /** A running fiber without a wake-up out may do whatever it likes. */
  lemma UnarmedIsFree(n: nat, s: System, t: nat)
    requires Reachable(n, s) && t < |s.threads| && s.threads[t].pc.Run? && !s.threads[t].pc.armed
    ensures Enabled(s, YieldToReady(t)) && Disciplined(s, YieldToReady(t))
    ensures forall ok :: Enabled(s, Finish(t, ok)) && Disciplined(s, Finish(t, ok))
    ensures forall src :: src !in s.pending ==> Enabled(s, Arm(t, src)) && Disciplined(s, Arm(t, src))
  {
    WorkerIsOn(n, s, t);
  }

  lemma {:induction false} FirstEligible(q: seq<Entry>, t: nat, fibers: seq<Fiber>, from: nat) returns (i: nat)
    requires from <= |q| && forall j :: 0 <= j < from ==> !Eligible(q[j], t, fibers)
    ensures IsFirst(q, t, fibers, i)
    decreases |q| - from
  {
    if from == |q| || Eligible(q[from], t, fibers) {
      i := from;
    } else {
      i := FirstEligible(q, t, fibers, from + 1);
    }
  }

  // ---------------------------------------------------------------- whole turns of the loop

  /** The worker runs a fiber's code. */
  ghost predicate Runs(s: System, t: nat, f: nat, own: bool) {
    && t < |s.threads| && f < |s.fibers| && s.threads[t].pc.Run?
    && s.threads[t].pc.fiber == f && s.threads[t].pc.own == own && s.fibers[f] == Fiber(EXEC, false)
  }

  /** The thread is back at the scan, no longer counted; its callback fiber is given up or kept. */
  function Back(s: System, t: nat, keeps: bool): System
    requires t < |s.threads|
  {
    s.(threads := s.threads[t := Thread(Scan, if keeps then s.threads[t].cbFiber else None, s.threads[t].idleOver)],
       active := s.active - 1)
  }

  /** The steps of thread `t` one after the other, if each is enabled. */
  ghost function Turn(s: System, run: seq<Label>): Option<System>
    decreases |run|
  {
    if run == [] then Some(s)
    else if Enabled(s, run[0]) then Turn(Next(s, run[0]), run[1..])
    else None
  }

  /** The step leads from `s` to `s'`; kept folded. */
  ghost predicate Steps(s: System, l: Label, s': System) {
    forall x {:trigger Unfold(x)} :: Unfold(x) ==> Enabled(s, l) && Next(s, l) == s'
  }

  lemma TurnOn(s: System, l: Label, s': System, rest: seq<Label>, end: System)
    requires Steps(s, l, s') && Turn(s', rest) == Some(end)
    ensures Turn(s, [l] + rest) == Some(end)
  {
    assert Unfold(0);
    assert ([l] + rest)[1..] == rest;
  }

  lemma TurnEnd(s: System, l: Label)
    requires Enabled(s, l)
    ensures Turn(s, [l]) == Some(Next(s, l))
  {
    assert [l][1..] == [];
  }

  lemma SwapOutIs(s: System, t: nat, f: nat, own: bool, state: State)
    requires t < |s.threads| && f < |s.fibers| && s.threads[t].pc == Leave(f, own) && s.fibers[f] == Fiber(state, false)
    ensures Enabled(s, SwapOut(t))
    ensures Next(s, SwapOut(t)) == s.(threads := s.threads[t := s.threads[t].(pc := Post(f, own))], fibers := s.fibers[f := Fiber(state, true)])
  {
  }

  lemma ReleaseIs(s: System, t: nat, f: nat, own: bool)
    requires t < |s.threads| && f < |s.fibers| && s.threads[t].pc == Post(f, own)
    ensures Enabled(s, Release(t))
    ensures Next(s, Release(t)) == s.(threads := s.threads[t := s.threads[t].(pc := Fix(f, own))], active := s.active - 1)
  {
  }

  /** What the end of the loop body makes of a fiber left in state `state`. */
  function Left(f: nat, own: bool, state: State): (Fiber, seq<Entry>) {
    if state == READY then (Fiber(READY, true), [Entry(FiberTask(f), None)])
    else if state == TERM || state == EXCEPT then (Fiber(if own then INIT else state, true), [])
    else (Fiber(HOLD, true), [])
  }

  /** The thread is back at the scan with the fiber left in `state`. */
  function Ended(s: System, t: nat, f: nat, own: bool, state: State): System
    requires t < |s.threads| && f < |s.fibers|
  {
    Back(s, t, !own || state == TERM || state == EXCEPT).(
      fibers := s.fibers[f := Left(f, own, state).0], queue := s.queue + Left(f, own, state).1)
  }

  lemma SettleIs(s: System, t: nat, f: nat, own: bool, state: State)
    requires t < |s.threads| && f < |s.fibers| && s.threads[t].pc == Fix(f, own) && s.fibers[f] == Fiber(state, true)
    ensures Enabled(s, Settle(t))
    ensures Next(s, Settle(t)) == Ended(s, t, f, own, state).(active := s.active)
  {
    assert s.queue + [] == s.queue;
    assert s.fibers[f := s.fibers[f]] == s.fibers;
  }

  /** The tail of a turn, from the moment the fiber has been switched out. */
  lemma TailOfTurn(s: System, t: nat, f: nat, own: bool, state: State)
    requires t < |s.threads| && f < |s.fibers| && s.threads[t].pc == Post(f, own) && s.fibers[f] == Fiber(state, true)
    ensures Turn(s, [Release(t), Settle(t)]) == Some(Ended(s, t, f, own, state))
  {
    ReleaseIs(s, t, f, own);
    var s' := Next(s, Release(t));
    SettleIs(s', t, f, own, state);
    TurnEnd(s', Settle(t));
    EndedSame(s, s', t, f, own, state);
    TurnOn(s, Release(t), s', [Settle(t)], Ended(s, t, f, own, state));
    assert [Release(t)] + [Settle(t)] == [Release(t), Settle(t)];
  }

  /** Earlier changes of the same thread and fiber are overwritten. */
  lemma EndedSame(s: System, s': System, t: nat, f: nat, own: bool, state: State)
    requires t < |s.threads| == |s'.threads| && f < |s.fibers| == |s'.fibers|
    requires s'.threads == s.threads[t := s.threads[t].(pc := s'.threads[t].pc)] && s'.fibers == s.fibers[f := s'.fibers[f]]
    requires s' == s.(threads := s'.threads, fibers := s'.fibers, active := s'.active)
    ensures Ended(s', t, f, own, state).(active := s.active - 1) == Ended(s, t, f, own, state)
  {
  }

  lemma SwapOutTurn(s: System, t: nat, f: nat, own: bool, state: State)
    requires t < |s.threads| && f < |s.fibers| && s.threads[t].pc == Leave(f, own) && s.fibers[f] == Fiber(state, false)
    ensures Turn(s, [SwapOut(t), Release(t), Settle(t)]) == Some(Ended(s, t, f, own, state))
  {
    SwapOutIs(s, t, f, own, state);
    var s' := Next(s, SwapOut(t));
    TailOfTurn(s', t, f, own, state);
    EndedSame(s, s', t, f, own, state);
    TurnOn(s, SwapOut(t), s', [Release(t), Settle(t)], Ended(s, t, f, own, state));
    assert [SwapOut(t)] + [Release(t), Settle(t)] == [SwapOut(t), Release(t), Settle(t)];
  }

  lemma LeaveTurn(s: System, l: Label, s': System, t: nat, f: nat, own: bool, state: State)
    requires Runs(s, t, f, own) && Steps(s, l, s')
    requires s' == s.(threads := s.threads[t := s.threads[t].(pc := Leave(f, own))], fibers := s.fibers[f := Fiber(state, false)])
    ensures Turn(s, [l, SwapOut(t), Release(t), Settle(t)]) == Some(Ended(s, t, f, own, state))
  {
    SwapOutTurn(s', t, f, own, state);
    EndedSame(s, s', t, f, own, state);
    var end := Ended(s', t, f, own, state).(active := s.active - 1);
    TurnFour(s, l, s', SwapOut(t), Release(t), Settle(t), end);
  }

  lemma TurnFour(s: System, l: Label, s': System, a: Label, b: Label, c: Label, end: System)
    requires Steps(s, l, s') && Turn(s', [a, b, c]) == Some(end)
    ensures Turn(s, [l, a, b, c]) == Some(end)
  {
    TurnOn(s, l, s', [a, b, c], end);
    assert [l] + [a, b, c] == [l, a, b, c];
  }

  /** A fiber that yields READY is queued again, unpinned, behind all others. */
  lemma TurnYields(s: System, t: nat, f: nat, own: bool)
    requires Runs(s, t, f, own)
    ensures Turn(s, [YieldToReady(t), SwapOut(t), Release(t), Settle(t)]) ==
            Some(Back(s, t, !own).(fibers := s.fibers[f := Fiber(READY, true)], queue := s.queue + [Entry(FiberTask(f), None)]))
  {
    LeaveTurn(s, YieldToReady(t), Next(s, YieldToReady(t)), t, f, own, READY);
  }

  /** A plain fiber that ends stays as it ended; a callback fiber is blanked and kept for the next callback. */
  lemma TurnFinishes(s: System, t: nat, f: nat, own: bool, ok: bool)
    requires Runs(s, t, f, own)
    ensures Turn(s, [Finish(t, ok), SwapOut(t), Release(t), Settle(t)]) ==
            Some(Back(s, t, true).(fibers := s.fibers[f := if own then Fiber(INIT, true) else Fiber(if ok then TERM else EXCEPT, true)]))
  {
    LeaveTurn(s, Finish(t, ok), Next(s, Finish(t, ok)), t, f, own, if ok then TERM else EXCEPT);
    assert s.queue + [] == s.queue;
  }

  /** A fiber that yields HOLD is left to its wake-up: it is saved first and set to HOLD last. */
  lemma TurnHolds(s: System, t: nat, f: nat, own: bool)
    requires Runs(s, t, f, own)
    ensures Turn(s, [YieldToHold(t), Release(t), Settle(t)]) == Some(Back(s, t, !own).(fibers := s.fibers[f := Fiber(HOLD, true)]))
  {
    var s' := s.(threads := s.threads[t := s.threads[t].(pc := Post(f, own))], fibers := s.fibers[f := Fiber(EXEC, true)]);
    assert Next(s, YieldToHold(t)) == s';
    TailOfTurn(s', t, f, own, EXEC);
    EndedSame(s, s', t, f, own, EXEC);
    assert s.queue + [] == s.queue;
    TurnOn(s, YieldToHold(t), s', [Release(t), Settle(t)], Ended(s, t, f, own, EXEC));
    assert [YieldToHold(t)] + [Release(t), Settle(t)] == [YieldToHold(t), Release(t), Settle(t)];
  }

  lemma SwapInIs(s: System, t: nat, f: nat, own: bool)
    requires t < |s.threads| && f < |s.fibers| && s.threads[t].pc == Enter(f, own) && (own || !Finished(s.fibers[f].state))
    ensures Enabled(s, SwapIn(t))
    ensures Next(s, SwapIn(t)) ==
            s.(threads := s.threads[t := s.threads[t].(pc := Run(f, own, false))], fibers := s.fibers[f := Fiber(EXEC, false)])
  {
  }

  /** A task that may run is entered: a waiting fiber, or a finished one that is dropped at once. */
  lemma TurnTakes(s: System, t: nat, i: nat, f: nat)
    requires Enabled(s, Take(t, i)) && s.queue[i].task == FiberTask(f) && f < |s.fibers|
    ensures var rest := s.queue[..i] + s.queue[i + 1..];
            if Finished(s.fibers[f].state)
            then Turn(s, [Take(t, i), Discard(t)]) == Some(s.(queue := rest))
            else Turn(s, [Take(t, i), SwapIn(t)]) ==
                 Some(s.(threads := s.threads[t := s.threads[t].(pc := Run(f, false, false))],
                         fibers := s.fibers[f := Fiber(EXEC, false)], queue := rest, active := s.active + 1))
  {
    var s' := Next(s, Take(t, i));
    assert s'.threads == s.threads[t := s.threads[t].(pc := Enter(f, false))];
    if Finished(s.fibers[f].state) {
      assert s'.threads[t := s.threads[t]] == s.threads;
      assert Next(s', Discard(t)) == s.(queue := s.queue[..i] + s.queue[i + 1..]);
      TurnTwo(s, Take(t, i), s', Discard(t));
    } else {
      SwapInIs(s', t, f, false);
      assert s'.threads[t := s'.threads[t].(pc := Run(f, false, false))] == s.threads[t := s.threads[t].(pc := Run(f, false, false))];
      TurnTwo(s, Take(t, i), s', SwapIn(t));
    }
  }

  lemma TurnTwo(s: System, l: Label, s': System, k: Label)
    requires Enabled(s, l) && Next(s, l) == s' && Enabled(s', k)
    ensures Turn(s, [l, k]) == Some(Next(s', k))
  {
    TurnEnd(s', k);
    TurnOn(s, l, s', [k], Next(s', k));
    assert [l] + [k] == [l, k];
  }

  /** A callback runs on the thread's own blank fiber, the kept one or else a new one. */
  lemma TurnStartsCallback(n: nat, s: System, t: nat)
    requires Reachable(n, s) && t < |s.threads| && s.threads[t].pc.Callback?
    ensures var g := if s.threads[t].cbFiber.Some? then s.threads[t].cbFiber.value else |s.fibers|;
            Turn(s, [StartCallback(t), SwapIn(t)]) ==
            Some(s.(threads := s.threads[t := Thread(Run(g, true, false), Some(g), s.threads[t].idleOver)],
                    fibers := if g < |s.fibers| then s.fibers[g := Fiber(EXEC, false)] else s.fibers + [Fiber(EXEC, false)]))
  {
    WorkerIsOn(n, s, t);
    var g := if s.threads[t].cbFiber.Some? then s.threads[t].cbFiber.value else |s.fibers|;
    var s' := Next(s, StartCallback(t));
    StartCallbackIs(s, t, g);
    SwapInIs(s', t, g, true);
    CallbackRuns(s, s', t, g);
    TurnTwo(s, StartCallback(t), s', SwapIn(t));
  }

  lemma StartCallbackIs(s: System, t: nat, g: nat)
    requires Enabled(s, StartCallback(t)) && g == if s.threads[t].cbFiber.Some? then s.threads[t].cbFiber.value else |s.fibers|
    ensures Next(s, StartCallback(t)) ==
            s.(threads := s.threads[t := Thread(Enter(g, true), Some(g), s.threads[t].idleOver)],
               fibers := if g < |s.fibers| then s.fibers[g := Fiber(INIT, true)] else s.fibers + [Fiber(INIT, true)])
  {
  }

  lemma CallbackRuns(s: System, s': System, t: nat, g: nat)
    requires t < |s.threads| && g <= |s.fibers|
    requires s' == s.(threads := s.threads[t := Thread(Enter(g, true), Some(g), s.threads[t].idleOver)],
                      fibers := if g < |s.fibers| then s.fibers[g := Fiber(INIT, true)] else s.fibers + [Fiber(INIT, true)])
    ensures s'.threads[t := s'.threads[t].(pc := Run(g, true, false))] ==
            s.threads[t := Thread(Run(g, true, false), Some(g), s.threads[t].idleOver)]
    ensures s'.fibers[g := Fiber(EXEC, false)] ==
            if g < |s.fibers| then s.fibers[g := Fiber(EXEC, false)] else s.fibers + [Fiber(EXEC, false)]
  {
  }
}
