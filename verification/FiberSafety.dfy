/** What holds in every state that a run of the fiber system reaches. */
module FiberSafety {
  import opened Basics
  import opened Scheduler
  import opened EventTable
  import opened FiberSystem
  import opened FiberInvariant
  import opened FiberSteps

  /** Some run of disciplined steps of `n` threads ends in `s`. */
  ghost predicate Reachable(n: nat, s: System) {
    exists run :: After(n, run) == Some(s)
  }

  lemma {:induction false} NobodyBusy(threads: seq<Thread>)
    requires forall t :: 0 <= t < |threads| ==> !Busy(threads[t].pc)
    ensures BusyThreads(threads) == 0
  {
    if threads != [] {
      NobodyBusy(threads[..|threads| - 1]);
    }
  }

  lemma {:induction false} SomebodyBusy(threads: seq<Thread>, t: nat)
    requires t < |threads| && Busy(threads[t].pc)
    ensures BusyThreads(threads) > 0
  {
    if t < |threads| - 1 {
      SomebodyBusy(threads[..|threads| - 1], t);
    }
  }

  lemma {:induction false} RunKeeps(n: nat, run: seq<Label>) returns (h: History)
    requires After(n, run).Some?
    ensures Inv(After(n, run).value, h)
    ensures |After(n, run).value.threads| == n
  {
    if run == [] {
      h := History([], [], []);
      NobodyBusy(Start(n).threads);
    } else {
      h := RunKeeps(n, run[..|run| - 1]);
      h := StepKeeps(After(n, run[..|run| - 1]).value, h, run[|run| - 1]);
    }
  }

  lemma Invariant(n: nat, s: System) returns (h: History)
    requires Reachable(n, s)
    ensures Inv(s, h)
  {
    var run :| After(n, run) == Some(s);
    h := RunKeeps(n, run);
  }

  /**
   * No fiber is held or run by two threads, nor kept as the callback fiber of another one. A
   * thread about to discard a finished fiber does not count: it only looks at the fiber's state.
   */
  lemma NoFiberHeldTwice(n: nat, s: System, t: nat, u: nat, f: nat)
    requires Reachable(n, s) && t < |s.threads| && u < |s.threads|
    requires Holds(s.threads[t], f) && !Enabled(s, Discard(t)) && Holds(s.threads[u], f) && !Enabled(s, Discard(u))
    ensures t == u
  {
    var h := Invariant(n, s);
    HolderIs(s, h, t, f);
    HolderIs(s, h, u, f);
  }

  lemma HolderIs(s: System, h: History, t: nat, f: nat)
    requires Inv(s, h) && t < |s.threads| && Holds(s.threads[t], f) && !Enabled(s, Discard(t))
    ensures f < |h.holder| && h.holder[f] == Some(t)
  {
    assert ThreadOk(t, s.threads[t], s.fibers, h);
    if f < |s.fibers| {
      assert FiberOk(f, s.fibers[f], h.holder[f], h.token[f], h.over[f], s.threads, s.queue);
    }
  }

  /** What a fiber that finished is from then on, unless a thread keeps it as its callback fiber. */
  ghost predicate Over(s: System, f: nat) {
    && f < |s.fibers| && Finished(s.fibers[f].state)
    && forall t :: 0 <= t < |s.threads| ==> s.threads[t].cbFiber != Some(f)
  }

  /** Such a fiber stays as it is: whoever takes it from the queue discards it. */
  lemma OverForGood(n: nat, s: System, l: Label, f: nat)
    requires Reachable(n, s) && Enabled(s, l) && Disciplined(s, l) && Over(s, f)
    ensures Over(Next(s, l), f) && Next(s, l).fibers[f].state == s.fibers[f].state
    ensures l.SwapIn? ==> s.threads[l.thread].pc.fiber != f
  {
    var h := Invariant(n, s);
    OverUntouched(s, h, l, f);
    OverUnkept(s, l, f);
  }

  lemma OverUntouched(s: System, h: History, l: Label, f: nat)
    requires Inv(s, h) && Enabled(s, l) && Over(s, f)
    ensures f < |Next(s, l).fibers| && Next(s, l).fibers[f].state == s.fibers[f].state
    ensures l.SwapIn? ==> s.threads[l.thread].pc.fiber != f
  {
    if l.SwapIn? || l.YieldToReady? || l.Finish? || l.Settle? {
      assert ThreadOk(l.thread, s.threads[l.thread], s.fibers, h);
    }
  }

  lemma OverUnkept(s: System, l: Label, f: nat)
    requires Enabled(s, l) && Over(s, f)
    ensures forall t :: 0 <= t < |Next(s, l).threads| ==> Next(s, l).threads[t].cbFiber != Some(f)
  {
  }

  /** The assertion in swapIn holds, and the context that is resumed has been saved. */
  lemma SwapInIsSafe(n: nat, s: System, t: nat)
    requires Reachable(n, s) && Enabled(s, SwapIn(t))
    ensures s.fibers[s.threads[t].pc.fiber].state != EXEC
    ensures s.fibers[s.threads[t].pc.fiber].saved
  {
    var h := Invariant(n, s);
    assert ThreadOk(t, s.threads[t], s.fibers, h);
  }

  /** A fiber's code runs only in state EXEC, as addEvent asserts, and no context is on two CPUs. */
  lemma RunningIsExec(n: nat, s: System, t: nat)
    requires Reachable(n, s) && t < |s.threads| && s.threads[t].pc.Run?
    ensures On(s, t)
    ensures s.fibers[s.threads[t].pc.fiber] == Fiber(EXEC, false)
  {
    var h := Invariant(n, s);
    assert ThreadOk(t, s.threads[t], s.fibers, h);
  }

  /**
   * When a worker resets its callback fiber for a new callback, that fiber is blank, so both
   * assertions in Fiber::reset hold; and no queue entry, event or timer can still resume it.
   */
  lemma CallbackFiberIsFree(n: nat, s: System, t: nat)
    requires Reachable(n, s) && t < |s.threads| && s.threads[t].pc.Callback? && s.threads[t].cbFiber.Some?
    ensures Enabled(s, StartCallback(t))
    ensures s.fibers[s.threads[t].cbFiber.value] == Fiber(INIT, true)
    ensures !InQueue(s.queue, s.threads[t].cbFiber.value)
    ensures forall src :: src in s.pending ==> s.pending[src] != FiberTask(s.threads[t].cbFiber.value)
  {
    var h := Invariant(n, s);
    assert ThreadOk(t, s.threads[t], s.fibers, h);
    forall src | src in s.pending ensures s.pending[src] != FiberTask(s.threads[t].cbFiber.value) {
      assert TaskAt(s.pending[src], Pending(src), h);
    }
  }

  /** A finished callback fiber, which its thread will reset, cannot be resumed by anyone else. */
  lemma FinishedIsFree(n: nat, s: System, t: nat)
    requires Reachable(n, s) && t < |s.threads| && HasFiber(s.threads[t].pc) && s.threads[t].pc.own
    requires s.threads[t].pc.fiber < |s.fibers| && Finished(s.fibers[s.threads[t].pc.fiber].state)
    ensures !InQueue(s.queue, s.threads[t].pc.fiber)
    ensures forall src :: src in s.pending ==> s.pending[src] != FiberTask(s.threads[t].pc.fiber)
    ensures forall u :: 0 <= u < |s.threads| && u != t ==> !Holds(s.threads[u], s.threads[t].pc.fiber)
  {
    var h := Invariant(n, s);
    var f := s.threads[t].pc.fiber;
    assert ThreadOk(t, s.threads[t], s.fibers, h);
    assert FiberOk(f, s.fibers[f], h.holder[f], h.token[f], h.over[f], s.threads, s.queue);
    forall src | src in s.pending ensures s.pending[src] != FiberTask(f) {
      assert TaskAt(s.pending[src], Pending(src), h);
    }
    forall u | 0 <= u < |s.threads| && u != t ensures !Holds(s.threads[u], f) {
      assert ThreadOk(u, s.threads[u], s.fibers, h);
    }
  }

  /** A fiber has at most one wake-up: one queue entry, or one event or timer, not both. */
  lemma OneWakeUp(n: nat, s: System, f: nat)
    requires Reachable(n, s)
    ensures forall i, j :: 0 <= i < j < |s.queue| && s.queue[i].task == FiberTask(f) ==> s.queue[j].task != FiberTask(f)
    ensures forall x, y :: x in s.pending && y in s.pending && s.pending[x] == FiberTask(f) && s.pending[y] == FiberTask(f) ==> x == y
    ensures forall x, i :: x in s.pending && 0 <= i < |s.queue| && s.pending[x] == FiberTask(f) ==> s.queue[i].task != FiberTask(f)
  {
    var h := Invariant(n, s);
    forall x, y | x in s.pending && y in s.pending && s.pending[x] == FiberTask(f) && s.pending[y] == FiberTask(f) ensures x == y {
      assert TaskAt(s.pending[x], Pending(x), h) && TaskAt(s.pending[y], Pending(y), h);
    }
    forall x, i | x in s.pending && 0 <= i < |s.queue| && s.pending[x] == FiberTask(f) ensures s.queue[i].task != FiberTask(f) {
      assert TaskAt(s.pending[x], Pending(x), h) && TaskAt(s.queue[i].task, Queued, h);
    }
  }

  /** The active count is the number of threads between take and finish, so never negative. */
  lemma ActiveIsExact(n: nat, s: System)
    requires Reachable(n, s)
    ensures s.active == BusyThreads(s.threads)
  {
    var h := Invariant(n, s);
  }

  /** A READY fiber is queued, or held by a thread that will run or requeue it. */
  lemma ReadyIsNotLost(n: nat, s: System, f: nat)
    requires Reachable(n, s) && f < |s.fibers| && s.fibers[f].state == READY && !InQueue(s.queue, f)
    ensures exists t :: 0 <= t < |s.threads| && HasFiber(s.threads[t].pc) && !s.threads[t].pc.Run? && s.threads[t].pc.fiber == f
  {
    var h := Invariant(n, s);
    assert FiberOk(f, s.fibers[f], h.holder[f], h.token[f], h.over[f], s.threads, s.queue);
    var t := h.holder[f].value;
    assert ThreadOk(t, s.threads[t], s.fibers, h);
  }

  /** An entry the scan skips for being EXEC is held by a thread that will make it eligible. */
  lemma SkippedIsHeld(n: nat, s: System, i: nat)
    requires Reachable(n, s) && i < |s.queue| && Executing(s.queue[i], s.fibers)
    ensures exists t :: 0 <= t < |s.threads| && HasFiber(s.threads[t].pc) && s.threads[t].pc.fiber == s.queue[i].task.fiber &&
                        (s.threads[t].pc.Post? || s.threads[t].pc.Fix? || (s.threads[t].pc.Run? && s.threads[t].pc.armed))
  {
    var h := Invariant(n, s);
    var f := s.queue[i].task.fiber;
    assert TaskAt(s.queue[i].task, Queued, h);
    assert FiberOk(f, s.fibers[f], h.holder[f], h.token[f], h.over[f], s.threads, s.queue);
    var t := h.holder[f].value;
    assert ThreadOk(t, s.threads[t], s.fibers, h);
  }

  /** A queued fiber stays queued until a thread takes it to run it. */
  lemma WakeUpStays(s: System, l: Label, f: nat)
    requires Enabled(s, l) && InQueue(s.queue, f)
    ensures InQueue(Next(s, l).queue, f) || (l.Take? && Next(s, l).threads[l.thread].pc == Enter(f, false))
  {
    var s' := Next(s, l);
    if l.Take? {
      WithoutKeeps(s.queue, l.at);
    } else if |s'.queue| > |s.queue| {
      PushKeeps(s.queue, s'.queue[|s.queue|]);
    }
  }

  /** The wake-up of `f` is in the queue or with an event or timer. */
  ghost predicate HasWakeUp(s: System, f: nat) {
    InQueue(s.queue, f) || exists src :: src in s.pending && s.pending[src] == FiberTask(f)
  }

  /** No wake-up is lost: it stays until a thread takes the fiber, unless the event is deleted. */
  lemma NoWakeUpLost(s: System, l: Label, f: nat)
    requires Enabled(s, l) && HasWakeUp(s, f)
    ensures || HasWakeUp(Next(s, l), f)
            || (l.Take? && Next(s, l).threads[l.thread].pc == Enter(f, false))
            || (l.Forget? && s.pending[l.source] == FiberTask(f))
  {
    if InQueue(s.queue, f) {
      WakeUpStays(s, l, f);
    } else {
      var src :| src in s.pending && s.pending[src] == FiberTask(f);
      PendingStays(s, l, src);
      PushKeeps(s.queue, Entry(FiberTask(f), None));
    }
  }

  /**
   * An event or timer keeps its waiter, fiber or callback, until it fires or is deleted. Firing
   * queues exactly that task; a recurring timer queues its callback and keeps it.
   */
  lemma PendingStays(s: System, l: Label, src: Source)
    requires Enabled(s, l) && src in s.pending
    ensures src in Next(s, l).pending <==> l != Fire(src) && l != Forget(src)
    ensures src in Next(s, l).pending ==> Next(s, l).pending[src] == s.pending[src]
    ensures l == Fire(src) || l == Repeat(src) ==> Next(s, l).queue == s.queue + [Entry(s.pending[src], None)]
    ensures l == Forget(src) ==> Next(s, l).queue == s.queue
  {
  }

  /**
   * When stopping is true nothing is left: no timer, no event, no queued task, and no thread
   * between take and finish. A fiber that is READY is in the hands of a thread that has yet to
   * requeue it.
   */
  lemma StoppingMeansQuiet(n: nat, s: System, wait: nat, events: int)
    requires Reachable(n, s) && Stopping(s, wait, events)
    ensures forall t :: 0 <= t < |s.threads| ==> !Busy(s.threads[t].pc)
    ensures forall f :: 0 <= f < |s.fibers| && s.fibers[f].state == READY ==>
              exists t :: 0 <= t < |s.threads| && s.threads[t].pc.Fix? && s.threads[t].pc.fiber == f
    ensures forall f :: 0 <= f < |s.fibers| ==> s.fibers[f].saved
  {
    var h := Invariant(n, s);
    forall t | 0 <= t < |s.threads| ensures !Busy(s.threads[t].pc) {
      if Busy(s.threads[t].pc) {
        SomebodyBusy(s.threads, t);
      }
    }
    forall f | 0 <= f < |s.fibers| ensures s.fibers[f].saved {
      assert FiberOk(f, s.fibers[f], h.holder[f], h.token[f], h.over[f], s.threads, s.queue);
      if h.holder[f].Some? {
        assert ThreadOk(h.holder[f].value, s.threads[h.holder[f].value], s.fibers, h);
      }
    }
    forall f | 0 <= f < |s.fibers| && s.fibers[f].state == READY
      ensures exists t :: 0 <= t < |s.threads| && s.threads[t].pc.Fix? && s.threads[t].pc.fiber == f
    {
      ReadyIsNotLost(n, s, f);
    }
  }

  // ---------------------------------------------------------------- what the discipline is for

  /** The state after a run of steps that the code allows, disciplined or not. */
  ghost function Played(n: nat, run: seq<Label>): Option<System> {
    if run == [] then Some(Start(n))
    else
      var s := Played(n, run[..|run| - 1]);
      var l := run[|run| - 1];
      if s.Some? && Enabled(s.value, l) then Some(Next(s.value, l)) else None
  }

  /** Some run of steps that the code allows ends in `s`. */
  ghost predicate Playable(n: nat, s: System) {
    exists run :: Played(n, run) == Some(s)
  }

  lemma StartReachable(n: nat)
    ensures Reachable(n, Start(n))
  {
    assert After(n, []) == Some(Start(n));
  }

  lemma {:induction false} AfterPlayed(n: nat, run: seq<Label>)
    requires After(n, run).Some?
    ensures Played(n, run) == After(n, run)
  {
    if run != [] {
      AfterPlayed(n, run[..|run| - 1]);
    }
  }

  lemma ReachablePlayable(n: nat, s: System)
    requires Reachable(n, s)
    ensures Playable(n, s)
  {
    var run :| After(n, run) == Some(s);
    AfterPlayed(n, run);
  }

  lemma PlayOn(n: nat, s: System, l: Label, s': System)
    requires Playable(n, s) && Enabled(s, l) && Next(s, l) == s'
    ensures Playable(n, s')
  {
    var run :| Played(n, run) == Some(s);
    assert (run + [l])[..|run|] == run;
    assert Played(n, run + [l]) == Some(s');
  }

  lemma ReachOn(n: nat, s: System, l: Label, s': System)
    requires Reachable(n, s) && Enabled(s, l) && Disciplined(s, l) && Next(s, l) == s'
    ensures Reachable(n, s')
  {
    var run :| After(n, run) == Some(s);
    assert (run + [l])[..|run|] == run;
    assert After(n, run + [l]) == Some(s');
  }

  /** Two threads, one fiber. */
  function Pair(f: Fiber, p: Pc, q: Pc, queue: seq<Entry>, pending: map<Source, Task>, active: int): System {
    System([f], [Thread(p, None, false), Thread(q, None, false)], queue, pending, active, false)
  }

  const ENTRY := Entry(FiberTask(0), None)

  /** The first thread runs fiber 0, which has armed one wake-up. */
  function ArmedPair(e: Source): System {
    Pair(Fiber(EXEC, false), Run(0, false, true), Scan, [], map[e := FiberTask(0)], 1)
  }

  lemma TakeOne()
    ensures Reachable(2, Pair(Fiber(INIT, true), Enter(0, false), Scan, [], map[], 1))
  {
    SpawnOne();
    var s1 := Pair(Fiber(INIT, true), Scan, Scan, [ENTRY], map[], 0);
    var s2 := Pair(Fiber(INIT, true), Enter(0, false), Scan, [], map[], 1);
    assert s1.queue[..0] + s1.queue[1..] == [];
    assert s2 == Next(s1, Take(0, 0));
    ReachOn(2, s1, Take(0, 0), s2);
  }

  lemma SpawnOne()
    ensures Reachable(2, Pair(Fiber(INIT, true), Scan, Scan, [ENTRY], map[], 0))
  {
    StartReachable(2);
    var s1 := Pair(Fiber(INIT, true), Scan, Scan, [ENTRY], map[], 0);
    assert Next(Start(2), SpawnFiber(None)) == s1;
    ReachOn(2, Start(2), SpawnFiber(None), s1);
  }

  lemma RunOne()
    ensures Reachable(2, Pair(Fiber(EXEC, false), Run(0, false, false), Scan, [], map[], 1))
  {
    TakeOne();
    var s2 := Pair(Fiber(INIT, true), Enter(0, false), Scan, [], map[], 1);
    ReachOn(2, s2, SwapIn(0), Pair(Fiber(EXEC, false), Run(0, false, false), Scan, [], map[], 1));
  }

  lemma ArmOne(e: Source)
    ensures Reachable(2, ArmedPair(e)) && Playable(2, ArmedPair(e))
  {
    RunOne();
    var s3 := Pair(Fiber(EXEC, false), Run(0, false, false), Scan, [], map[], 1);
    ReachOn(2, s3, Arm(0, e), ArmedPair(e));
    ReachablePlayable(2, ArmedPair(e));
  }

  /** The event has fired while the fiber still runs. */
  lemma FireOne(e: Source)
    ensures Reachable(2, Pair(Fiber(EXEC, false), Run(0, false, true), Scan, [ENTRY], map[], 1))
    ensures Playable(2, Pair(Fiber(EXEC, false), Run(0, false, true), Scan, [ENTRY], map[], 1))
  {
    ArmOne(e);
    var s5 := Pair(Fiber(EXEC, false), Run(0, false, true), Scan, [ENTRY], map[], 1);
    ReachOn(2, ArmedPair(e), Fire(e), s5);
    ReachablePlayable(2, s5);
  }

  /**
   * A fiber that calls YieldToReady while its event can fire is taken by a second thread while
   * the first still runs on its stack.
   */
  lemma ReadyWhileArmed(e: Source)
    ensures Playable(2, Pair(Fiber(READY, false), Leave(0, false), Enter(0, false), [], map[], 2))
  {
    FireOne(e);
    var s5 := Pair(Fiber(EXEC, false), Run(0, false, true), Scan, [ENTRY], map[], 1);
    var s6 := Pair(Fiber(READY, false), Leave(0, false), Scan, [ENTRY], map[], 1);
    PlayOn(2, s5, YieldToReady(0), s6);
    var s7 := Pair(Fiber(READY, false), Leave(0, false), Enter(0, false), [], map[], 2);
    PlayOn(2, s6, Take(1, 0), s7);
  }

  /** Two wake-ups for one suspended fiber let two threads take it, and a swapIn assertion fails. */
  lemma ArmedTwice(d: Source, e: Source)
    requires d != e
    ensures var s := Pair(Fiber(EXEC, false), Run(0, false, false), Enter(0, false), [], map[], 2);
            Playable(2, s) && Enabled(s, SwapIn(1))
  {
    ArmOne(d);
    var s5 := Pair(Fiber(EXEC, false), Run(0, false, true), Scan, [], map[d := FiberTask(0), e := FiberTask(0)], 1);
    PlayOn(2, ArmedPair(d), Arm(0, e), s5);
    var s6 := Pair(Fiber(EXEC, false), Run(0, false, true), Scan, [ENTRY], map[e := FiberTask(0)], 1);
    PlayOn(2, s5, Fire(d), s6);
    var s7 := Pair(Fiber(EXEC, false), Run(0, false, true), Scan, [ENTRY, ENTRY], map[], 1);
    PlayOn(2, s6, Fire(e), s7);
    Suspended();
    TakenTwice();
  }

  lemma Suspended()
    requires Playable(2, Pair(Fiber(EXEC, false), Run(0, false, true), Scan, [ENTRY, ENTRY], map[], 1))
    ensures Playable(2, Pair(Fiber(HOLD, true), Scan, Scan, [ENTRY, ENTRY], map[], 0))
  {
    var s1 := Pair(Fiber(EXEC, false), Run(0, false, true), Scan, [ENTRY, ENTRY], map[], 1);
    var s2 := Pair(Fiber(EXEC, true), Post(0, false), Scan, [ENTRY, ENTRY], map[], 1);
    PlayOn(2, s1, YieldToHold(0), s2);
    var s3 := Pair(Fiber(EXEC, true), Fix(0, false), Scan, [ENTRY, ENTRY], map[], 0);
    PlayOn(2, s2, Release(0), s3);
    PlayOn(2, s3, Settle(0), Pair(Fiber(HOLD, true), Scan, Scan, [ENTRY, ENTRY], map[], 0));
  }

  lemma TakenTwice()
    requires Playable(2, Pair(Fiber(HOLD, true), Scan, Scan, [ENTRY, ENTRY], map[], 0))
    ensures Playable(2, Pair(Fiber(EXEC, false), Run(0, false, false), Enter(0, false), [], map[], 2))
  {
    var s4 := Pair(Fiber(HOLD, true), Scan, Scan, [ENTRY, ENTRY], map[], 0);
    var s5 := Pair(Fiber(HOLD, true), Enter(0, false), Scan, [ENTRY], map[], 1);
    PlayOn(2, s4, Take(0, 0), s5);
    var s6 := Pair(Fiber(HOLD, true), Enter(0, false), Enter(0, false), [], map[], 2);
    PlayOn(2, s5, Take(1, 0), s6);
    PlayOn(2, s6, SwapIn(0), Pair(Fiber(EXEC, false), Run(0, false, false), Enter(0, false), [], map[], 2));
  }

  /** Two threads, of which the first has fiber 0 as its callback fiber. */
  function CbPair(f: Fiber, p: Pc, q: Pc, queue: seq<Entry>, pending: map<Source, Task>, active: int): System {
    System([f], [Thread(p, Some(0), false), Thread(q, None, false)], queue, pending, active, false)
  }

  lemma CallbackTaken()
    ensures Reachable(2, System([], [Thread(Callback(7), None, false), Thread(Scan, None, false)], [], map[], 1, false))
  {
    CallbackQueued();
    var s1 := System([], [Thread(Scan, None, false), Thread(Scan, None, false)], [Entry(CallbackTask(7), None)], map[], 0, false);
    var s2 := System([], [Thread(Callback(7), None, false), Thread(Scan, None, false)], [], map[], 1, false);
    assert s1.queue[..0] + s1.queue[1..] == [];
    assert s2 == Next(s1, Take(0, 0));
    ReachOn(2, s1, Take(0, 0), s2);
  }

  lemma CallbackQueued()
    ensures Reachable(2, System([], [Thread(Scan, None, false), Thread(Scan, None, false)], [Entry(CallbackTask(7), None)], map[], 0, false))
  {
    StartReachable(2);
    var s1 := System([], [Thread(Scan, None, false), Thread(Scan, None, false)], [Entry(CallbackTask(7), None)], map[], 0, false);
    assert Next(Start(2), SpawnCallback(7, None)) == s1;
    ReachOn(2, Start(2), SpawnCallback(7, None), s1);
  }

  lemma CallbackArms(e: Source)
    ensures Playable(2, CbPair(Fiber(EXEC, false), Run(0, true, true), Scan, [ENTRY], map[], 1))
  {
    CallbackTaken();
    var s2 := System([], [Thread(Callback(7), None, false), Thread(Scan, None, false)], [], map[], 1, false);
    var s3 := CbPair(Fiber(INIT, true), Enter(0, true), Scan, [], map[], 1);
    ReachOn(2, s2, StartCallback(0), s3);
    var s4 := CbPair(Fiber(EXEC, false), Run(0, true, false), Scan, [], map[], 1);
    ReachOn(2, s3, SwapIn(0), s4);
    ReachablePlayable(2, s4);
    CallbackFires(e);
  }

  lemma CallbackFires(e: Source)
    requires Playable(2, CbPair(Fiber(EXEC, false), Run(0, true, false), Scan, [], map[], 1))
    ensures Playable(2, CbPair(Fiber(EXEC, false), Run(0, true, true), Scan, [ENTRY], map[], 1))
  {
    var s4 := CbPair(Fiber(EXEC, false), Run(0, true, false), Scan, [], map[], 1);
    var s5 := CbPair(Fiber(EXEC, false), Run(0, true, true), Scan, [], map[e := FiberTask(0)], 1);
    PlayOn(2, s4, Arm(0, e), s5);
    PlayOn(2, s5, Fire(e), CbPair(Fiber(EXEC, false), Run(0, true, true), Scan, [ENTRY], map[], 1));
  }

  /** A callback that finishes armed is reset and kept by its thread, and taken by a second one. */
  lemma FinishedWhileArmed(e: Source)
    ensures Playable(2, CbPair(Fiber(INIT, true), Scan, Enter(0, false), [], map[], 1))
  {
    CallbackArms(e);
    var s6 := CbPair(Fiber(EXEC, false), Run(0, true, true), Scan, [ENTRY], map[], 1);
    var s7 := CbPair(Fiber(TERM, false), Leave(0, true), Scan, [ENTRY], map[], 1);
    PlayOn(2, s6, Finish(0, true), s7);
    var s8 := CbPair(Fiber(TERM, true), Post(0, true), Scan, [ENTRY], map[], 1);
    PlayOn(2, s7, SwapOut(0), s8);
    var s9 := CbPair(Fiber(TERM, true), Fix(0, true), Scan, [ENTRY], map[], 0);
    PlayOn(2, s8, Release(0), s9);
    ResetAndTaken();
  }

  lemma ResetAndTaken()
    requires Playable(2, CbPair(Fiber(TERM, true), Fix(0, true), Scan, [ENTRY], map[], 0))
    ensures Playable(2, CbPair(Fiber(INIT, true), Scan, Enter(0, false), [], map[], 1))
  {
    var s9 := CbPair(Fiber(TERM, true), Fix(0, true), Scan, [ENTRY], map[], 0);
    var s10 := CbPair(Fiber(INIT, true), Scan, Scan, [ENTRY], map[], 0);
    PlayOn(2, s9, Settle(0), s10);
    PlayOn(2, s10, Take(1, 0), CbPair(Fiber(INIT, true), Scan, Enter(0, false), [], map[], 1));
  }

  /** A plain fiber may finish with its wake-up out: the thread that takes it discards it. */
  lemma DiscardIsReached(e: Source)
    ensures var s := Pair(Fiber(TERM, false), Leave(0, false), Enter(0, false), [], map[], 2);
            Reachable(2, s) && Enabled(s, Discard(1)) && !Enabled(s, SwapIn(1))
  {
    DiscardReached(e);
  }

  lemma DiscardReached(e: Source)
    ensures Reachable(2, Pair(Fiber(TERM, false), Leave(0, false), Enter(0, false), [], map[], 2))
  {
    FinishQueued(e);
    var s6 := Pair(Fiber(TERM, false), Leave(0, false), Scan, [ENTRY], map[], 1);
    ReachOn(2, s6, Take(1, 0), Pair(Fiber(TERM, false), Leave(0, false), Enter(0, false), [], map[], 2));
  }

  lemma FinishQueued(e: Source)
    ensures Reachable(2, Pair(Fiber(TERM, false), Leave(0, false), Scan, [ENTRY], map[], 1))
  {
    FireOne(e);
    var s5 := Pair(Fiber(EXEC, false), Run(0, false, true), Scan, [ENTRY], map[], 1);
    ReachOn(2, s5, Finish(0, true), Pair(Fiber(TERM, false), Leave(0, false), Scan, [ENTRY], map[], 1));
  }
}
