/**
 * IOManager::stopping (src/async/iomanager.cpp) over the real table, timers and queue, and the
 * fiber system's pending waiters as the common view of table and timers.
 */
module Shutdown {
  import opened Basics
  import opened Scheduler
  import opened EventTable
  import opened Timers
  import opened FiberSystem
  import opened FiberInvariant
  import opened FiberSafety
  import opened FiberWork

  function TaskOf(w: Waiter): Task {
    match w
    case FiberWaiter(f) => FiberTask(f)
    case CallbackWaiter(c) => CallbackTask(c)
  }

  /** The pending events are the registrations in the table. */
  ghost predicate EventsAgree(pending: map<Source, Task>, l: Ledger) {
    && (forall fd: nat, ev: Event :: OnEvent(fd, ev) in pending <==> (fd, ev) in l.tickets)
    && (forall fd: nat, ev: Event :: (fd, ev) in l.tickets ==>
          l.tickets[(fd, ev)] < |l.issued| && pending[OnEvent(fd, ev)] == TaskOf(l.Waiter((fd, ev))))
  }

  /** The pending timers are the armed ones. */
  ghost predicate TimersAgree(pending: map<Source, Task>, h: Heap) {
    forall a: Address :: OnTimer(a) in pending <==> Armed(h, a)
  }

  // ---------------------------------------------------------------- the views move together

  /** The ledger after a step of the fiber system: what addEvent, delEvent and the triggers make of it. */
  ghost function LedgerAfter(l: Ledger, s: System, a: Label): Ledger
    requires Enabled(s, a)
  {
    match a
    case Arm(t, OnEvent(fd, ev)) => l.Enter((fd, ev), FiberWaiter(s.threads[t].pc.fiber))
    case Register(OnEvent(fd, ev), c) => l.Enter((fd, ev), CallbackWaiter(c))
    case Fire(OnEvent(fd, ev)) => l.Drop((fd, ev), true)
    case Forget(OnEvent(fd, ev)) => l.Drop((fd, ev), false)
    case _ => l
  }

  lemma EventsFollow(s: System, a: Label, l: Ledger)
    requires Enabled(s, a) && EventsAgree(s.pending, l)
    ensures EventsAgree(Next(s, a).pending, LedgerAfter(l, s, a))
  {
    if a.Arm? || a.Register? || a.Fire? || a.Forget? {
      if a.source.OnEvent? {
        EventMoves(s, a, l, a.source.fd, a.source.event);
      } else {
        OtherMoves(s, a, l);
      }
    } else {
      assert Next(s, a).pending == s.pending;
    }
  }

  lemma EventMoves(s: System, a: Label, l: Ledger, fd: nat, ev: Event)
    requires Enabled(s, a) && EventsAgree(s.pending, l)
    requires (a.Arm? || a.Register? || a.Fire? || a.Forget?) && a.source == OnEvent(fd, ev)
    ensures EventsAgree(Next(s, a).pending, LedgerAfter(l, s, a))
  {
    var l' := LedgerAfter(l, s, a);
    var p' := Next(s, a).pending;
    forall gd: nat, gv: Event
      ensures OnEvent(gd, gv) in p' <==> (gd, gv) in l'.tickets
      ensures (gd, gv) in l'.tickets ==>
                l'.tickets[(gd, gv)] < |l'.issued| && p'[OnEvent(gd, gv)] == TaskOf(l'.Waiter((gd, gv)))
    {
      assert OnEvent(gd, gv) == OnEvent(fd, ev) <==> (gd, gv) == (fd, ev);
    }
  }

  lemma OtherMoves(s: System, a: Label, l: Ledger)
    requires Enabled(s, a) && EventsAgree(s.pending, l)
    requires (a.Arm? || a.Register? || a.Fire? || a.Forget?) && a.source.OnTimer?
    ensures EventsAgree(Next(s, a).pending, l) && LedgerAfter(l, s, a) == l
  {
    var p' := Next(s, a).pending;
    forall fd: nat, ev: Event
      ensures OnEvent(fd, ev) in p' <==> OnEvent(fd, ev) in s.pending
      ensures OnEvent(fd, ev) in p' ==> p'[OnEvent(fd, ev)] == s.pending[OnEvent(fd, ev)]
    {
    }
  }

  /** The table hands exactly the waiter of an event that fires to the scheduler. */
  lemma QueuedFollow(s: System, a: Label, l: Ledger)
    requires Enabled(s, a) && EventsAgree(s.pending, l)
    ensures EventTable.Queued(LedgerAfter(l, s, a).exits) ==
            EventTable.Queued(l.exits) + if a.Fire? && a.source.OnEvent? then [l.Waiter((a.source.fd, a.source.event))] else []
    ensures a.Fire? && a.source.OnEvent? ==>
              Next(s, a).queue == s.queue + [Entry(TaskOf(l.Waiter((a.source.fd, a.source.event))), None)]
  {
    if (a.Fire? || a.Forget?) && a.source.OnEvent? {
      forall k | k in l.tickets ensures l.tickets[k] < |l.issued| {
        assert (k.0, k.1) in l.tickets;
      }
      assert OnEvent(a.source.fd, a.source.event) in s.pending <==> (a.source.fd, a.source.event) in l.tickets;
      DropIs(l, (a.source.fd, a.source.event), a.Fire?);
    }
    assert EventTable.Queued(l.exits) + [] == EventTable.Queued(l.exits);
  }

  /** Which timers are armed after a step: addTimer arms one, cancel and a last expiry disarm one. */
  ghost predicate TimersAfter(h: Heap, a: Label, h': Heap) {
    forall x: Address :: Armed(h', x) <==>
      if (a.Arm? || a.Register?) && a.source == OnTimer(x) then true
      else if (a.Fire? || a.Forget?) && a.source == OnTimer(x) then false
      else Armed(h, x)
  }

  lemma TimersFollow(s: System, a: Label, h: Heap, h': Heap)
    requires Enabled(s, a) && TimersAgree(s.pending, h) && TimersAfter(h, a, h')
    ensures TimersAgree(Next(s, a).pending, h')
  {
    var p' := Next(s, a).pending;
    forall x: Address ensures OnTimer(x) in p' <==> Armed(h', x) {
    }
  }

  // ---------------------------------------------------------------- stopping

  /**
   * IOManager::stopping. Past time zero it is true only when no timer is armed, epoll watches
   * nothing, every registration has left the table, and every scheduled task has been taken.
   */
  method TestStopping(tm: TimerManager, io: IOManager, q: TaskQueue, autoStop: bool, stopping: bool, now: nat) returns (b: bool)
    requires tm.Valid() && io.Valid() && q.Valid()
    modifies tm`tickled
    ensures tm.Valid() && !tm.tickled
    ensures b ==> autoStop && stopping && q.fibers == [] && q.activeThreadCount == 0
    ensures b && now > 0 ==> forall a :: !Armed(tm.heap, a)
    ensures b ==> io.kernel == map[] && |io.ledger.exits| == |io.ledger.issued|
    ensures b ==> multiset(q.scheduled) == multiset(q.taken)
    ensures (autoStop && stopping && q.fibers == [] && q.activeThreadCount == 0 && io.kernel == map[] &&
             forall a :: !Armed(tm.heap, a)) ==> b
  {
    var timer;
    ghost var deadline;
    timer, deadline := tm.GetNextTimer(now);
    AllOnesExactly(tm.heap, now, timer);
    NobodyWaits(io.fdContexts, io.kernel, io.pendingEventCount, io.scheduled, io.ledger);
    assert Unfold(0);
    b := timer == U64 - 1 && io.pendingEventCount == 0 && autoStop && stopping && q.fibers == [] && q.activeThreadCount == 0;
  }

  /**
   * When the test of idle succeeds past time zero, nothing is left: no timer is armed, no event
   * registered, no task queued, no thread between take and finish, and every context is saved;
   * a fiber that is READY is in the hands of a thread that has yet to requeue it.
   */
  lemma IdleExitsQuiet(n: nat, s: System, wait: nat, events: int, now: nat,
                       ctxs: seq<FdContext>, kernel: map<nat, set<Event>>, scheduled: seq<Waiter>, l: Ledger, h: Heap)
    requires Reachable(n, s) && Stopping(s, wait, events)
    requires Sound(ctxs, kernel, events, scheduled, l) && EventsAgree(s.pending, l)
    requires TimersAgree(s.pending, h) && Answer(h, now, wait) && now > 0
    ensures s.pending == map[] && kernel == map[] && (forall a :: !Armed(h, a))
    ensures forall t :: 0 <= t < |s.threads| ==> !Busy(s.threads[t].pc)
    ensures forall f :: 0 <= f < |s.fibers| ==> s.fibers[f].saved
    ensures forall f :: 0 <= f < |s.fibers| && s.fibers[f].state == READY ==>
              exists t :: 0 <= t < |s.threads| && s.threads[t].pc.Fix? && s.threads[t].pc.fiber == f
  {
    StoppingMeansQuiet(n, s, wait, events);
    NobodyWaits(ctxs, kernel, events, scheduled, l);
    AllOnesExactly(h, now, wait);
    NothingPending(s.pending, l, h);
  }

  /** Nothing is left to do: see IdleExitsQuiet. */
  ghost predicate Quiet(s: System) {
    && s.stop && s.queue == [] && s.pending == map[]
    && (forall t :: 0 <= t < |s.threads| ==> !Busy(s.threads[t].pc))
    && (forall f :: 0 <= f < |s.fibers| ==> s.fibers[f].saved)
    && (forall f :: 0 <= f < |s.fibers| && s.fibers[f].state == READY ==>
          exists t :: 0 <= t < |s.threads| && s.threads[t].pc.Fix? && s.threads[t].pc.fiber == f)
  }

  /** The answers of the stopping test are those of a table and timers that the state describes, past time zero. */
  ghost predicate Honest(s: System, wait: nat, events: int) {
    exists ctxs: seq<FdContext>, kernel: map<nat, set<Event>>, scheduled: seq<Waiter>, l: Ledger, h: Heap, now: nat ::
      && Sound(ctxs, kernel, events, scheduled, l) && EventsAgree(s.pending, l)
      && TimersAgree(s.pending, h) && Answer(h, now, wait) && now > 0
  }

  ghost predicate AllHonest(n: nat, run: seq<Label>) {
    forall i :: 0 <= i < |run| && run[i].QuitIdle? && After(n, run[..i]).Some? ==>
      Honest(After(n, run[..i]).value, run[i].wait, run[i].events)
  }

  /**
   * Over every run: a thread returns from run, and its idle fiber ends, only after a moment at
   * which nothing was left in the whole system, stopping had been requested, and this thread
   * found that out.
   */
  lemma ReturnsOnlyWhenQuiet(n: nat, run: seq<Label>, t: nat) returns (i: nat)
    requires After(n, run).Some? && AllHonest(n, run)
    requires t < |After(n, run).value.threads| && (After(n, run).value.threads[t].pc == Done || After(n, run).value.threads[t].idleOver)
    ensures i < |run| && run[i].QuitIdle? && run[i].thread == t
    ensures After(n, run[..i]).Some? && Quiet(After(n, run[..i]).value) && RequestStop in run[..i]
  {
    i := ReturnsOnlyWhenStopping(n, run, t);
    var s, wait, events := After(n, run[..i]).value, run[i].wait, run[i].events;
    StopIsRequested(n, run[..i]);
    var ctxs, kernel, scheduled, l, h, now :|
      Sound(ctxs, kernel, events, scheduled, l) && EventsAgree(s.pending, l) && TimersAgree(s.pending, h) && Answer(h, now, wait) && now > 0;
    IdleExitsQuiet(n, s, wait, events, now, ctxs, kernel, scheduled, l, h);
  }

  lemma NothingPending(pending: map<Source, Task>, l: Ledger, h: Heap)
    requires EventsAgree(pending, l) && TimersAgree(pending, h) && |l.tickets| == 0 && forall a :: !Armed(h, a)
    ensures pending == map[]
  {
    assert l.tickets == map[];
    forall src ensures src !in pending {
      match src
      case OnEvent(fd, ev) => assert OnEvent(fd, ev) in pending <==> (fd, ev) in l.tickets;
      case OnTimer(a) => assert OnTimer(a) in pending <==> Armed(h, a);
    }
  }

  /** At time zero a timer at the last instant is mistaken for none. */
  lemma LastInstantMissed(c: Callback)
    ensures var h: Heap := map[1 := Timer(false, U64 - 1, U64 - 1, Some(c))];
            Armed(h, 1) && Answer(h, 0, U64 - 1)
  {
    var h: Heap := map[1 := Timer(false, U64 - 1, U64 - 1, Some(c))];
    assert IsFront(h, 1);
  }
}
