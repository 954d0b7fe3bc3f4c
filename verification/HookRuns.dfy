/**
 * What a hooked call (src/async/hook.cpp) does to the rest of the system, act by act, and what
 * is left of it when it is over.
 */
module HookRuns {
  import opened Basics
  import opened Scheduler
  import opened EventTable
  import opened FiberSystem
  import opened Hook

  /** Thread `t` and the fiber change, and nothing else but the waiters. */
  function With(s: System, t: nat, pc: Pc, f: nat, r: Fiber, pending: map<Source, Task>): System
    requires t < |s.threads| && f < |s.fibers|
  {
    s.(threads := s.threads[t := s.threads[t].(pc := pc)], fibers := s.fibers[f := r], pending := pending)
  }

  /** Calls, a failed addEvent and the look at the flag change nothing in the system. */
  lemma SilentActs(c: Setup, h: Hook, s: System, t: nat, act: Act)
    requires CanStep(c, h, s, Mine(t, act)) && (act.Call? || act == AddEvent(false) || act.Check?)
    ensures NextSystem(c, h, s, Mine(t, act)) == s
  {
  }

  /** addTimer sets a timer with the given callback, and nothing else. */
  lemma AddTimerSets(c: Setup, h: Hook, s: System, t: nat, id: nat, cb: nat)
    requires CanStep(c, h, s, Mine(t, AddTimer(id, cb)))
    ensures NextSystem(c, h, s, Mine(t, AddTimer(id, cb))) == s.(pending := s.pending[OnTimer(id) := CallbackTask(cb)])
    ensures Stepped(c, h, s, Mine(t, AddTimer(id, cb))).timer == Some(id)
  {
  }

  /** addEvent registers the fiber for its event, and hands its wake-up out. */
  lemma AddEventRegisters(c: Setup, h: Hook, s: System, t: nat)
    requires CanStep(c, h, s, Mine(t, AddEvent(true)))
    ensures NextSystem(c, h, s, Mine(t, AddEvent(true))) ==
            With(s, t, s.threads[t].pc.(armed := true), c.fiber, s.fibers[c.fiber], s.pending[c.source := FiberTask(c.fiber)])
  {
    assert s.fibers[c.fiber := s.fibers[c.fiber]] == s.fibers;
  }

  /** Suspending saves the fiber's context and leaves the thread at the end of its loop. */
  lemma SuspendSaves(c: Setup, h: Hook, s: System, t: nat)
    requires CanStep(c, h, s, Mine(t, Suspend))
    ensures NextSystem(c, h, s, Mine(t, Suspend)) ==
            With(s, t, Post(c.fiber, s.threads[t].pc.own), c.fiber, s.fibers[c.fiber].(saved := true), s.pending)
  {
  }

  /** Resuming runs the fiber on the thread that took it, with no wake-up out. */
  lemma ResumeRuns(c: Setup, h: Hook, s: System, t: nat)
    requires CanStep(c, h, s, Mine(t, Resume))
    ensures NextSystem(c, h, s, Mine(t, Resume)) ==
            With(s, t, Run(c.fiber, s.threads[t].pc.own, false), c.fiber, Fiber(EXEC, false), s.pending)
  {
  }

  /** Cancelling takes the timer out of the system, if it is still there, and nothing else. */
  lemma CancelTimerRemoves(n: nat, c: Setup, h: Hook, s: System, t: nat)
    requires Inside(n, c, h, s) && CanStep(c, h, s, Mine(t, CancelTimer))
    ensures h.timer.Some?
    ensures NextSystem(c, h, s, Mine(t, CancelTimer)) == s.(pending := s.pending - {OnTimer(h.timer.value)})
    ensures Stepped(c, h, s, Mine(t, CancelTimer)).timer == None
  {
    var src := OnTimer(h.timer.value);
    assert h.pc == Awake || h.pc == Failing;
    if src !in s.pending {
      assert s.pending - {src} == s.pending;
    }
  }

  /** An expiry takes the timer out and queues its callback; the callback is then in flight. */
  lemma ExpiryQueues(n: nat, c: Setup, h: Hook, s: System)
    requires Inside(n, c, h, s) && CanStep(c, h, s, Expire)
    ensures var src := OnTimer(h.timer.value);
            && s.pending[src].CallbackTask?
            && NextSystem(c, h, s, Expire) == s.(pending := s.pending - {src}, queue := s.queue + [Entry(s.pending[src], None)])
            && Stepped(c, h, s, Expire) == h.(inFlight := h.inFlight + 1)
  {
  }

  /**
   * The callback does nothing when the call is over or the flag is up. Otherwise it raises the
   * flag and triggers whatever waits in the event's slot, unless epoll refuses.
   */
  lemma StrikeDoes(c: Setup, h: Hook, s: System, ok: bool)
    requires CanStep(c, h, s, Strike(ok))
    ensures var h' := Stepped(c, h, s, Strike(ok));
            && h'.inFlight == h.inFlight - 1 && h'.pc == h.pc && h'.timer == h.timer
            && h'.cancelled == (h.cancelled || !h.pc.Returned?)
    ensures NextSystem(c, h, s, Strike(ok)) ==
            if !h.pc.Returned? && !h.cancelled && ok && c.source in s.pending
            then s.(pending := s.pending - {c.source}, queue := s.queue + [Entry(s.pending[c.source], None)])
            else s
  {
  }

  /** Everybody else goes on as they like, as long as they keep off this fiber and its timer. */
  lemma OthersAreFree(c: Setup, h: Hook, s: System, l: Label)
    requires !h.pc.Returned? && Enabled(s, l) && Disciplined(s, l)
    requires l.Arm? || l.YieldToReady? || l.YieldToHold? || l.Finish? || l.SwapIn? ==> s.threads[l.thread].pc.fiber != c.fiber
    requires h.timer.Some? && (l.Arm? || l.Register? || l.Fire? || l.Repeat? || l.Forget?) ==> l.source != OnTimer(h.timer.value)
    ensures CanStep(c, h, s, Others(l)) && NextSystem(c, h, s, Others(l)) == Next(s, l) && Stepped(c, h, s, Others(l)) == h
  {
  }

  // ---------------------------------------------------------------- no timer is left behind

  /** Some wait of the call set timer `id`, and nobody else has set a timer of that identity since. */
  predicate SetByCall(run: seq<Step>, id: nat, i: nat) {
    && i < |run| && run[i].Mine? && run[i].act.AddTimer? && run[i].act.id == id
    && forall k :: i < k < |run| && run[k].Others? ==> !Registers(run[k].l, id)
  }

  predicate Registers(l: Label, id: nat) {
    (l.Register? || l.Arm?) && l.source == OnTimer(id)
  }

  lemma PendingTimerIsNew(s: System, l: Label, id: nat)
    requires Enabled(s, l) && OnTimer(id) !in s.pending && !Registers(l, id)
    ensures OnTimer(id) !in Next(s, l).pending
  {
  }

  /** One step: a timer that is not the current one of the call stays gone. */
  lemma GoneStep(n: nat, c: Setup, h: Hook, s: System, a: Step, id: nat)
    requires Inside(n, c, h, s) && CanStep(c, h, s, a) && !(a.Others? && Registers(a.l, id))
    requires OnTimer(id) in s.pending ==> h.timer == Some(id)
    ensures OnTimer(id) in NextSystem(c, h, s, a).pending ==> Stepped(c, h, s, a).timer == Some(id)
  {
    match a
    case Mine(t, act) => GoneMine(n, c, h, s, t, act, id);
    case Expire => ExpiryQueues(n, c, h, s);
    case Strike(ok) => StrikeDoes(c, h, s, ok);
    case Others(l) =>
      if OnTimer(id) !in s.pending {
        PendingTimerIsNew(s, l, id);
      }
  }

  lemma GoneMine(n: nat, c: Setup, h: Hook, s: System, t: nat, act: Act, id: nat)
    requires Inside(n, c, h, s) && CanStep(c, h, s, Mine(t, act))
    requires OnTimer(id) in s.pending ==> h.timer == Some(id)
    ensures OnTimer(id) in NextSystem(c, h, s, Mine(t, act)).pending ==> Stepped(c, h, s, Mine(t, act)).timer == Some(id)
  {
    match act
    case Call(_) => SilentActs(c, h, s, t, act);
    case AddTimer(i, cb) => AddTimerSets(c, h, s, t, i, cb);
    case AddEvent(ok) =>
      if ok {
        AddEventRegisters(c, h, s, t);
      } else {
        SilentActs(c, h, s, t, act);
      }
    case Suspend => SuspendSaves(c, h, s, t);
    case Resume => ResumeRuns(c, h, s, t);
    case CancelTimer => CancelTimerRemoves(n, c, h, s, t);
    case Check(_) => SilentActs(c, h, s, t, act);
  }

  /** Over a call, a timer it has set is pending only while it is the timer of the current wait. */
  lemma {:induction false} OnlyCurrentTimer(n: nat, c: Setup, from: Joint, run: seq<Step>, id: nat, i: nat)
    requires Starts(n, c, from.h, from.s) && Played(c, from, run).Some? && SetByCall(run, id, i)
    ensures var j := Played(c, from, run).value; OnTimer(id) in j.s.pending ==> j.h.timer == Some(id)
  {
    var init, a := run[..|run| - 1], run[|run| - 1];
    var j := Played(c, from, init).value;
    HookIsDisciplined(n, c, from, init);
    if i == |run| - 1 {
      AddTimerSets(c, j.h, j.s, a.thread, id, a.act.cb);
    } else {
      assert SetByCall(init, id, i);
      OnlyCurrentTimer(n, c, from, init, id, i);
      GoneStep(n, c, j.h, j.s, a, id);
    }
  }

  /** No timer outlives its wait, let alone the call. */
  lemma NoTimerLeft(n: nat, c: Setup, from: Joint, run: seq<Step>, id: nat, i: nat)
    requires Starts(n, c, from.h, from.s) && Played(c, from, run).Some? && SetByCall(run, id, i)
    requires var pc := Played(c, from, run).value.h.pc; pc.Returned? || pc == Calling || pc == Blocked || pc == Checking
    ensures OnTimer(id) !in Played(c, from, run).value.s.pending
  {
    HookIsDisciplined(n, c, from, run);
    OnlyCurrentTimer(n, c, from, run, id, i);
  }

  // ---------------------------------------------------------------- a wait that is served, and one that times out

  const TIMER := OnTimer(1)
  const EVENT := OnEvent(5, READ)
  const BOTH := map[TIMER := CallbackTask(9), EVENT := FiberTask(0)]
  const WAKE := Entry(FiberTask(0), None)

  /** Two threads, the second at `q`; fiber 0 is the reader. */
  function Two(f: Fiber, p: Pc, q: Pc, queue: seq<Entry>, pending: map<Source, Task>, active: int): System {
    System([f], [Thread(p, None, false), Thread(q, None, false)], queue, pending, active, false)
  }

  /** The reader's call at `pc`, with its timer set. */
  function Waiting(pc: HookPc): Hook {
    Hook(pc, false, Some(1), 0, None, BLOCKED_CALL)
  }

  lemma GoOn(h: Hook, s: System, a: Step, h': Hook, s': System)
    requires Arrives(2, READER, h, s) && CanStep(READER, h, s, a)
    requires h' == Stepped(READER, h, s, a) && s' == NextSystem(READER, h, s, a)
    ensures Arrives(2, READER, h', s')
  {
    ArriveOn(2, READER, h, s, a, h', s');
  }

  lemma ReaderRegisters()
    ensures Arrives(2, READER, Waiting(Armed), Two(Fiber(EXEC, false), Run(0, false, true), Scan, [], BOTH, 1))
  {
    ReaderSetsTimer();
    var s, s' := Two(Fiber(EXEC, false), Run(0, false, false), Scan, [], map[TIMER := CallbackTask(9)], 1), Two(Fiber(EXEC, false), Run(0, false, true), Scan, [], BOTH, 1);
    AddEventRegisters(READER, Waiting(Timed), s, 0);
    GoOn(Waiting(Timed), s, Mine(0, AddEvent(true)), Waiting(Armed), s');
  }

  lemma ReaderSuspends()
    ensures Arrives(2, READER, Waiting(Suspended), Two(Fiber(EXEC, true), Post(0, false), Scan, [], BOTH, 1))
  {
    ReaderRegisters();
    var s, s' := Two(Fiber(EXEC, false), Run(0, false, true), Scan, [], BOTH, 1), Two(Fiber(EXEC, true), Post(0, false), Scan, [], BOTH, 1);
    SuspendSaves(READER, Waiting(Armed), s, 0);
    GoOn(Waiting(Armed), s, Mine(0, Suspend), Waiting(Suspended), s');
  }

  lemma ReaderReleased()
    ensures Arrives(2, READER, Waiting(Suspended), Two(Fiber(EXEC, true), Fix(0, false), Scan, [], BOTH, 0))
  {
    ReaderSuspends();
    var s, s' := Two(Fiber(EXEC, true), Post(0, false), Scan, [], BOTH, 1), Two(Fiber(EXEC, true), Fix(0, false), Scan, [], BOTH, 0);
    assert Next(s, Release(0)) == s';
    GoOn(Waiting(Suspended), s, Others(Release(0)), Waiting(Suspended), s');
  }

  lemma ReaderHolds()
    ensures Arrives(2, READER, Waiting(Suspended), Two(Fiber(HOLD, true), Scan, Scan, [], BOTH, 0))
  {
    ReaderReleased();
    var s, s' := Two(Fiber(EXEC, true), Fix(0, false), Scan, [], BOTH, 0), Two(Fiber(HOLD, true), Scan, Scan, [], BOTH, 0);
    assert Next(s, Settle(0)) == s';
    GoOn(Waiting(Suspended), s, Others(Settle(0)), Waiting(Suspended), s');
  }

  lemma EventFires()
    ensures Arrives(2, READER, Waiting(Suspended), Two(Fiber(HOLD, true), Scan, Scan, [WAKE], map[TIMER := CallbackTask(9)], 0))
  {
    ReaderHolds();
    var s, s' := Two(Fiber(HOLD, true), Scan, Scan, [], BOTH, 0), Two(Fiber(HOLD, true), Scan, Scan, [WAKE], map[TIMER := CallbackTask(9)], 0);
    assert Next(s, Fire(EVENT)) == s';
    GoOn(Waiting(Suspended), s, Others(Fire(EVENT)), Waiting(Suspended), s');
  }

  lemma ReaderIsTaken()
    ensures Arrives(2, READER, Waiting(Suspended), Two(Fiber(HOLD, true), Enter(0, false), Scan, [], map[TIMER := CallbackTask(9)], 1))
  {
    EventFires();
    var s, s' := Two(Fiber(HOLD, true), Scan, Scan, [WAKE], map[TIMER := CallbackTask(9)], 0), Two(Fiber(HOLD, true), Enter(0, false), Scan, [], map[TIMER := CallbackTask(9)], 1);
    assert Next(s, Take(0, 0)) == s';
    GoOn(Waiting(Suspended), s, Others(Take(0, 0)), Waiting(Suspended), s');
  }

  lemma ReaderResumes()
    ensures Arrives(2, READER, Waiting(Awake), Two(Fiber(EXEC, false), Run(0, false, false), Scan, [], map[TIMER := CallbackTask(9)], 1))
  {
    ReaderIsTaken();
    var s, s' := Two(Fiber(HOLD, true), Enter(0, false), Scan, [], map[TIMER := CallbackTask(9)], 1), Two(Fiber(EXEC, false), Run(0, false, false), Scan, [], map[TIMER := CallbackTask(9)], 1);
    ResumeRuns(READER, Waiting(Suspended), s, 0);
    GoOn(Waiting(Suspended), s, Mine(0, Resume), Waiting(Awake), s');
  }

  lemma ReaderCleansUp()
    ensures Arrives(2, READER, Waiting(Checking).(timer := None), RUNNING)
  {
    ReaderResumes();
    var s, s' := Two(Fiber(EXEC, false), Run(0, false, false), Scan, [], map[TIMER := CallbackTask(9)], 1), RUNNING;
    assert Next(s, Forget(TIMER)) == s';
    GoOn(Waiting(Awake), s, Mine(0, CancelTimer), Waiting(Checking).(timer := None), s');
  }

  lemma ReaderChecks()
    ensures Arrives(2, READER, Waiting(Calling).(timer := None), RUNNING)
  {
    ReaderCleansUp();
    var s, s' := RUNNING, RUNNING;
    GoOn(Waiting(Checking).(timer := None), s, Mine(0, Check(false)), Waiting(Calling).(timer := None), s');
  }

  /** The event comes first: the call goes on, returns what it reads, and leaves nothing behind. */
  lemma ReaderIsServed(n: nat)
    ensures Arrives(2, READER, Hook(Returned(Result(CallResult.Done(n))), false, None, 0, None, BLOCKED_CALL + [CallResult.Done(n)]), RUNNING)
  {
    ReaderChecks();
    var s, s' := RUNNING, RUNNING;
    GoOn(Waiting(Calling).(timer := None), s, Mine(0, Call(CallResult.Done(n))), Hook(Returned(Result(CallResult.Done(n))), false, None, 0, None, BLOCKED_CALL + [CallResult.Done(n)]), s');
  }

  lemma TimerFires()
    ensures Arrives(2, READER, Waiting(Suspended).(inFlight := 1), Two(Fiber(HOLD, true), Scan, Scan, [CALLBACK], map[EVENT := FiberTask(0)], 0))
  {
    ReaderHolds();
    var s, s' := Two(Fiber(HOLD, true), Scan, Scan, [], BOTH, 0), Two(Fiber(HOLD, true), Scan, Scan, [CALLBACK], map[EVENT := FiberTask(0)], 0);
    assert Next(s, Fire(TIMER)) == s';
    GoOn(Waiting(Suspended), s, Expire, Waiting(Suspended).(inFlight := 1), s');
  }

  lemma CallbackIsTaken()
    ensures Arrives(2, READER, Waiting(Suspended).(inFlight := 1), Two(Fiber(HOLD, true), Scan, Callback(9), [], map[EVENT := FiberTask(0)], 1))
  {
    TimerFires();
    var s, s' := Two(Fiber(HOLD, true), Scan, Scan, [CALLBACK], map[EVENT := FiberTask(0)], 0), Two(Fiber(HOLD, true), Scan, Callback(9), [], map[EVENT := FiberTask(0)], 1);
    assert Next(s, Take(1, 0)) == s';
    GoOn(Waiting(Suspended).(inFlight := 1), s, Others(Take(1, 0)), Waiting(Suspended).(inFlight := 1), s');
  }

  /** The reader's call after its timer has struck. */
  function Struck(pc: HookPc, timer: Option<nat>): Hook {
    Hook(pc, true, timer, 0, Some(WhileArmed), BLOCKED_CALL)
  }

  lemma CallbackWakesReader()
    ensures Arrives(2, READER, Struck(Suspended, Some(1)), Two(Fiber(HOLD, true), Scan, Callback(9), [WAKE], map[], 1))
  {
    CallbackIsTaken();
    var s, s' := Two(Fiber(HOLD, true), Scan, Callback(9), [], map[EVENT := FiberTask(0)], 1), Two(Fiber(HOLD, true), Scan, Callback(9), [WAKE], map[], 1);
    assert Next(s, Fire(EVENT)) == s';
    GoOn(Waiting(Suspended).(inFlight := 1), s, Strike(true), Struck(Suspended, Some(1)), s');
  }

  lemma LateReaderIsTaken()
    ensures Arrives(2, READER, Struck(Suspended, Some(1)), Two(Fiber(HOLD, true), Enter(0, false), Callback(9), [], map[], 2))
  {
    CallbackWakesReader();
    var s, s' := Two(Fiber(HOLD, true), Scan, Callback(9), [WAKE], map[], 1), Two(Fiber(HOLD, true), Enter(0, false), Callback(9), [], map[], 2);
    assert Next(s, Take(0, 0)) == s';
    GoOn(Struck(Suspended, Some(1)), s, Others(Take(0, 0)), Struck(Suspended, Some(1)), s');
  }

  lemma LateReaderResumes()
    ensures Arrives(2, READER, Struck(Awake, Some(1)), Two(Fiber(EXEC, false), Run(0, false, false), Callback(9), [], map[], 2))
  {
    LateReaderIsTaken();
    var s, s' := Two(Fiber(HOLD, true), Enter(0, false), Callback(9), [], map[], 2), Two(Fiber(EXEC, false), Run(0, false, false), Callback(9), [], map[], 2);
    ResumeRuns(READER, Struck(Suspended, Some(1)), s, 0);
    GoOn(Struck(Suspended, Some(1)), s, Mine(0, Resume), Struck(Awake, Some(1)), s');
  }

  lemma LateReaderCleansUp()
    ensures Arrives(2, READER, Struck(Checking, None), Two(Fiber(EXEC, false), Run(0, false, false), Callback(9), [], map[], 2))
  {
    LateReaderResumes();
    var s, s' := Two(Fiber(EXEC, false), Run(0, false, false), Callback(9), [], map[], 2), Two(Fiber(EXEC, false), Run(0, false, false), Callback(9), [], map[], 2);
    GoOn(Struck(Awake, Some(1)), s, Mine(0, CancelTimer), Struck(Checking, None), s');
  }

  /** The timer comes first, with the event registered: the call reports the timeout. */
  lemma ReaderTimesOut()
    ensures Arrives(2, READER, Struck(Returned(TimedOut), None), Two(Fiber(EXEC, false), Run(0, false, false), Callback(9), [], map[], 2))
  {
    LateReaderCleansUp();
    var s, s' := Two(Fiber(EXEC, false), Run(0, false, false), Callback(9), [], map[], 2), Two(Fiber(EXEC, false), Run(0, false, false), Callback(9), [], map[], 2);
    GoOn(Struck(Checking, None), s, Mine(0, Check(true)), Struck(Returned(TimedOut), None), s');
  }
}
