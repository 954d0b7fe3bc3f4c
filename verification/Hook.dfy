/**
 * The wait, timeout and retry protocol of IOhook (src/async/hook.cpp), as the fiber's code on top
 * of the fiber system, interleaved with the timer whose callback sets tinfo->cancelled and
 * cancels the event, and with everything else that threads and events do.
 */
module Hook {
  import opened Basics
  import opened Scheduler
  import opened EventTable
  import opened FiberSystem
  import opened FiberInvariant
  import opened FiberSafety

  datatype Errno = EINTR | EAGAIN | Other(code: nat)

  datatype CallResult = Done(n: nat) | Failed(errno: Errno)

  datatype Outcome = Result(r: CallResult) | AddFailed | TimedOut

  /** Where the fiber is in IOhook. */
  datatype HookPc =
    | Calling                  // about to call the wrapped function
    | Blocked                  // it would block
    | Timed                    // the timer is set
    | Armed                    // the event is registered, not suspended yet
    | Suspended                // in YieldToHold
    | Awake                    // resumed, timer not cancelled yet
    | Checking                 // about to look at tinfo->cancelled
    | Failing                  // addEvent failed, timer not cancelled yet
    | Returned(o: Outcome)

  /** What the fiber does in IOhook; `seen` is the flag it reads. */
  datatype Act =
    | Call(r: CallResult)
    | AddTimer(id: nat, cb: nat)
    | AddEvent(ok: bool)
    | Suspend
    | Resume
    | CancelTimer
    | Check(seen: bool)

  /** Results that make the hook try again. */
  predicate Retried(r: CallResult) {
    r == Failed(EINTR) || r == Failed(EAGAIN)
  }

  /** The control flow of IOhook. */
  function After(pc: HookPc, a: Act, timeout: bool): Option<HookPc> {
    match a
    case Call(r) =>
      if pc != Calling then None
      else Some(if r == Failed(EINTR) then Calling else if r == Failed(EAGAIN) then Blocked else Returned(Result(r)))
    case AddTimer(_, _) => if pc == Blocked && timeout then Some(Timed) else None
    case AddEvent(ok) =>
      if pc != (if timeout then Timed else Blocked) then None
      else Some(if ok then Armed else if timeout then Failing else Returned(AddFailed))
    case Suspend => if pc == Armed then Some(Suspended) else None
    case Resume => if pc == Suspended then Some(if timeout then Awake else Checking) else None
    case CancelTimer =>
      if pc == Awake then Some(Checking) else if pc == Failing then Some(Returned(AddFailed)) else None
    case Check(seen) => if pc == Checking then Some(if seen then Returned(TimedOut) else Calling) else None
  }

  // ---------------------------------------------------------------- the call with its timer

  /** One call of IOhook: the calling fiber, what it waits for, and whether it has a timeout. */
  datatype Setup = Setup(fiber: nat, source: Source, timeout: bool)

  /** When the timer's callback took effect. */
  datatype Moment = BeforeArm | WhileArmed | Faulted | AfterWake

  /**
   * `cancelled` is tinfo->cancelled, `timer` the timer of this wait, `inFlight` the number of
   * callbacks that have expired and not run yet, `struck` when a callback took effect.
   */
  datatype Hook = Hook(
    pc: HookPc, cancelled: bool, timer: Option<nat>, inFlight: nat, struck: Option<Moment>, calls: seq<CallResult>)

  datatype Step =
    | Mine(thread: nat, act: Act)    // the fiber, on whatever thread runs it
    | Expire                         // listExpiredCb delivers the timer's callback
    | Strike(ok: bool)               // the callback runs; `ok` is whether epoll_ctl succeeds
    | Others(l: Label)               // anything else in the system

  predicate Waits(pc: HookPc) {
    pc == Armed || pc == Suspended
  }

  predicate HasTimer(pc: HookPc) {
    pc == Timed || pc == Armed || pc == Suspended || pc == Awake || pc == Failing
  }

  /** The event's slot holds this fiber. */
  predicate InSlot(c: Setup, s: System) {
    c.source in s.pending && s.pending[c.source] == FiberTask(c.fiber)
  }

  predicate RunsFiber(s: System, t: nat, f: nat) {
    t < |s.threads| && s.threads[t].pc.Run? && s.threads[t].pc.fiber == f
  }

  /** The callback finds tinfo alive and not cancelled. */
  predicate TakesEffect(h: Hook) {
    !h.pc.Returned? && !h.cancelled
  }

  /** The step of the fiber system that a step makes, if any. */
  function LabelOf(c: Setup, h: Hook, s: System, a: Step): Option<Label> {
    match a
    case Mine(t, act) =>
      (match act
       case AddTimer(id, cb) => Some(Register(OnTimer(id), cb))
       case AddEvent(ok) => if ok then Some(Arm(t, c.source)) else None
       case Suspend => Some(YieldToHold(t))
       case Resume => Some(SwapIn(t))
       case CancelTimer =>
         if h.timer.Some? && OnTimer(h.timer.value) in s.pending then Some(Forget(OnTimer(h.timer.value))) else None
       case _ => None)
    case Expire => if h.timer.Some? then Some(Fire(OnTimer(h.timer.value))) else None
    case Strike(ok) => if TakesEffect(h) && ok && c.source in s.pending then Some(Fire(c.source)) else None
    case Others(l) => Some(l)
  }

  /** The label is the fiber's own doing, or meddles with the timer. */
  predicate Touches(c: Setup, h: Hook, s: System, l: Label) {
    || ((l.Arm? || l.YieldToReady? || l.YieldToHold? || l.Finish?) && RunsFiber(s, l.thread, c.fiber))
    || (l.SwapIn? && l.thread < |s.threads| && HasFiber(s.threads[l.thread].pc) && s.threads[l.thread].pc.fiber == c.fiber)
    || ((l.Arm? || l.Register? || l.Fire? || l.Repeat? || l.Forget?) && h.timer.Some? && l.source == OnTimer(h.timer.value))
  }

  /** What the code allows; other threads are held to the discipline, the fiber is not. */
  ghost predicate CanStep(c: Setup, h: Hook, s: System, a: Step) {
    match a
    case Mine(t, act) =>
      && After(h.pc, act, c.timeout).Some?
      && (act.Resume? ==> t < |s.threads| && s.threads[t].pc.Enter? && s.threads[t].pc.fiber == c.fiber && Enabled(s, SwapIn(t)))
      && (!act.Resume? ==> RunsFiber(s, t, c.fiber) && On(s, t))
      && (act.AddTimer? ==> OnTimer(act.id) !in s.pending)
      && (act == AddEvent(true) ==> c.source !in s.pending)
      && (act.Check? ==> act.seen == h.cancelled)
    case Expire => !h.pc.Returned? && h.timer.Some? && OnTimer(h.timer.value) in s.pending
    case Strike(_) => h.inFlight > 0
    case Others(l) => !h.pc.Returned? && Enabled(s, l) && Disciplined(s, l) && !Touches(c, h, s, l)
  }

  function Stepped(c: Setup, h: Hook, s: System, a: Step): Hook {
    match a
    case Mine(t, act) =>
      var pc := After(h.pc, act, c.timeout);
      if pc.None? then h
      else
        h.(pc := pc.value,
           timer := if act.AddTimer? then Some(act.id) else if act.CancelTimer? then None else h.timer,
           calls := if act.Call? then h.calls + [act.r] else h.calls)
    case Expire => h.(inFlight := h.inFlight + 1)
    case Strike(ok) =>
      var ran := if h.inFlight > 0 then h.(inFlight := h.inFlight - 1) else h;
      if !TakesEffect(h) then ran
      else
        ran.(cancelled := true,
             struck := Some(if InSlot(c, s) then (if ok then WhileArmed else Faulted)
                            else if Waits(h.pc) || h.pc == Awake || h.pc == Checking then AfterWake
                            else BeforeArm))
    case Others(_) => h
  }

  ghost function NextSystem(c: Setup, h: Hook, s: System, a: Step): System {
    var l := LabelOf(c, h, s, a);
    if l.Some? && Enabled(s, l.value) then Next(s, l.value) else s
  }

  /** The call starts: the fiber runs and has no wake-up out. */
  ghost predicate Starts(n: nat, c: Setup, h: Hook, s: System) {
    && Reachable(n, s) && c.source.OnEvent?
    && h == Hook(Calling, false, None, 0, None, [])
    && exists t: nat :: RunsFiber(s, t, c.fiber) && !s.threads[t].pc.armed
  }

  // ---------------------------------------------------------------- the invariant

  /** The fiber has its wake-up out exactly while it waits, and on its own event only. */
  ghost predicate Couples(c: Setup, h: Hook, s: System) {
    && (forall t: nat :: RunsFiber(s, t, c.fiber) ==> h.pc != Suspended && (s.threads[t].pc.armed <==> h.pc == Armed))
    && (forall src :: src in s.pending && s.pending[src] == FiberTask(c.fiber) ==> src == c.source && Waits(h.pc))
  }

  /** A timer belongs to every wait with a timeout, and is set, in flight or has struck. */
  ghost predicate TimerKept(c: Setup, h: Hook, s: System) {
    && (h.timer.Some? <==> c.timeout && HasTimer(h.pc))
    && (h.pc == Timed || h.pc == Awake || h.pc == Failing ==> c.timeout)
    && (h.timer.Some? && OnTimer(h.timer.value) in s.pending ==> s.pending[OnTimer(h.timer.value)].CallbackTask?)
    && (h.timer.Some? ==> OnTimer(h.timer.value) in s.pending || h.inFlight > 0 || h.cancelled)
  }

  /** When a callback may have struck. */
  ghost predicate StruckRight(c: Setup, h: Hook, s: System) {
    && (h.cancelled <==> h.struck.Some?)
    && (InSlot(c, s) && h.cancelled ==> h.struck == Some(BeforeArm) || h.struck == Some(Faulted))
    && (h.cancelled && (h.pc == Calling || h.pc == Blocked || h.pc == Timed || h.pc == Failing) ==> h.struck == Some(BeforeArm))
    && (h.pc == Returned(TimedOut) ==> h.cancelled)
  }

  /** The calls made so far: all but the last one were tried again. */
  predicate CallsRight(h: Hook) {
    && (forall i :: 0 <= i < |h.calls| - 1 ==> Retried(h.calls[i]))
    && if h.pc.Returned? && h.pc.o.Result? then h.calls != [] && h.calls[|h.calls| - 1] == h.pc.o.r && !Retried(h.pc.o.r)
       else h.calls == [] || Retried(h.calls[|h.calls| - 1])
  }

  ghost predicate Inside(n: nat, c: Setup, h: Hook, s: System) {
    Reachable(n, s) && c.source.OnEvent? && Couples(c, h, s) && TimerKept(c, h, s) && StruckRight(c, h, s) && CallsRight(h)
  }

  lemma StartsInside(n: nat, c: Setup, h: Hook, s: System)
    requires Starts(n, c, h, s)
    ensures Inside(n, c, h, s)
  {
    var t: nat :| RunsFiber(s, t, c.fiber) && !s.threads[t].pc.armed;
    var hist := Invariant(n, s);
    assert ThreadOk(t, s.threads[t], s.fibers, hist);
    forall u: nat | RunsFiber(s, u, c.fiber) ensures u == t {
      NoFiberHeldTwice(n, s, t, u, c.fiber);
    }
    forall src | src in s.pending ensures s.pending[src] != FiberTask(c.fiber) {
      assert TaskAt(s.pending[src], Pending(src), hist);
    }
  }

  // ---------------------------------------------------------------- every step keeps it

  lemma Assembled(n: nat, c: Setup, h: Hook, s: System)
    requires Reachable(n, s) && c.source.OnEvent? && Couples(c, h, s)
    requires TimerKept(c, h, s) && StruckRight(c, h, s) && CallsRight(h)
    ensures Inside(n, c, h, s)
  {
  }

  lemma Reaches(n: nat, s: System, l: Label)
    requires Reachable(n, s) && Enabled(s, l) && Disciplined(s, l)
    ensures Reachable(n, Next(s, l))
  {
    ReachOn(n, s, l, Next(s, l));
  }

  /** Acts that leave the fiber system alone, while the fiber does not wait. */
  lemma SameCouples(c: Setup, h: Hook, h': Hook, s: System)
    requires Couples(c, h, s) && !Waits(h.pc) && !Waits(h'.pc)
    ensures Couples(c, h', s)
  {
  }

  lemma CallKeeps(n: nat, c: Setup, h: Hook, s: System, t: nat, r: CallResult)
    requires Inside(n, c, h, s) && CanStep(c, h, s, Mine(t, Call(r)))
    ensures Inside(n, c, Stepped(c, h, s, Mine(t, Call(r))), s)
  {
    var h' := Stepped(c, h, s, Mine(t, Call(r)));
    SameCouples(c, h, h', s);
    CallTimer(c, h, s, t, r);
    Assembled(n, c, h', s);
  }

  lemma CallTimer(c: Setup, h: Hook, s: System, t: nat, r: CallResult)
    requires TimerKept(c, h, s) && StruckRight(c, h, s) && CallsRight(h) && After(h.pc, Call(r), c.timeout).Some?
    requires !InSlot(c, s) || Waits(h.pc)
    ensures var h' := Stepped(c, h, s, Mine(t, Call(r))); TimerKept(c, h', s) && StruckRight(c, h', s) && CallsRight(h')
  {
  }

  lemma AddEventFails(n: nat, c: Setup, h: Hook, s: System, t: nat)
    requires Inside(n, c, h, s) && CanStep(c, h, s, Mine(t, AddEvent(false)))
    ensures Inside(n, c, Stepped(c, h, s, Mine(t, AddEvent(false))), s)
  {
    var h' := Stepped(c, h, s, Mine(t, AddEvent(false)));
    SameCouples(c, h, h', s);
    AddEventFailsTimer(c, h, s, t);
    Assembled(n, c, h', s);
  }

  lemma AddEventFailsTimer(c: Setup, h: Hook, s: System, t: nat)
    requires TimerKept(c, h, s) && StruckRight(c, h, s) && CallsRight(h) && After(h.pc, AddEvent(false), c.timeout).Some?
    ensures var h' := Stepped(c, h, s, Mine(t, AddEvent(false))); TimerKept(c, h', s) && StruckRight(c, h', s) && CallsRight(h')
  {
  }

  lemma CheckKeeps(n: nat, c: Setup, h: Hook, s: System, t: nat, seen: bool)
    requires Inside(n, c, h, s) && CanStep(c, h, s, Mine(t, Check(seen)))
    ensures Inside(n, c, Stepped(c, h, s, Mine(t, Check(seen))), s)
  {
    var h' := Stepped(c, h, s, Mine(t, Check(seen)));
    SameCouples(c, h, h', s);
    CheckTimer(c, h, s, t, seen);
    Assembled(n, c, h', s);
  }

  lemma CheckTimer(c: Setup, h: Hook, s: System, t: nat, seen: bool)
    requires TimerKept(c, h, s) && StruckRight(c, h, s) && CallsRight(h) && After(h.pc, Check(seen), c.timeout).Some?
    requires seen == h.cancelled && (!InSlot(c, s) || Waits(h.pc))
    ensures var h' := Stepped(c, h, s, Mine(t, Check(seen))); TimerKept(c, h', s) && StruckRight(c, h', s) && CallsRight(h')
  {
  }

  lemma AddTimerKeeps(n: nat, c: Setup, h: Hook, s: System, t: nat, id: nat, cb: nat)
    requires Inside(n, c, h, s) && CanStep(c, h, s, Mine(t, AddTimer(id, cb)))
    ensures Enabled(s, Register(OnTimer(id), cb))
    ensures Inside(n, c, Stepped(c, h, s, Mine(t, AddTimer(id, cb))), Next(s, Register(OnTimer(id), cb)))
  {
    var h', s' := Stepped(c, h, s, Mine(t, AddTimer(id, cb))), Next(s, Register(OnTimer(id), cb));
    Reaches(n, s, Register(OnTimer(id), cb));
    RegisterPending(s, id, cb);
    PendingCouples(c, h, h', s, s');
    AddTimerTimer(c, h, s, t, id, cb, s');
    Assembled(n, c, h', s');
  }

  lemma RegisterPending(s: System, id: nat, cb: nat)
    requires Enabled(s, Register(OnTimer(id), cb))
    ensures var s' := Next(s, Register(OnTimer(id), cb));
            s'.threads == s.threads && s'.pending == s.pending[OnTimer(id) := CallbackTask(cb)]
  {
  }

  /** The threads stay, and no new slot holds the fiber. */
  lemma PendingCouples(c: Setup, h: Hook, h': Hook, s: System, s': System)
    requires Couples(c, h, s) && (h'.pc == h.pc || (!Waits(h.pc) && !Waits(h'.pc)))
    requires s'.threads == s.threads
    requires forall src :: src in s'.pending && s'.pending[src] == FiberTask(c.fiber) ==> src in s.pending && s.pending[src] == FiberTask(c.fiber)
    ensures Couples(c, h', s')
  {
    forall t: nat | RunsFiber(s', t, c.fiber) ensures h'.pc != Suspended && (s'.threads[t].pc.armed <==> h'.pc == Armed) {
      assert RunsFiber(s, t, c.fiber);
    }
  }

  lemma AddTimerTimer(c: Setup, h: Hook, s: System, t: nat, id: nat, cb: nat, s': System)
    requires TimerKept(c, h, s) && StruckRight(c, h, s) && CallsRight(h) && c.source.OnEvent?
    requires After(h.pc, AddTimer(id, cb), c.timeout).Some? && s'.pending == s.pending[OnTimer(id) := CallbackTask(cb)]
    ensures var h' := Stepped(c, h, s, Mine(t, AddTimer(id, cb))); TimerKept(c, h', s') && StruckRight(c, h', s') && CallsRight(h')
  {
  }

  ghost predicate OnlyRunner(s: System, t: nat, f: nat) {
    forall u: nat :: RunsFiber(s, u, f) ==> u == t
  }

  lemma OneRunner(n: nat, s: System, t: nat, f: nat)
    requires Reachable(n, s) && RunsFiber(s, t, f)
    ensures OnlyRunner(s, t, f)
  {
    forall u: nat | RunsFiber(s, u, f) ensures u == t {
      NoFiberHeldTwice(n, s, t, u, f);
    }
  }

  /** The event is registered: the fiber had no wake-up out, so the step is disciplined. */
  lemma AddEventKeeps(n: nat, c: Setup, h: Hook, s: System, t: nat)
    requires Inside(n, c, h, s) && CanStep(c, h, s, Mine(t, AddEvent(true)))
    ensures Enabled(s, Arm(t, c.source)) && Disciplined(s, Arm(t, c.source))
    ensures Inside(n, c, Stepped(c, h, s, Mine(t, AddEvent(true))), Next(s, Arm(t, c.source)))
  {
    OneRunner(n, s, t, c.fiber);
    AddEventCouples(c, h, s, t);
    Reaches(n, s, Arm(t, c.source));
    AddEventTimer(c, h, s, t);
    Assembled(n, c, Stepped(c, h, s, Mine(t, AddEvent(true))), Next(s, Arm(t, c.source)));
  }

  lemma AddEventCouples(c: Setup, h: Hook, s: System, t: nat)
    requires Couples(c, h, s) && CanStep(c, h, s, Mine(t, AddEvent(true))) && OnlyRunner(s, t, c.fiber)
    ensures Enabled(s, Arm(t, c.source)) && Disciplined(s, Arm(t, c.source))
    ensures Couples(c, Stepped(c, h, s, Mine(t, AddEvent(true))), Next(s, Arm(t, c.source)))
  {
    var s' := Next(s, Arm(t, c.source));
    forall u: nat | RunsFiber(s', u, c.fiber) ensures u == t && s'.threads[u].pc.armed {
      assert RunsFiber(s, u, c.fiber);
    }
  }

  lemma AddEventTimer(c: Setup, h: Hook, s: System, t: nat)
    requires CanStep(c, h, s, Mine(t, AddEvent(true))) && Enabled(s, Arm(t, c.source)) && c.source.OnEvent?
    requires TimerKept(c, h, s) && StruckRight(c, h, s) && CallsRight(h)
    ensures TimerKept(c, Stepped(c, h, s, Mine(t, AddEvent(true))), Next(s, Arm(t, c.source)))
    ensures StruckRight(c, Stepped(c, h, s, Mine(t, AddEvent(true))), Next(s, Arm(t, c.source)))
    ensures CallsRight(Stepped(c, h, s, Mine(t, AddEvent(true))))
  {
  }

  lemma SuspendKeeps(n: nat, c: Setup, h: Hook, s: System, t: nat)
    requires Inside(n, c, h, s) && CanStep(c, h, s, Mine(t, Suspend))
    ensures Enabled(s, YieldToHold(t)) && Disciplined(s, YieldToHold(t))
    ensures Inside(n, c, Stepped(c, h, s, Mine(t, Suspend)), Next(s, YieldToHold(t)))
  {
    OneRunner(n, s, t, c.fiber);
    SuspendCouples(c, h, s, t);
    Reaches(n, s, YieldToHold(t));
    SuspendTimer(c, h, s, t);
    Assembled(n, c, Stepped(c, h, s, Mine(t, Suspend)), Next(s, YieldToHold(t)));
  }

  lemma SuspendTimer(c: Setup, h: Hook, s: System, t: nat)
    requires TimerKept(c, h, s) && StruckRight(c, h, s) && CallsRight(h) && After(h.pc, Suspend, c.timeout).Some?
    requires Enabled(s, YieldToHold(t)) && Next(s, YieldToHold(t)).pending == s.pending
    ensures var h' := Stepped(c, h, s, Mine(t, Suspend)); var s' := Next(s, YieldToHold(t));
            TimerKept(c, h', s') && StruckRight(c, h', s') && CallsRight(h')
  {
  }

  lemma SuspendCouples(c: Setup, h: Hook, s: System, t: nat)
    requires Couples(c, h, s) && CanStep(c, h, s, Mine(t, Suspend)) && OnlyRunner(s, t, c.fiber)
    ensures Enabled(s, YieldToHold(t)) && Next(s, YieldToHold(t)).pending == s.pending
    ensures Couples(c, Stepped(c, h, s, Mine(t, Suspend)), Next(s, YieldToHold(t)))
  {
    var s' := Next(s, YieldToHold(t));
    forall u: nat ensures !RunsFiber(s', u, c.fiber) {
      assert RunsFiber(s', u, c.fiber) ==> RunsFiber(s, u, c.fiber);
    }
  }

  /** A fiber about to be resumed has no wake-up out. */
  lemma NoneOut(n: nat, s: System, t: nat, f: nat)
    requires Reachable(n, s) && Enabled(s, SwapIn(t)) && s.threads[t].pc.fiber == f
    ensures forall src :: src in s.pending ==> s.pending[src] != FiberTask(f)
  {
    var hist := Invariant(n, s);
    assert ThreadOk(t, s.threads[t], s.fibers, hist);
    assert FiberOk(f, s.fibers[f], hist.holder[f], hist.token[f], hist.over[f], s.threads, s.queue);
    forall src | src in s.pending ensures s.pending[src] != FiberTask(f) {
      assert TaskAt(s.pending[src], Pending(src), hist);
    }
  }

  lemma ResumeKeeps(n: nat, c: Setup, h: Hook, s: System, t: nat)
    requires Inside(n, c, h, s) && CanStep(c, h, s, Mine(t, Resume))
    ensures Enabled(s, SwapIn(t)) && Disciplined(s, SwapIn(t))
    ensures Inside(n, c, Stepped(c, h, s, Mine(t, Resume)), Next(s, SwapIn(t)))
  {
    Reaches(n, s, SwapIn(t));
    NoneOut(n, s, t, c.fiber);
    ResumeCouples(c, h, s, t);
    ResumeTimer(c, h, s, t);
    Assembled(n, c, Stepped(c, h, s, Mine(t, Resume)), Next(s, SwapIn(t)));
  }

  lemma ResumeTimer(c: Setup, h: Hook, s: System, t: nat)
    requires TimerKept(c, h, s) && StruckRight(c, h, s) && CallsRight(h) && After(h.pc, Resume, c.timeout).Some?
    requires Enabled(s, SwapIn(t)) && !InSlot(c, s)
    ensures var h' := Stepped(c, h, s, Mine(t, Resume)); var s' := Next(s, SwapIn(t));
            TimerKept(c, h', s') && StruckRight(c, h', s') && CallsRight(h')
  {
    assert Next(s, SwapIn(t)).pending == s.pending;
  }

  lemma ResumeCouples(c: Setup, h: Hook, s: System, t: nat)
    requires Couples(c, h, s) && CanStep(c, h, s, Mine(t, Resume))
    requires forall src :: src in s.pending ==> s.pending[src] != FiberTask(c.fiber)
    ensures Couples(c, Stepped(c, h, s, Mine(t, Resume)), Next(s, SwapIn(t)))
  {
    var s' := Next(s, SwapIn(t));
    forall u: nat | RunsFiber(s', u, c.fiber) ensures u == t && !s'.threads[u].pc.armed {
      assert u != t ==> RunsFiber(s, u, c.fiber);
    }
  }

  lemma CancelTimerKeeps(n: nat, c: Setup, h: Hook, s: System, t: nat)
    requires Inside(n, c, h, s) && CanStep(c, h, s, Mine(t, CancelTimer))
    ensures Inside(n, c, Stepped(c, h, s, Mine(t, CancelTimer)), NextSystem(c, h, s, Mine(t, CancelTimer)))
  {
    var h', s', src := Stepped(c, h, s, Mine(t, CancelTimer)), NextSystem(c, h, s, Mine(t, CancelTimer)), OnTimer(h.timer.value);
    if src in s.pending {
      Reaches(n, s, Forget(src));
      ForgetPending(s, src);
    } else {
      assert s.pending - {src} == s.pending;
    }
    PendingCouples(c, h, h', s, s');
    CancelTimerTimer(c, h, s, t, s');
    Assembled(n, c, h', s');
  }

  lemma ForgetPending(s: System, src: Source)
    requires Enabled(s, Forget(src))
    ensures var s' := Next(s, Forget(src)); s'.threads == s.threads && s'.pending == s.pending - {src}
  {
  }

  lemma CancelTimerTimer(c: Setup, h: Hook, s: System, t: nat, s': System)
    requires TimerKept(c, h, s) && StruckRight(c, h, s) && CallsRight(h) && c.source.OnEvent?
    requires After(h.pc, CancelTimer, c.timeout).Some? && h.timer.Some? && s'.pending == s.pending - {OnTimer(h.timer.value)}
    requires !InSlot(c, s)
    ensures var h' := Stepped(c, h, s, Mine(t, CancelTimer)); TimerKept(c, h', s') && StruckRight(c, h', s') && CallsRight(h')
  {
  }

  lemma ExpireKeeps(n: nat, c: Setup, h: Hook, s: System)
    requires Inside(n, c, h, s) && CanStep(c, h, s, Expire)
    ensures Inside(n, c, Stepped(c, h, s, Expire), NextSystem(c, h, s, Expire))
  {
    var h', s', id := Stepped(c, h, s, Expire), NextSystem(c, h, s, Expire), h.timer.value;
    Reaches(n, s, Fire(OnTimer(id)));
    FirePending(s, OnTimer(id));
    PendingCouples(c, h, h', s, s');
    ExpireTimer(c, h, s, s');
    Assembled(n, c, h', s');
  }

  lemma FirePending(s: System, src: Source)
    requires Enabled(s, Fire(src))
    ensures var s' := Next(s, Fire(src)); s'.threads == s.threads && s'.pending == s.pending - {src}
  {
  }

  lemma ExpireTimer(c: Setup, h: Hook, s: System, s': System)
    requires TimerKept(c, h, s) && StruckRight(c, h, s) && CallsRight(h) && c.source.OnEvent?
    requires h.timer.Some? && s'.pending == s.pending - {OnTimer(h.timer.value)}
    ensures var h' := Stepped(c, h, s, Expire); TimerKept(c, h', s') && StruckRight(c, h', s') && CallsRight(h')
  {
  }

  lemma StrikeKeeps(n: nat, c: Setup, h: Hook, s: System, ok: bool)
    requires Inside(n, c, h, s) && CanStep(c, h, s, Strike(ok))
    ensures Inside(n, c, Stepped(c, h, s, Strike(ok)), NextSystem(c, h, s, Strike(ok)))
  {
    if LabelOf(c, h, s, Strike(ok)).Some? {
      Reaches(n, s, Fire(c.source));
    }
  }

  /** Nobody else moves the fiber's threads or puts it into a slot. */
  lemma OthersApart(c: Setup, h: Hook, s: System, l: Label)
    requires Enabled(s, l) && !Touches(c, h, s, l)
    ensures forall t: nat :: RunsFiber(Next(s, l), t, c.fiber) ==> RunsFiber(s, t, c.fiber) && Next(s, l).threads[t].pc == s.threads[t].pc
  {
    forall t: nat | RunsFiber(Next(s, l), t, c.fiber)
      ensures RunsFiber(s, t, c.fiber) && Next(s, l).threads[t].pc == s.threads[t].pc
    {
      NotMoved(c, h, s, l, t);
    }
  }

  lemma NotMoved(c: Setup, h: Hook, s: System, l: Label, t: nat)
    requires Enabled(s, l) && !Touches(c, h, s, l) && RunsFiber(Next(s, l), t, c.fiber)
    ensures RunsFiber(s, t, c.fiber) && Next(s, l).threads[t].pc == s.threads[t].pc
  {
  }

  lemma OthersPending(c: Setup, h: Hook, s: System, l: Label)
    requires Enabled(s, l) && !Touches(c, h, s, l)
    ensures forall src :: src in Next(s, l).pending && Next(s, l).pending[src] == FiberTask(c.fiber) ==>
              src in s.pending && s.pending[src] == FiberTask(c.fiber)
  {
  }

  lemma OthersTimer(c: Setup, h: Hook, s: System, l: Label)
    requires Enabled(s, l) && !Touches(c, h, s, l) && h.timer.Some?
    ensures OnTimer(h.timer.value) in Next(s, l).pending <==> OnTimer(h.timer.value) in s.pending
    ensures OnTimer(h.timer.value) in s.pending ==>
              Next(s, l).pending[OnTimer(h.timer.value)] == s.pending[OnTimer(h.timer.value)]
  {
  }

  lemma OthersKeep(n: nat, c: Setup, h: Hook, s: System, l: Label)
    requires Inside(n, c, h, s) && CanStep(c, h, s, Others(l))
    ensures Inside(n, c, h, Next(s, l))
  {
    Reaches(n, s, l);
    OthersApart(c, h, s, l);
    OthersPending(c, h, s, l);
    if h.timer.Some? {
      OthersTimer(c, h, s, l);
    }
  }

  /** From the suspension to the look at the flag. */
  lemma WaitKeeps(n: nat, c: Setup, h: Hook, s: System, t: nat, act: Act)
    requires Inside(n, c, h, s) && CanStep(c, h, s, Mine(t, act)) && !act.Call? && !act.AddTimer? && !act.AddEvent?
    ensures var l := LabelOf(c, h, s, Mine(t, act)); l.Some? ==> Enabled(s, l.value) && Disciplined(s, l.value)
    ensures Inside(n, c, Stepped(c, h, s, Mine(t, act)), NextSystem(c, h, s, Mine(t, act)))
  {
    match act
    case Suspend => SuspendKeeps(n, c, h, s, t);
    case Resume => ResumeKeeps(n, c, h, s, t);
    case CancelTimer => CancelTimerKeeps(n, c, h, s, t);
    case Check(seen) => CheckKeeps(n, c, h, s, t, seen);
  }

  /** The fiber's own steps are steps of the fiber system that keep its discipline. */
  lemma MineKeeps(n: nat, c: Setup, h: Hook, s: System, t: nat, act: Act)
    requires Inside(n, c, h, s) && CanStep(c, h, s, Mine(t, act))
    ensures var l := LabelOf(c, h, s, Mine(t, act)); l.Some? ==> Enabled(s, l.value) && Disciplined(s, l.value)
    ensures Inside(n, c, Stepped(c, h, s, Mine(t, act)), NextSystem(c, h, s, Mine(t, act)))
  {
    match act
    case Call(r) => CallKeeps(n, c, h, s, t, r);
    case AddTimer(id, cb) => AddTimerKeeps(n, c, h, s, t, id, cb);
    case AddEvent(ok) =>
      if ok {
        AddEventKeeps(n, c, h, s, t);
      } else {
        AddEventFails(n, c, h, s, t);
      }
    case _ => WaitKeeps(n, c, h, s, t, act);
  }

  lemma StepKeepsInside(n: nat, c: Setup, h: Hook, s: System, a: Step)
    requires Inside(n, c, h, s) && CanStep(c, h, s, a)
    ensures Disciplines(c, h, s, a)
    ensures Inside(n, c, Stepped(c, h, s, a), NextSystem(c, h, s, a))
  {
    match a
    case Mine(t, act) => MineKeeps(n, c, h, s, t, act);
    case Expire => ExpireKeeps(n, c, h, s);
    case Strike(ok) => StrikeKeeps(n, c, h, s, ok);
    case Others(l) => OthersKeep(n, c, h, s, l);
  }

  /** What the step does to the fiber system is enabled and disciplined. */
  ghost predicate Disciplines(c: Setup, h: Hook, s: System, a: Step) {
    var l := LabelOf(c, h, s, a);
    l.Some? ==> Enabled(s, l.value) && Disciplined(s, l.value)
  }

  // ---------------------------------------------------------------- whole calls

  datatype Joint = Joint(h: Hook, s: System)

  /** A call of IOhook in the midst of the system, step by step. */
  ghost function Played(c: Setup, from: Joint, run: seq<Step>): Option<Joint> {
    if run == [] then Some(from)
    else
      var j := Played(c, from, run[..|run| - 1]);
      var a := run[|run| - 1];
      if j.Some? && CanStep(c, j.value.h, j.value.s, a)
      then Some(Joint(Stepped(c, j.value.h, j.value.s, a), NextSystem(c, j.value.h, j.value.s, a)))
      else None
  }

  /**
   * IOhook keeps the discipline: in every interleaving of the call with its timer and with the
   * rest of the system, all its steps are disciplined, so the whole is a run of the fiber system.
   */
  lemma {:induction false} HookIsDisciplined(n: nat, c: Setup, from: Joint, run: seq<Step>)
    requires Starts(n, c, from.h, from.s) && Played(c, from, run).Some?
    ensures Inside(n, c, Played(c, from, run).value.h, Played(c, from, run).value.s)
    ensures run != [] ==>
              var j := Played(c, from, run[..|run| - 1]).value; Disciplines(c, j.h, j.s, run[|run| - 1])
  {
    if run == [] {
      StartsInside(n, c, from.h, from.s);
    } else {
      HookIsDisciplined(n, c, from, run[..|run| - 1]);
      var j := Played(c, from, run[..|run| - 1]).value;
      StepKeepsInside(n, c, j.h, j.s, run[|run| - 1]);
    }
  }

  // ---------------------------------------------------------------- the timeout

  /** The callback is still to come and will find the flag down. */
  predicate TimeoutAhead(h: Hook, s: System) {
    TakesEffect(h) && h.timer.Some? && (OnTimer(h.timer.value) in s.pending || h.inFlight > 0)
  }

  /**
   * A waiting fiber can still be woken by its timeout exactly when no callback has struck before
   * the event was registered, nor failed to cancel it.
   */
  lemma TimeoutAheadExactly(n: nat, c: Setup, h: Hook, s: System)
    requires Inside(n, c, h, s) && c.timeout && Waits(h.pc) && InSlot(c, s)
    ensures TimeoutAhead(h, s) <==> !(h.struck == Some(BeforeArm) || h.struck == Some(Faulted))
  {
  }

  /** A callback that takes effect wakes the fiber exactly when its event is registered then. */
  lemma StrikeWakesExactly(n: nat, c: Setup, h: Hook, s: System)
    requires Inside(n, c, h, s) && h.inFlight > 0 && TakesEffect(h)
    ensures var s' := NextSystem(c, h, s, Strike(true));
            if InSlot(c, s) then s'.queue == s.queue + [Entry(FiberTask(c.fiber), None)]
            else (InQueue(s'.queue, c.fiber) <==> InQueue(s.queue, c.fiber))
    ensures Stepped(c, h, s, Strike(true)).struck == Some(WhileArmed) <==> InSlot(c, s)
  {
    if c.source in s.pending && !InSlot(c, s) {
      PushOther(s.queue, Entry(s.pending[c.source], None), c.fiber);
    }
  }

  lemma PushOther(q: seq<Entry>, e: Entry, f: nat)
    requires e.task != FiberTask(f)
    ensures InQueue(q + [e], f) <==> InQueue(q, f)
  {
    PushKeeps(q, e);
    if InQueue(q + [e], f) {
      var i :| 0 <= i < |q + [e]| && (q + [e])[i].task == FiberTask(f);
      assert i < |q| && q[i].task == FiberTask(f);
    }
  }

  /** The call reports a timeout exactly when a callback struck before the fiber looked. */
  lemma ReportsTimeoutExactly(n: nat, c: Setup, h: Hook, s: System, t: nat, seen: bool)
    requires Inside(n, c, h, s) && CanStep(c, h, s, Mine(t, Check(seen)))
    ensures Stepped(c, h, s, Mine(t, Check(seen))).pc == (if h.struck.Some? then Returned(TimedOut) else Calling)
  {
  }

  /** Struck too early, the wait is deaf: only its event, or deleting it, ends it. */
  lemma DeafToTimeout(n: nat, c: Setup, h: Hook, s: System, a: Step)
    requires Inside(n, c, h, s) && CanStep(c, h, s, a) && InSlot(c, s) && h.cancelled
    requires a != Others(Fire(c.source)) && a != Others(Forget(c.source))
    ensures InSlot(c, NextSystem(c, h, s, a)) && Stepped(c, h, s, a).cancelled
  {
    if a.Mine? {
      DeafMine(n, c, h, s, a.thread, a.act);
    } else if a.Others? {
      DeafOthers(c, s, a.l);
    }
  }

  /** However the run goes on, a wait struck too early never ends without its event. */
  lemma {:induction false} DeafForGood(n: nat, c: Setup, from: Joint, run: seq<Step>)
    requires Inside(n, c, from.h, from.s) && InSlot(c, from.s) && from.h.cancelled && Played(c, from, run).Some?
    requires forall i :: 0 <= i < |run| ==> run[i] != Others(Fire(c.source)) && run[i] != Others(Forget(c.source))
    ensures var j := Played(c, from, run).value;
            Inside(n, c, j.h, j.s) && InSlot(c, j.s) && j.h.cancelled && Waits(j.h.pc)
  {
    if run != [] {
      DeafForGood(n, c, from, run[..|run| - 1]);
      var j := Played(c, from, run[..|run| - 1]).value;
      StepKeepsInside(n, c, j.h, j.s, run[|run| - 1]);
      DeafToTimeout(n, c, j.h, j.s, run[|run| - 1]);
    }
  }

  lemma DeafMine(n: nat, c: Setup, h: Hook, s: System, t: nat, act: Act)
    requires Inside(n, c, h, s) && CanStep(c, h, s, Mine(t, act)) && InSlot(c, s)
    ensures InSlot(c, NextSystem(c, h, s, Mine(t, act)))
  {
    if act == Resume {
      NoneOut(n, s, t, c.fiber);
    } else {
      OnlySuspends(h, act, c.timeout);
      SuspendStays(c, s, t);
    }
  }

  lemma OnlySuspends(h: Hook, act: Act, timeout: bool)
    requires Waits(h.pc) && After(h.pc, act, timeout).Some? && act != Resume
    ensures act == Suspend
  {
  }

  lemma SuspendStays(c: Setup, s: System, t: nat)
    requires Enabled(s, YieldToHold(t)) && InSlot(c, s)
    ensures InSlot(c, Next(s, YieldToHold(t)))
  {
  }

  lemma DeafOthers(c: Setup, s: System, l: Label)
    requires Enabled(s, l) && InSlot(c, s) && l != Fire(c.source) && l != Forget(c.source)
    ensures InSlot(c, Next(s, l))
  {
  }

  // ---------------------------------------------------------------- a lost timeout

  /** Some interleaving of a call with the system gets there. */
  ghost predicate Arrives(n: nat, c: Setup, h: Hook, s: System) {
    exists from: Joint, run :: Starts(n, c, from.h, from.s) && Played(c, from, run) == Some(Joint(h, s))
  }

  lemma ArriveStart(n: nat, c: Setup, h: Hook, s: System)
    requires Starts(n, c, h, s)
    ensures Arrives(n, c, h, s)
  {
    assert Played(c, Joint(h, s), []) == Some(Joint(h, s));
  }

  lemma ArriveOn(n: nat, c: Setup, h: Hook, s: System, a: Step, h': Hook, s': System)
    requires Arrives(n, c, h, s) && CanStep(c, h, s, a) && h' == Stepped(c, h, s, a) && s' == NextSystem(c, h, s, a)
    ensures Arrives(n, c, h', s')
  {
    var from: Joint, run :| Starts(n, c, from.h, from.s) && Played(c, from, run) == Some(Joint(h, s));
    assert (run + [a])[..|run|] == run;
    assert Played(c, from, run + [a]) == Some(Joint(h', s'));
  }

  /** A reader with a timeout, and its system: thread 0 is at `pc`, the timer's callback is task 9. */
  const READER := Setup(0, OnEvent(5, READ), true)

  function Around(f: Fiber, pc: Pc, queue: seq<Entry>, pending: map<Source, Task>): System {
    Pair(f, pc, Scan, queue, pending, 1)
  }

  const RUNNING := Around(Fiber(EXEC, false), Run(0, false, false), [], map[])

  const BLOCKED_CALL := [Failed(EAGAIN)]

  const CALLBACK := Entry(CallbackTask(9), None)

  lemma ReaderBlocks()
    ensures Arrives(2, READER, Hook(Blocked, false, None, 0, None, BLOCKED_CALL), RUNNING)
  {
    RunOne();
    var h := Hook(Calling, false, None, 0, None, []);
    assert RunsFiber(RUNNING, 0, 0) && !RUNNING.threads[0].pc.armed;
    ArriveStart(2, READER, h, RUNNING);
    assert [] + [Failed(EAGAIN)] == BLOCKED_CALL;
    ArriveOn(2, READER, h, RUNNING, Mine(0, Call(Failed(EAGAIN))), Hook(Blocked, false, None, 0, None, BLOCKED_CALL), RUNNING);
  }

  lemma ReaderSetsTimer()
    ensures Arrives(2, READER, Hook(Timed, false, Some(1), 0, None, BLOCKED_CALL),
                    Around(Fiber(EXEC, false), Run(0, false, false), [], map[OnTimer(1) := CallbackTask(9)]))
  {
    ReaderBlocks();
    var s := Around(Fiber(EXEC, false), Run(0, false, false), [], map[OnTimer(1) := CallbackTask(9)]);
    assert Next(RUNNING, Register(OnTimer(1), 9)) == s;
    ArriveOn(2, READER, Hook(Blocked, false, None, 0, None, BLOCKED_CALL), RUNNING, Mine(0, AddTimer(1, 9)),
             Hook(Timed, false, Some(1), 0, None, BLOCKED_CALL), s);
  }

  lemma TimerExpires()
    ensures Arrives(2, READER, Hook(Timed, false, Some(1), 1, None, BLOCKED_CALL),
                    Around(Fiber(EXEC, false), Run(0, false, false), [CALLBACK], map[]))
  {
    ReaderSetsTimer();
    var s := Around(Fiber(EXEC, false), Run(0, false, false), [], map[OnTimer(1) := CallbackTask(9)]);
    var s' := Around(Fiber(EXEC, false), Run(0, false, false), [CALLBACK], map[]);
    assert Next(s, Fire(OnTimer(1))) == s';
    ArriveOn(2, READER, Hook(Timed, false, Some(1), 0, None, BLOCKED_CALL), s, Expire,
             Hook(Timed, false, Some(1), 1, None, BLOCKED_CALL), s');
  }

  lemma CallbackStrikesEarly()
    ensures Arrives(2, READER, Hook(Timed, true, Some(1), 0, Some(BeforeArm), BLOCKED_CALL),
                    Around(Fiber(EXEC, false), Run(0, false, false), [CALLBACK], map[]))
  {
    TimerExpires();
    var s := Around(Fiber(EXEC, false), Run(0, false, false), [CALLBACK], map[]);
    ArriveOn(2, READER, Hook(Timed, false, Some(1), 1, None, BLOCKED_CALL), s, Strike(true),
             Hook(Timed, true, Some(1), 0, Some(BeforeArm), BLOCKED_CALL), s);
  }

  lemma ReaderArms()
    ensures Arrives(2, READER, Hook(Armed, true, Some(1), 0, Some(BeforeArm), BLOCKED_CALL),
                    Around(Fiber(EXEC, false), Run(0, false, true), [CALLBACK], map[OnEvent(5, READ) := FiberTask(0)]))
  {
    CallbackStrikesEarly();
    var s := Around(Fiber(EXEC, false), Run(0, false, false), [CALLBACK], map[]);
    var s' := Around(Fiber(EXEC, false), Run(0, false, true), [CALLBACK], map[OnEvent(5, READ) := FiberTask(0)]);
    assert Next(s, Arm(0, OnEvent(5, READ))) == s';
    ArriveOn(2, READER, Hook(Timed, true, Some(1), 0, Some(BeforeArm), BLOCKED_CALL), s, Mine(0, AddEvent(true)),
             Hook(Armed, true, Some(1), 0, Some(BeforeArm), BLOCKED_CALL), s');
  }

  /**
   * The timer expires and its callback runs between addTimer and addEvent: the fiber suspends
   * with its event registered, the flag up and no timer left.
   */
  lemma LostTimeout()
    ensures var h := Hook(Suspended, true, Some(1), 0, Some(BeforeArm), BLOCKED_CALL);
            var s := Around(Fiber(EXEC, true), Post(0, false), [CALLBACK], map[OnEvent(5, READ) := FiberTask(0)]);
            Arrives(2, READER, h, s) && InSlot(READER, s) && !TimeoutAhead(h, s)
  {
    ReaderArms();
    var s := Around(Fiber(EXEC, false), Run(0, false, true), [CALLBACK], map[OnEvent(5, READ) := FiberTask(0)]);
    var s' := Around(Fiber(EXEC, true), Post(0, false), [CALLBACK], map[OnEvent(5, READ) := FiberTask(0)]);
    assert Next(s, YieldToHold(0)) == s';
    ArriveOn(2, READER, Hook(Armed, true, Some(1), 0, Some(BeforeArm), BLOCKED_CALL), s, Mine(0, Suspend),
             Hook(Suspended, true, Some(1), 0, Some(BeforeArm), BLOCKED_CALL), s');
  }
}
