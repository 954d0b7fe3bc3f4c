/** Every step of the fiber system keeps the invariant, one lemma a group of steps. */
module FiberSteps {
  import opened Basics
  import opened Scheduler
  import opened FiberSystem
  import opened FiberInvariant

  function BusyCount(pc: Pc): int {
    if Busy(pc) then 1 else 0
  }

  /** The system after thread `t` becomes `th`, with the active count kept up to date. */
  function WithThread(s: System, t: nat, th: Thread): System
    requires t < |s.threads|
  {
    s.(threads := s.threads[t := th], active := s.active - BusyCount(s.threads[t].pc) + BusyCount(th.pc))
  }

  /** A thread and one fiber change; wake-ups stay where they are. */
  lemma Move(s: System, h: History, t: nat, th: Thread, f: nat, r: Fiber, holder: Option<nat>, over: bool)
    requires Inv(s, h) && t < |s.threads| && f < |s.fibers|
    requires h.holder[f] == None || h.holder[f] == Some(t)
    requires (holder == None || holder == Some(t)) && (h.over[f] ==> over)
    requires ThreadOk(t, th, s.fibers[f := r], Note(h, f, holder, h.token[f], over))
    requires FiberOk(f, r, holder, h.token[f], over, s.threads[t := th], s.queue)
    requires forall g: nat :: g != f && Holds(s.threads[t], g) ==> Holds(th, g)
    ensures Inv(WithThread(s, t, th).(fibers := s.fibers[f := r]), Note(h, f, holder, h.token[f], over))
  {
    Change(s, h, t, th, f, r, holder, h.token[f], over, s.queue);
    BusyUpdate(s.threads, t, th);
    assert h.token[f := h.token[f]] == h.token;
  }

  /** A thread changes and lets go of no fiber it holds. */
  lemma Walk(s: System, h: History, t: nat, th: Thread)
    requires Inv(s, h) && t < |s.threads|
    requires ThreadOk(t, th, s.fibers, h)
    requires forall g: nat :: g < |h.holder| && h.holder[g] == Some(t) && Holds(s.threads[t], g) ==> Holds(th, g)
    ensures Inv(WithThread(s, t, th), h)
  {
    BusyUpdate(s.threads, t, th);
    var s' := WithThread(s, t, th);
    forall g | 0 <= g < |s.fibers| ensures FiberOk(g, s.fibers[g], h.holder[g], h.token[g], h.over[g], s'.threads, s.queue) {
      OtherFibers(s, h, t, th, g + 1, g, s.queue);
    }
  }

  lemma SwapInKeeps(s: System, h: History, t: nat)
    requires Inv(s, h) && Enabled(s, SwapIn(t))
    ensures Inv(Next(s, SwapIn(t)), h)
  {
    var th := s.threads[t];
    var f := th.pc.fiber;
    assert ThreadOk(t, th, s.fibers, h);
    assert FiberOk(f, s.fibers[f], h.holder[f], h.token[f], h.over[f], s.threads, s.queue);
    assert h == Note(h, f, Some(t), h.token[f], h.over[f]);
    Move(s, h, t, th.(pc := Run(f, th.pc.own, false)), f, Fiber(EXEC, false), Some(t), h.over[f]);
  }

  /** The steps in which the running fiber sets its state or switches away. */
  lemma DepartKeeps(s: System, h: History, t: nat, l: Label)
    requires Inv(s, h) && Enabled(s, l) && Disciplined(s, l)
    requires l == YieldToReady(t) || l == YieldToHold(t) || l == SwapOut(t)
    ensures Inv(Next(s, l), h)
  {
    var s' := Next(s, l);
    var th := s.threads[t];
    var f := th.pc.fiber;
    assert ThreadOk(t, th, s.fibers, h);
    assert FiberOk(f, s.fibers[f], h.holder[f], h.token[f], h.over[f], s.threads, s.queue);
    assert h == Note(h, f, Some(t), h.token[f], h.over[f]);
    Move(s, h, t, s'.threads[t], f, s'.fibers[f], Some(t), h.over[f]);
    assert s' == WithThread(s, t, s'.threads[t]).(fibers := s.fibers[f := s'.fibers[f]]);
  }

  /** The running fiber finishes; unless it is a callback fiber it is over, wake-up or not. */
  lemma FinishKeeps(s: System, h: History, t: nat, ok: bool) returns (h': History)
    requires Inv(s, h) && Enabled(s, Finish(t, ok)) && Disciplined(s, Finish(t, ok))
    ensures Inv(Next(s, Finish(t, ok)), h')
  {
    var s' := Next(s, Finish(t, ok));
    var th := s.threads[t];
    var f := th.pc.fiber;
    var over := !th.pc.own;
    assert ThreadOk(t, th, s.fibers, h);
    assert FiberOk(f, s.fibers[f], h.holder[f], h.token[f], h.over[f], s.threads, s.queue);
    h' := Note(h, f, Some(t), h.token[f], over);
    Move(s, h, t, s'.threads[t], f, s'.fibers[f], Some(t), over);
    assert s' == WithThread(s, t, s'.threads[t]).(fibers := s.fibers[f := s'.fibers[f]]);
  }

  /** The steps of a thread that touch no fiber. */
  lemma WalkKeeps(s: System, h: History, t: nat, l: Label)
    requires Inv(s, h) && Enabled(s, l)
    requires
      || l == Release(t) || l == GoIdle(t) || l == WakeIdle(t) || (l.QuitIdle? && l.thread == t) || l == Exit(t)
      || l == Discard(t)
    ensures Inv(Next(s, l), h)
  {
    var s' := Next(s, l);
    assert ThreadOk(t, s.threads[t], s.fibers, h);
    Walk(s, h, t, s'.threads[t]);
    assert s' == WithThread(s, t, s'.threads[t]);
  }

  /** Only a fiber that is over is ever discarded. */
  lemma OnlyOverDiscarded(s: System, h: History, t: nat)
    requires Inv(s, h) && Enabled(s, Discard(t))
    ensures Discarding(t, s.threads[t].pc, s.fibers, h)
  {
    assert ThreadOk(t, s.threads[t], s.fibers, h);
  }

  lemma StartCallbackKeeps(s: System, h: History, t: nat) returns (h': History)
    requires Inv(s, h) && Enabled(s, StartCallback(t))
    ensures Inv(Next(s, StartCallback(t)), h')
  {
    var th := s.threads[t];
    assert ThreadOk(t, th, s.fibers, h);
    if th.cbFiber.Some? {
      var f := th.cbFiber.value;
      h' := h;
      assert h == Note(h, f, Some(t), h.token[f], h.over[f]);
      Move(s, h, t, th.(pc := Enter(f, true)), f, Fiber(INIT, true), Some(t), false);
    } else {
      var f := |s.fibers|;
      var g := s.(fibers := s.fibers + [Fiber(INIT, true)]);
      var hg := History(h.holder + [None], h.token + [Nowhere], h.over + [false]);
      GrowKeeps(s, h);
      h' := Note(hg, f, Some(t), Nowhere, false);
      Move(g, hg, t, th.(pc := Enter(f, true), cbFiber := Some(f)), f, Fiber(INIT, true), Some(t), false);
      assert g.fibers[f := Fiber(INIT, true)] == g.fibers;
    }
  }

  lemma GrowKeeps(s: System, h: History)
    requires Inv(s, h)
    ensures Inv(s.(fibers := s.fibers + [Fiber(INIT, true)]), History(h.holder + [None], h.token + [Nowhere], h.over + [false]))
  {
    Grow(s, h, Nowhere, s.queue);
  }

  lemma SpawnFiberKeeps(s: System, h: History, pin: Option<nat>) returns (h': History)
    requires Inv(s, h)
    ensures Inv(Next(s, SpawnFiber(pin)), h')
  {
    var f := |s.fibers|;
    var e := Entry(FiberTask(f), pin);
    var hg := History(h.holder + [None], h.token + [Nowhere], h.over + [false]);
    GrowKeeps(s, h);
    PushKeeps(s.queue, e);
    Grow(s, h, Queued, s.queue + [e]);
    QueuePush(s.queue, hg, e);
    h' := History(h.holder + [None], h.token + [Queued], h.over + [false]);
    assert hg.token[f := Queued] == h'.token;
  }

  /** A callback enters the queue. */
  lemma PushCallbackKeeps(s: System, h: History, c: nat, pin: Option<nat>)
    requires Inv(s, h)
    ensures Inv(Push(s, CallbackTask(c), pin), h)
  {
    var e := Entry(CallbackTask(c), pin);
    PushKeeps(s.queue, e);
    QueuePush(s.queue, h, e);
    var q := s.queue + [e];
    forall g | 0 <= g < |s.fibers| ensures FiberOk(g, s.fibers[g], h.holder[g], h.token[g], h.over[g], s.threads, q) {
      assert FiberOk(g, s.fibers[g], h.holder[g], h.token[g], h.over[g], s.threads, s.queue);
    }
  }

  /** A waiter leaves its slot without being queued. */
  lemma ForgetKeeps(s: System, h: History, src: Source) returns (h': History)
    requires Inv(s, h) && src in s.pending
    ensures Inv(s.(pending := s.pending - {src}), h')
  {
    h' := h;
    if s.pending[src].FiberTask? {
      var f := s.pending[src].fiber;
      h' := h.(token := h.token[f := Nowhere]);
      Retoken(s, h, f, Nowhere, s.queue);
      assert s.(queue := s.queue) == s;
      QueueElsewhere(s.queue, h, f, Nowhere);
    }
  }

  /** A waiter moves from its slot to the queue. */
  lemma FireKeeps(s: System, h: History, src: Source) returns (h': History)
    requires Inv(s, h) && src in s.pending
    ensures Inv(Next(s, Fire(src)), h')
  {
    var p := s.(pending := s.pending - {src});
    if s.pending[src].FiberTask? {
      var f := s.pending[src].fiber;
      var e := Entry(FiberTask(f), None);
      assert TaskAt(s.pending[src], Pending(src), h);
      h' := h.(token := h.token[f := Queued]);
      PushKeeps(s.queue, e);
      Retoken(s, h, f, Queued, s.queue + [e]);
      QueuePush(s.queue, h, e);
      assert PendingOk(p.pending, h');
    } else {
      h' := ForgetKeeps(s, h, src);
      PushCallbackKeeps(p, h', s.pending[src].cb, None);
    }
  }

  /** The running fiber stores itself in a slot. */
  lemma ArmKeeps(s: System, h: History, t: nat, src: Source) returns (h': History)
    requires Inv(s, h) && Enabled(s, Arm(t, src)) && Disciplined(s, Arm(t, src))
    ensures Inv(Next(s, Arm(t, src)), h')
  {
    var th := s.threads[t];
    var f := th.pc.fiber;
    var th' := th.(pc := th.pc.(armed := true));
    assert ThreadOk(t, th, s.fibers, h);
    assert FiberOk(f, s.fibers[f], h.holder[f], h.token[f], h.over[f], s.threads, s.queue);
    h' := Note(h, f, Some(t), Pending(src), h.over[f]);
    assert s.fibers[f := s.fibers[f]] == s.fibers;
    Change(s, h, t, th', f, s.fibers[f], Some(t), Pending(src), h.over[f], s.queue);
    BusyUpdate(s.threads, t, th');
    QueueElsewhere(s.queue, h, f, Pending(src));
    assert h.holder[f := Some(t)] == h.holder && h.over[f := h.over[f]] == h.over;
  }

  /** A queued fiber that is neither executing nor over is held by nobody and its context is saved. */
  lemma QueuedIsFree(s: System, h: History, i: nat)
    requires Inv(s, h) && i < |s.queue| && s.queue[i].task.FiberTask? && !Executing(s.queue[i], s.fibers)
    ensures
      var f := s.queue[i].task.fiber;
      && f < |s.fibers| && h.token[f] == Queued && (Finished(s.fibers[f].state) <==> h.over[f])
      && (!h.over[f] ==> h.holder[f] == None && s.fibers[f].saved && s.fibers[f].state != EXEC)
  {
    var f := s.queue[i].task.fiber;
    assert TaskAt(s.queue[i].task, Queued, h);
    assert FiberOk(f, s.fibers[f], h.holder[f], h.token[f], h.over[f], s.threads, s.queue);
  }

  lemma TakeFiberKeeps(s: System, h: History, t: nat, i: nat) returns (h': History)
    requires Inv(s, h) && Enabled(s, Take(t, i)) && s.queue[i].task.FiberTask?
    requires s.queue[i].task.fiber < |s.fibers| && !Finished(s.fibers[s.queue[i].task.fiber].state)
    ensures Inv(Next(s, Take(t, i)), h')
  {
    var f := s.queue[i].task.fiber;
    var th := s.threads[t];
    var th' := th.(pc := Enter(f, false));
    assert ThreadOk(t, th, s.fibers, h);
    QueuedIsFree(s, h, i);
    WithoutKeeps(s.queue, i);
    h' := Note(h, f, Some(t), Nowhere, false);
    assert s.fibers[f := s.fibers[f]] == s.fibers;
    Change(s, h, t, th', f, s.fibers[f], Some(t), Nowhere, false, Without(s.queue, i));
    BusyUpdate(s.threads, t, th');
    QueueTake(s.queue, h, i);
    assert PendingOk(s.pending, h');
  }

  /** A fiber that is over is taken: its wake-up is gone, and nobody else notices. */
  lemma TakeOverKeeps(s: System, h: History, t: nat, i: nat) returns (h': History)
    requires Inv(s, h) && Enabled(s, Take(t, i)) && s.queue[i].task.FiberTask?
    requires s.queue[i].task.fiber < |s.fibers| && Finished(s.fibers[s.queue[i].task.fiber].state)
    ensures Inv(Next(s, Take(t, i)), h')
  {
    var f := s.queue[i].task.fiber;
    var th' := s.threads[t].(pc := Enter(f, false));
    var q := Without(s.queue, i);
    assert ThreadOk(t, s.threads[t], s.fibers, h);
    QueuedIsFree(s, h, i);
    assert FiberOk(f, s.fibers[f], h.holder[f], h.token[f], h.over[f], s.threads, s.queue);
    Walk(s, h, t, th');
    var w := WithThread(s, t, th');
    Unqueue(w, h, f, i);
    h' := h.(token := h.token[f := Nowhere]);
  }

  /** The queue entry of a fiber that is over disappears. */
  lemma Unqueue(w: System, h: History, f: nat, i: nat)
    requires Inv(w, h) && i < |w.queue| && w.queue[i].task == FiberTask(f) && f < |w.fibers| && h.over[f]
    ensures Inv(w.(queue := Without(w.queue, i)), h.(token := h.token[f := Nowhere]))
  {
    var q := Without(w.queue, i);
    var h' := h.(token := h.token[f := Nowhere]);
    assert TaskAt(w.queue[i].task, Queued, h);
    Retoken(w, h, f, Nowhere, w.queue);
    assert w.(queue := w.queue) == w;
    WithoutKeeps(w.queue, i);
    QueueTake(w.queue, h, i);
    forall g | 0 <= g < |w.fibers| ensures FiberOk(g, w.fibers[g], h'.holder[g], h'.token[g], h'.over[g], w.threads, q) {
      assert FiberOk(g, w.fibers[g], h'.holder[g], h'.token[g], h'.over[g], w.threads, w.queue);
    }
    assert PendingOk(w.pending, h');
  }

  lemma TakeCallbackKeeps(s: System, h: History, t: nat, i: nat)
    requires Inv(s, h) && Enabled(s, Take(t, i)) && s.queue[i].task.CallbackTask?
    ensures Inv(Next(s, Take(t, i)), h)
  {
    var th' := s.threads[t].(pc := Callback(s.queue[i].task.cb));
    assert ThreadOk(t, s.threads[t], s.fibers, h);
    var q := Without(s.queue, i);
    WithoutKeeps(s.queue, i);
    Walk(s, h, t, th');
    QueueTake(s.queue, h, i);
    var w := WithThread(s, t, th');
    forall g | 0 <= g < |s.fibers| ensures FiberOk(g, s.fibers[g], h.holder[g], h.token[g], h.over[g], w.threads, q) {
      assert FiberOk(g, s.fibers[g], h.holder[g], h.token[g], h.over[g], w.threads, s.queue);
    }
  }

  /** The fiber yielded with READY: it goes back to the queue. */
  lemma RequeueKeeps(s: System, h: History, t: nat) returns (h': History)
    requires Inv(s, h) && Enabled(s, Settle(t)) && s.fibers[s.threads[t].pc.fiber].state == READY
    ensures Inv(Settled(s, t), h')
  {
    var th := s.threads[t];
    var f := th.pc.fiber;
    var th' := Settled(s, t).threads[t];
    var e := Entry(FiberTask(f), None);
    assert ThreadOk(t, th, s.fibers, h);
    PushKeeps(s.queue, e);
    assert FiberOk(f, s.fibers[f], h.holder[f], h.token[f], h.over[f], s.threads, s.queue);
    h' := Note(h, f, None, Queued, false);
    assert s.fibers[f := s.fibers[f]] == s.fibers;
    Change(s, h, t, th', f, s.fibers[f], None, Queued, false, s.queue + [e]);
    BusyUpdate(s.threads, t, th');
    QueuePush(s.queue, h, e);
    assert PendingOk(s.pending, h');
  }

  /** The fiber finished, or suspended and becomes HOLD. */
  lemma RestKeeps(s: System, h: History, t: nat) returns (h': History)
    requires Inv(s, h) && Enabled(s, Settle(t)) && s.fibers[s.threads[t].pc.fiber].state != READY
    ensures Inv(Settled(s, t), h')
  {
    var th := s.threads[t];
    var f := th.pc.fiber;
    var s' := Settled(s, t);
    assert ThreadOk(t, th, s.fibers, h);
    assert FiberOk(f, s.fibers[f], h.holder[f], h.token[f], h.over[f], s.threads, s.queue);
    var holder := if Finished(s.fibers[f].state) && th.pc.own then Some(t) else None;
    h' := Note(h, f, holder, h.token[f], h.over[f]);
    RestIs(s, t, f);
    Move(s, h, t, s'.threads[t], f, s'.fibers[f], holder, h.over[f]);
  }

  lemma RestIs(s: System, t: nat, f: nat)
    requires Enabled(s, Settle(t)) && f == s.threads[t].pc.fiber && s.fibers[f].state != READY
    ensures Settled(s, t).fibers == s.fibers[f := Settled(s, t).fibers[f]]
    ensures Settled(s, t) == WithThread(s, t, Settled(s, t).threads[t]).(fibers := s.fibers[f := Settled(s, t).fibers[f]])
  {
  }

  lemma RegisterKeeps(s: System, h: History, src: Source, c: nat)
    requires Inv(s, h) && Enabled(s, Register(src, c))
    ensures Inv(Next(s, Register(src, c)), h)
  {
  }

  lemma StopKeeps(s: System, h: History)
    requires Inv(s, h)
    ensures Inv(Next(s, RequestStop), h)
  {
  }

  lemma TakeKeeps(s: System, h: History, t: nat, i: nat) returns (h': History)
    requires Inv(s, h) && Enabled(s, Take(t, i))
    ensures Inv(Next(s, Take(t, i)), h')
  {
    if s.queue[i].task.FiberTask? {
      QueuedIsFree(s, h, i);
      if Finished(s.fibers[s.queue[i].task.fiber].state) {
        h' := TakeOverKeeps(s, h, t, i);
      } else {
        h' := TakeFiberKeeps(s, h, t, i);
      }
    } else {
      h' := h;
      TakeCallbackKeeps(s, h, t, i);
    }
  }

  lemma StepKeeps(s: System, h: History, l: Label) returns (h': History)
    requires Inv(s, h) && Enabled(s, l) && Disciplined(s, l)
    ensures Inv(Next(s, l), h')
  {
    h' := h;
    match l
    case SpawnFiber(pin) => h' := SpawnFiberKeeps(s, h, pin);
    case SpawnCallback(c, pin) => PushCallbackKeeps(s, h, c, pin);
    case Take(t, i) => h' := TakeKeeps(s, h, t, i);
    case Discard(t) => WalkKeeps(s, h, t, l);
    case StartCallback(t) => h' := StartCallbackKeeps(s, h, t);
    case SwapIn(t) => SwapInKeeps(s, h, t);
    case Arm(t, src) => h' := ArmKeeps(s, h, t, src);
    case Register(src, c) => RegisterKeeps(s, h, src, c);
    case Fire(src) => h' := FireKeeps(s, h, src);
    case Repeat(src) => PushCallbackKeeps(s, h, s.pending[src].cb, None);
    case Forget(src) => h' := ForgetKeeps(s, h, src);
    case YieldToReady(t) => DepartKeeps(s, h, t, l);
    case Finish(t, ok) => h' := FinishKeeps(s, h, t, ok);
    case YieldToHold(t) => DepartKeeps(s, h, t, l);
    case SwapOut(t) => DepartKeeps(s, h, t, l);
    case Release(t) => WalkKeeps(s, h, t, l);
    case Settle(t) =>
      if s.fibers[s.threads[t].pc.fiber].state == READY {
        h' := RequeueKeeps(s, h, t);
      } else {
        h' := RestKeeps(s, h, t);
      }
    case GoIdle(t) => WalkKeeps(s, h, t, l);
    case WakeIdle(t) => WalkKeeps(s, h, t, l);
    case QuitIdle(t, _, _) => WalkKeeps(s, h, t, l);
    case Exit(t) => WalkKeeps(s, h, t, l);
    case RequestStop => StopKeeps(s, h);
  }
}
