/**
 * The invariant of the fiber system. It is stated with history variables that no step looks at:
 * which thread holds a fiber, where the fiber's one wake-up is, and whether the fiber is over,
 * that is, finished without being a callback fiber. A fiber that is over may still be queued; a
 * thread that takes it does not hold it and discards it.
 */
module FiberInvariant {
  import opened Basics
  import opened Scheduler
  import opened FiberSystem

  datatype Token = Nowhere | Queued | Pending(source: Source)

  datatype History = History(holder: seq<Option<nat>>, token: seq<Token>, over: seq<bool>)

  predicate Holds(th: Thread, f: nat) {
    (HasFiber(th.pc) && th.pc.fiber == f) || th.cbFiber == Some(f)
  }

  /** The fiber has set its own state: no wake-up is out, unless it is over. */
  predicate Departed(r: Fiber, k: Token, over: bool) {
    (r.state == READY || Finished(r.state)) && (k == Nowhere || over)
  }

  /** What the program counter says about a fiber in record `r` with wake-up `k`. */
  predicate PcAgrees(pc: Pc, r: Fiber, k: Token, over: bool)
    requires HasFiber(pc)
  {
    match pc
    case Enter(_, own) => r.saved && r.state != EXEC && !Finished(r.state) && k == Nowhere && (own ==> r.state == INIT)
    case Run(_, _, armed) => !r.saved && r.state == EXEC && (!armed ==> k == Nowhere)
    case Leave(_, _) => !r.saved && Departed(r, k, over)
    case Post(_, _) => r.saved && (r.state == EXEC || Departed(r, k, over))
    case Fix(_, _) => r.saved && (r.state == EXEC || Departed(r, k, over))
  }

  /** A callback fiber waiting for its next callback. */
  predicate Blank(r: Fiber, k: Token) {
    r.saved && r.state == INIT && k == Nowhere
  }

  ghost predicate HeldBy(t: nat, f: nat, fibers: seq<Fiber>, h: History) {
    f < |fibers| && f < |h.holder| && f < |h.token| && f < |h.over| && h.holder[f] == Some(t)
  }

  /** The thread took a fiber that is over, and will discard it. */
  ghost predicate Discarding(t: nat, pc: Pc, fibers: seq<Fiber>, h: History) {
    && pc.Enter? && !pc.own && pc.fiber < |fibers| && pc.fiber < |h.holder| && pc.fiber < |h.over|
    && h.over[pc.fiber] && h.holder[pc.fiber] != Some(t)
  }

  ghost predicate ThreadOk(t: nat, th: Thread, fibers: seq<Fiber>, h: History) {
    && (HasFiber(th.pc) ==>
          && (Discarding(t, th.pc, fibers, h) ||
              (HeldBy(t, th.pc.fiber, fibers, h) &&
               PcAgrees(th.pc, fibers[th.pc.fiber], h.token[th.pc.fiber], h.over[th.pc.fiber])))
          && (th.pc.own <==> th.cbFiber == Some(th.pc.fiber)))
    && (th.cbFiber.Some? ==> HeldBy(t, th.cbFiber.value, fibers, h) && !h.over[th.cbFiber.value])
    && (th.cbFiber.Some? && !(HasFiber(th.pc) && th.pc.own) ==>
          Blank(fibers[th.cbFiber.value], h.token[th.cbFiber.value]))
  }

  ghost predicate InQueue(q: seq<Entry>, f: nat) {
    exists i :: 0 <= i < |q| && q[i].task == FiberTask(f)
  }

  ghost predicate FiberOk(f: nat, r: Fiber, holder: Option<nat>, k: Token, over: bool, threads: seq<Thread>, q: seq<Entry>) {
    && (holder.Some? ==> holder.value < |threads| && Holds(threads[holder.value], f))
    && (holder.None? ==> r.saved && r.state != EXEC && (r.state == READY ==> InQueue(q, f)))
    && (over ==> Finished(r.state))
    && (k != Nowhere && !over ==> !Finished(r.state) && (r.state != EXEC ==> holder.None?))
  }

  ghost predicate TaskAt(task: Task, k: Token, h: History) {
    task.FiberTask? ==> task.fiber < |h.token| && h.token[task.fiber] == k
  }

  ghost predicate ThreadsOk(s: System, h: History) {
    forall t :: 0 <= t < |s.threads| ==> ThreadOk(t, s.threads[t], s.fibers, h)
  }

  ghost predicate FibersOk(s: System, h: History) {
    && |h.holder| == |s.fibers| && |h.token| == |s.fibers| && |h.over| == |s.fibers|
    && (forall f :: 0 <= f < |s.fibers| ==>
          FiberOk(f, s.fibers[f], h.holder[f], h.token[f], h.over[f], s.threads, s.queue))
  }

  ghost predicate QueueOk(q: seq<Entry>, h: History) {
    && (forall i :: 0 <= i < |q| ==> TaskAt(q[i].task, Queued, h))
    && (forall i, j :: 0 <= i < j < |q| && q[i].task.FiberTask? ==> q[i].task != q[j].task)
  }

  ghost predicate PendingOk(p: map<Source, Task>, h: History) {
    forall src :: src in p ==> TaskAt(p[src], Pending(src), h)
  }

  function BusyThreads(threads: seq<Thread>): nat {
    if threads == [] then 0
    else BusyThreads(threads[..|threads| - 1]) + if Busy(threads[|threads| - 1].pc) then 1 else 0
  }

  ghost predicate Inv(s: System, h: History) {
    && ThreadsOk(s, h) && FibersOk(s, h) && QueueOk(s.queue, h) && PendingOk(s.pending, h)
    && s.active == BusyThreads(s.threads)
  }

  lemma {:induction false} BusyUpdate(threads: seq<Thread>, t: nat, th: Thread)
    requires t < |threads|
    ensures BusyThreads(threads[t := th]) ==
              BusyThreads(threads) - (if Busy(threads[t].pc) then 1 else 0) + (if Busy(th.pc) then 1 else 0)
  {
    var init := threads[..|threads| - 1];
    if t == |threads| - 1 {
      assert threads[t := th][..|threads| - 1] == init;
    } else {
      assert threads[t := th][..|threads| - 1] == init[t := th];
      BusyUpdate(init, t, th);
    }
  }

  /** The history in which fiber `f` has the given holder and wake-up, and is over or not. */
  function Note(h: History, f: nat, holder: Option<nat>, k: Token, over: bool): History
    requires f < |h.holder| && f < |h.token| && f < |h.over|
  {
    History(h.holder[f := holder], h.token[f := k], h.over[f := over])
  }

  /** Changing one fiber, not held by another thread, leaves the other threads alone. */
  lemma OtherThreads(s: System, h: History, t: nat, f: nat, r: Fiber, holder: Option<nat>, k: Token, over: bool, u: nat)
    requires FibersOk(s, h) && f < |s.fibers| && u < |s.threads| && u != t
    requires ThreadOk(u, s.threads[u], s.fibers, h)
    requires h.holder[f] == None || h.holder[f] == Some(t)
    requires (holder == None || holder == Some(t)) && (h.over[f] ==> over)
    ensures ThreadOk(u, s.threads[u], s.fibers[f := r], Note(h, f, holder, k, over))
  {
  }

  /** Changing one thread, which keeps the fibers it holds, leaves the other fibers alone. */
  lemma OtherFibers(s: System, h: History, t: nat, th: Thread, f: nat, g: nat, q: seq<Entry>)
    requires FibersOk(s, h) && t < |s.threads| && g < |s.fibers| && g != f
    requires h.holder[g] == Some(t) && Holds(s.threads[t], g) ==> Holds(th, g)
    requires InQueue(s.queue, g) && h.holder[g].None? ==> InQueue(q, g)
    ensures FiberOk(g, s.fibers[g], h.holder[g], h.token[g], h.over[g], s.threads[t := th], q)
  {
  }

  /** One thread and one fiber it holds, or that nobody holds, change together. */
  lemma Change(s: System, h: History, t: nat, th: Thread, f: nat, r: Fiber, holder: Option<nat>, k: Token, over: bool, q: seq<Entry>)
    requires ThreadsOk(s, h) && FibersOk(s, h) && t < |s.threads| && f < |s.fibers|
    requires h.holder[f] == None || h.holder[f] == Some(t)
    requires (holder == None || holder == Some(t)) && (h.over[f] ==> over)
    requires ThreadOk(t, th, s.fibers[f := r], Note(h, f, holder, k, over))
    requires FiberOk(f, r, holder, k, over, s.threads[t := th], q)
    requires forall g: nat :: g != f && Holds(s.threads[t], g) ==> Holds(th, g)
    requires forall g: nat :: g != f && InQueue(s.queue, g) ==> InQueue(q, g)
    ensures
      var s' := s.(threads := s.threads[t := th], fibers := s.fibers[f := r], queue := q);
      ThreadsOk(s', Note(h, f, holder, k, over)) && FibersOk(s', Note(h, f, holder, k, over))
  {
    var s' := s.(threads := s.threads[t := th], fibers := s.fibers[f := r], queue := q);
    var h' := Note(h, f, holder, k, over);
    forall u | 0 <= u < |s'.threads| ensures ThreadOk(u, s'.threads[u], s'.fibers, h') {
      if u != t {
        OtherThreads(s, h, t, f, r, holder, k, over, u);
      }
    }
    forall g | 0 <= g < |s'.fibers| ensures FiberOk(g, s'.fibers[g], h'.holder[g], h'.token[g], h'.over[g], s'.threads, q) {
      if g != f {
        OtherFibers(s, h, t, th, f, g, q);
      }
    }
  }

  /** A wake-up moves from one place to another, or is dropped. */
  lemma Retoken(s: System, h: History, f: nat, k: Token, q: seq<Entry>)
    requires ThreadsOk(s, h) && FibersOk(s, h) && f < |s.fibers|
    requires k == Nowhere || h.token[f] != Nowhere
    requires forall g: nat :: InQueue(s.queue, g) ==> InQueue(q, g)
    ensures ThreadsOk(s.(queue := q), h.(token := h.token[f := k]))
    ensures FibersOk(s.(queue := q), h.(token := h.token[f := k]))
  {
    var h' := h.(token := h.token[f := k]);
    forall t | 0 <= t < |s.threads| ensures ThreadOk(t, s.threads[t], s.fibers, h') {
      assert ThreadOk(t, s.threads[t], s.fibers, h);
    }
    forall g | 0 <= g < |s.fibers| ensures FiberOk(g, s.fibers[g], h'.holder[g], h'.token[g], h'.over[g], s.threads, q) {
      assert FiberOk(g, s.fibers[g], h.holder[g], h.token[g], h.over[g], s.threads, s.queue);
    }
  }

  /** A new fiber that nobody holds. */
  lemma Grow(s: System, h: History, k: Token, q: seq<Entry>)
    requires ThreadsOk(s, h) && FibersOk(s, h)
    requires forall g: nat :: InQueue(s.queue, g) ==> InQueue(q, g)
    ensures
      var s' := s.(fibers := s.fibers + [Fiber(INIT, true)], queue := q);
      var h' := History(h.holder + [None], h.token + [k], h.over + [false]);
      ThreadsOk(s', h') && FibersOk(s', h')
  {
    var fibers := s.fibers + [Fiber(INIT, true)];
    var h' := History(h.holder + [None], h.token + [k], h.over + [false]);
    forall t | 0 <= t < |s.threads| ensures ThreadOk(t, s.threads[t], fibers, h') {
      assert ThreadOk(t, s.threads[t], s.fibers, h);
    }
    forall g | 0 <= g < |fibers| ensures FiberOk(g, fibers[g], h'.holder[g], h'.token[g], h'.over[g], s.threads, q) {
      if g < |s.fibers| {
        assert FiberOk(g, s.fibers[g], h.holder[g], h.token[g], h.over[g], s.threads, s.queue);
      }
    }
  }

  lemma PushKeeps(q: seq<Entry>, e: Entry)
    ensures forall g: nat :: InQueue(q, g) ==> InQueue(q + [e], g)
    ensures e.task.FiberTask? ==> InQueue(q + [e], e.task.fiber)
  {
    forall g: nat | InQueue(q, g) ensures InQueue(q + [e], g) {
      var i :| 0 <= i < |q| && q[i].task == FiberTask(g);
      assert (q + [e])[i].task == FiberTask(g);
    }
    assert (q + [e])[|q|] == e;
  }

  lemma WithoutKeeps(q: seq<Entry>, i: nat)
    requires i < |q|
    ensures forall g: nat :: InQueue(q, g) && q[i].task != FiberTask(g) ==> InQueue(Without(q, i), g)
  {
    forall g: nat | InQueue(q, g) && q[i].task != FiberTask(g) ensures InQueue(Without(q, i), g) {
      var j :| 0 <= j < |q| && q[j].task == FiberTask(g);
      assert Without(q, i)[if j < i then j else j - 1].task == FiberTask(g);
    }
  }

  /** The wake-ups in the queue, once `f`, which has none there, gets wake-up `k`. */
  lemma QueueElsewhere(q: seq<Entry>, h: History, f: nat, k: Token)
    requires QueueOk(q, h) && f < |h.token| && h.token[f] != Queued
    ensures QueueOk(q, h.(token := h.token[f := k]))
  {
  }

  lemma QueuePush(q: seq<Entry>, h: History, e: Entry)
    requires QueueOk(q, h)
    requires e.task.FiberTask? ==> e.task.fiber < |h.token| && h.token[e.task.fiber] != Queued
    ensures QueueOk(q + [e], if e.task.FiberTask? then h.(token := h.token[e.task.fiber := Queued]) else h)
  {
  }

  lemma QueueTake(q: seq<Entry>, h: History, i: nat)
    requires QueueOk(q, h) && i < |q|
    ensures QueueOk(Without(q, i), if q[i].task.FiberTask? then h.(token := h.token[q[i].task.fiber := Nowhere]) else h)
  {
    var q' := Without(q, i);
    forall j | 0 <= j < |q'| ensures q'[j] == q[if j < i then j else j + 1] {
    }
  }
}
