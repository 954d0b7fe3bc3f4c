/**
 * The task queue of the scheduler (src/async/scheduler.h, src/async/scheduler.cpp): scheduling a
 * task or a batch, and the scan with which a worker takes its next task.
 */
module Scheduler {
  import opened Basics

  /** Fiber::State. */
  datatype State = INIT | HOLD | EXEC | TERM | READY | EXCEPT

  /** A fiber's state, and whether its registers are in its context rather than on a CPU. */
  datatype Fiber = Fiber(state: State, saved: bool)

  datatype Task = FiberTask(fiber: nat) | CallbackTask(cb: nat)

  /** FiberAndThread: a task and the one thread that may run it, if there is one. */
  datatype Entry = Entry(task: Task, pin: Option<nat>)

  predicate PinnedElsewhere(e: Entry, thread: nat) {
    e.pin.Some? && e.pin.value != thread
  }

  predicate Executing(e: Entry, fibers: seq<Fiber>) {
    e.task.FiberTask? && e.task.fiber < |fibers| && fibers[e.task.fiber].state == EXEC
  }

  /** The entries a thread may take. */
  predicate Eligible(e: Entry, thread: nat, fibers: seq<Fiber>) {
    !PinnedElsewhere(e, thread) && !Executing(e, fibers)
  }

  /** A pinned task is for its thread alone, and nobody may take a fiber that executes. */
  lemma EligibleExactly(e: Entry, thread: nat, fibers: seq<Fiber>)
    ensures Eligible(e, thread, fibers) <==>
              && (e.pin == None || e.pin == Some(thread))
              && !(e.task.FiberTask? && e.task.fiber < |fibers| && fibers[e.task.fiber].state == EXEC)
  {
  }

  /** `i` is the first eligible entry, or the end of the queue when there is none. */
  ghost predicate IsFirst(q: seq<Entry>, thread: nat, fibers: seq<Fiber>, i: nat) {
    && i <= |q|
    && (forall j :: 0 <= j < i ==> !Eligible(q[j], thread, fibers))
    && (i < |q| ==> Eligible(q[i], thread, fibers))
  }

  function Without(q: seq<Entry>, i: nat): seq<Entry>
    requires i < |q|
  {
    q[..i] + q[i + 1..]
  }

  /** Order aside, what was scheduled is what is queued and what was taken; kept folded. */
  ghost predicate Conserved(scheduled: seq<Entry>, queued: seq<Entry>, taken: seq<Entry>) {
    forall x {:trigger Unfold(x)} :: Unfold(x) ==> multiset(scheduled) == multiset(queued) + multiset(taken)
  }

  lemma ScheduleConserves(scheduled: seq<Entry>, queued: seq<Entry>, taken: seq<Entry>, more: seq<Entry>)
    requires Conserved(scheduled, queued, taken)
    ensures Conserved(scheduled + more, queued + more, taken)
  {
    assert Unfold(0);
  }

  lemma TakeConserves(scheduled: seq<Entry>, queued: seq<Entry>, taken: seq<Entry>, i: nat)
    requires Conserved(scheduled, queued, taken) && i < |queued|
    ensures Conserved(scheduled, Without(queued, i), taken + [queued[i]])
  {
    assert Unfold(0);
    assert queued == queued[..i] + [queued[i]] + queued[i + 1..];
  }

  /** The entry a scheduled task becomes; null tasks are not queued. */
  function Single(task: Option<Task>, pin: Option<nat>): seq<Entry> {
    if task.Some? then [Entry(task.value, pin)] else []
  }

  /** The entries of a batch. */
  function Batch(cbs: seq<Option<Task>>): seq<Entry> {
    if cbs == [] then [] else Batch(cbs[..|cbs| - 1]) + Single(cbs[|cbs| - 1], None)
  }

  /** A batch is queued task by task, in order and unpinned; null tasks leave no entry. */
  lemma BatchIs(a: seq<Option<Task>>, task: Task)
    ensures Batch(a + [Some(task)]) == Batch(a) + [Entry(task, None)]
    ensures Batch(a + [None]) == Batch(a)
    ensures Batch([]) == []
  {
    assert (a + [Some(task)])[..|a|] == a && (a + [None])[..|a|] == a;
  }

  lemma BatchMore(before: seq<Entry>, cbs: seq<Option<Task>>, i: nat)
    requires i < |cbs|
    ensures before + Batch(cbs[..i]) + Single(cbs[i], None) == before + Batch(cbs[..i + 1])
  {
    assert cbs[..i + 1][..i] == cbs[..i];
  }

  class TaskQueue {
    var fibers: seq<Entry>
    var activeThreadCount: nat
    var tickles: nat                    // calls to tickle

    ghost var scheduled: seq<Entry>     // all that was ever put in, in order
    ghost var taken: seq<Entry>         // all that was ever taken out, in order

    /** Every entry ever scheduled is in the queue or was taken, as often as it was scheduled. */
    ghost predicate Valid()
      reads this
    {
      Conserved(scheduled, fibers, taken)
    }

    constructor ()
      ensures Valid() && fibers == [] && activeThreadCount == 0 && tickles == 0
      ensures scheduled == [] && taken == []
    {
      fibers := [];
      activeThreadCount := 0;
      tickles := 0;
      scheduled := [];
      taken := [];
    }

    /** scheduleNoLock: a null task is not queued but can still ask for a tickle. */
    method ScheduleNoLock(task: Option<Task>, pin: Option<nat>) returns (needTickle: bool)
      requires Valid()
      modifies `fibers, `scheduled
      ensures Valid()
      ensures needTickle <==> old(fibers) == []
      ensures fibers == old(fibers) + if task.Some? then [Entry(task.value, pin)] else []
      ensures scheduled == old(scheduled) + Single(task, pin)
    {
      needTickle := fibers == [];
      ScheduleConserves(scheduled, fibers, taken, Single(task, pin));
      if task.Some? {
        fibers := fibers + [Entry(task.value, pin)];
      } else {
        assert fibers + [] == fibers;
      }
      scheduled := scheduled + Single(task, pin);
    }

    method Schedule(task: Option<Task>, pin: Option<nat>)
      requires Valid()
      modifies `fibers, `scheduled, `tickles
      ensures Valid()
      ensures fibers == old(fibers) + if task.Some? then [Entry(task.value, pin)] else []
      ensures scheduled == old(scheduled) + Single(task, pin)
      ensures tickles == old(tickles) + if old(fibers) == [] then 1 else 0
    {
      var needTickle := ScheduleNoLock(task, pin);
      if needTickle {
        tickles := tickles + 1;
      }
    }

    /**
     * The batch form of schedule. Each task is moved out of the caller's array, in order, and
     * at most one tickle is sent, exactly when the queue was empty and the batch is not.
     */
    method ScheduleBatch(cbs: array<Option<Task>>)
      requires Valid()
      modifies `fibers, `scheduled, `tickles, cbs
      ensures Valid()
      ensures fibers == old(fibers) + Batch(old(cbs[..]))
      ensures scheduled == old(scheduled) + Batch(old(cbs[..]))
      ensures forall i :: 0 <= i < cbs.Length ==> cbs[i] == None
      ensures tickles == old(tickles) + if old(fibers) == [] && cbs.Length > 0 then 1 else 0
    {
      var needTickle := false;
      var i := 0;
      ghost var was := cbs[..];
      while i < cbs.Length
        invariant i <= cbs.Length && Valid() && tickles == old(tickles)
        invariant forall j :: 0 <= j < i ==> cbs[j] == None
        invariant forall j :: i <= j < cbs.Length ==> cbs[j] == was[j]
        invariant fibers == old(fibers) + Batch(was[..i])
        invariant scheduled == old(scheduled) + Batch(was[..i])
        invariant needTickle <==> i > 0 && old(fibers) == []
      {
        BatchMore(old(fibers), was, i);
        BatchMore(old(scheduled), was, i);
        var task := cbs[i];
        cbs[i] := None;
        var empty := ScheduleNoLock(task, None);
        needTickle := empty || needTickle;
        i := i + 1;
      }
      assert was[..i] == was;
      if needTickle {
        tickles := tickles + 1;
      }
    }

    /** The loop of the scan: where it stops, and whether it passed an entry of another thread. */
    method Scan(thread: nat, all: seq<Fiber>) returns (it: nat, tickleMe: bool)
      ensures IsFirst(fibers, thread, all, it)
      ensures tickleMe <==> exists j :: 0 <= j < it && PinnedElsewhere(fibers[j], thread)
    {
      tickleMe := false;
      it := 0;
      while it < |fibers|
        invariant it <= |fibers|
        invariant forall j :: 0 <= j < it ==> !Eligible(fibers[j], thread, all)
        invariant tickleMe <==> exists j :: 0 <= j < it && PinnedElsewhere(fibers[j], thread)
      {
        if PinnedElsewhere(fibers[it], thread) {
          it := it + 1;
          tickleMe := true;
          continue;
        }
        if Executing(fibers[it], all) {
          it := it + 1;
          continue;
        }
        break;
      }
    }

    /**
     * The scan of Scheduler::run: takes exactly the first eligible entry and keeps the order of
     * the rest. The thread asks for a tickle iff an entry before the one it takes is pinned to
     * another thread.
     */
    method Take(thread: nat, all: seq<Fiber>) returns (task: Option<Task>, tickleMe: bool, ghost at: nat)
      requires Valid()
      modifies `fibers, `activeThreadCount, `taken, `tickles
      ensures Valid() && scheduled == old(scheduled)
      ensures IsFirst(old(fibers), thread, all, at)
      ensures at < |old(fibers)| ==> old(fibers)[at].pin == None || old(fibers)[at].pin == Some(thread)
      ensures task == if at < |old(fibers)| then Some(old(fibers)[at].task) else None
      ensures fibers == if at < |old(fibers)| then Without(old(fibers), at) else old(fibers)
      ensures taken == old(taken) + if at < |old(fibers)| then [old(fibers)[at]] else []
      ensures activeThreadCount == old(activeThreadCount) + if task.Some? then 1 else 0
      ensures tickleMe <==> exists j :: 0 <= j < at && old(fibers)[j].pin.Some? && old(fibers)[j].pin.value != thread
      ensures tickles == old(tickles) + if tickleMe then 1 else 0
    {
      var it;
      it, tickleMe := Scan(thread, all);
      assert forall j :: 0 <= j < |fibers| ==> (PinnedElsewhere(fibers[j], thread) <==> fibers[j].pin.Some? && fibers[j].pin.value != thread);
      at := it;
      task := None;
      if it < |fibers| {
        task := Some(fibers[it].task);
        TakeConserves(scheduled, fibers, taken, it);
        taken := taken + [fibers[it]];
        fibers := Without(fibers, it);
        activeThreadCount := activeThreadCount + 1;
      }
      if tickleMe {
        tickles := tickles + 1;
      }
    }
  }
}
