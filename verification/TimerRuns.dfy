/**
 * Histories of a TimerManager. A step is one call under the manager's lock, with the effect that
 * the class in module Timers is proved to have; the theorems are about every run of steps.
 */
module TimerRuns {
  import opened Basics
  import opened Timers

  /**
   * `seen` is the front deadline at the last poll, `wakes` the wake-ups raised since then, and
   * `clock` the latest clock reading used so far.
   */
  datatype Manager = Manager(
    heap: Heap, tickled: bool, previous: nat,
    wakes: nat, seen: nat, clock: nat, delivered: seq<Address>)

  datatype Op =
    | Add(a: Address, ms: nat, cb: Callback, recurring: bool, now: nat)
    | Cancel(a: Address, result: bool)
    | Refresh(a: Address, now: nat)
    | Reset(a: Address, ms: nat, fromNow: bool, now: nat)
    | Poll(now: nat)
    | Expire(now: nat, probe: Address, fired: seq<Address>)

  function Now(m: Manager, op: Op): nat {
    match op
    case Add(_, _, _, _, now) => now
    case Cancel(_, _) => m.clock
    case Refresh(_, now) => now
    case Reset(_, _, _, now) => now
    case Poll(now) => now
    case Expire(now, _, _) => now
  }

  function Later(a: nat, b: nat): nat {
    if a < b then b else a
  }

  predicate Init(m: Manager) {
    m.heap == map[] && !m.tickled && m.wakes == 0 && m.seen == U64 && m.previous == m.clock && m.delivered == []
  }

  /** Inserting `a` into the set: the flag and the wake-up. */
  ghost predicate Tickles(m: Manager, m': Manager, a: Address)
    requires a in m'.heap
  {
    && m'.tickled == (m.tickled || IsFront(m'.heap, a))
    && m'.wakes == m.wakes + if !m.tickled && m'.tickled then 1 else 0
  }

  ghost predicate Quiet(m: Manager, m': Manager) {
    m'.tickled == m.tickled && m'.wakes == m.wakes
  }

  ghost predicate Step(m: Manager, op: Op, m': Manager) {
    && m'.clock == Later(m.clock, Now(m, op))
    && (!op.Poll? ==> m'.seen == m.seen)
    && (!op.Expire? ==> m'.delivered == m.delivered && m'.previous == m.previous)
    && match op
       case Add(a, ms, cb, recurring, now) =>
         && a !in m.heap && ms < U64
         && m'.heap == m.heap[a := Timer(recurring, ms, (now + ms) % U64, Some(cb))]
         && Tickles(m, m', a)
       case Cancel(a, result) =>
         && a in m.heap && result == Armed(m.heap, a) && Quiet(m, m')
         && m'.heap == if result then m.heap[a := m.heap[a].(cb := None)] else m.heap
       case Refresh(a, now) =>
         && a in m.heap && Quiet(m, m')
         && m'.heap == if Armed(m.heap, a) then m.heap[a := Refreshed(m.heap[a], now)] else m.heap
       case Reset(a, ms, fromNow, now) =>
         && a in m.heap && ms < U64
         && if !Armed(m.heap, a) || (ms == m.heap[a].ms && !fromNow)
            then m'.heap == m.heap && Quiet(m, m')
            else m'.heap == m.heap[a := Rescheduled(m.heap[a], ms, fromNow, now)] && Tickles(m, m', a)
       case Poll(now) =>
         m'.heap == m.heap && !m'.tickled && m'.wakes == 0 && IsFrontDeadline(m.heap, m'.seen)
       case Expire(now, probe, fired) =>
         var rollover := Rollover(m.previous, now);
         && probe !in m.heap && Quiet(m, m')
         && (forall a :: a in fired <==> Armed(m.heap, a) && Due(m.heap, a, rollover, now, probe))
         && InHeap(m.heap, fired) && Sorted(m.heap, fired)
         && m'.heap == FireAll(m.heap, rollover, now, probe)
         && m'.previous == (if forall a :: !Armed(m.heap, a) then m.previous else now)
         && m'.delivered == m.delivered + fired
  }

  ghost predicate Run(ms: seq<Manager>, ops: seq<Op>) {
    && |ms| == |ops| + 1
    && forall i :: 0 <= i < |ops| ==> Step(ms[i], ops[i], ms[i + 1])
  }

  // ---------------------------------------------------------------- the class takes these steps

  ghost predicate Matches(tm: TimerManager, m: Manager)
    reads tm
  {
    tm.heap == m.heap && tm.tickled == m.tickled && tm.previous == m.previous
  }

  /** What a caller must provide: existing timers to act on, unused addresses for new objects. */
  predicate Callable(m: Manager, op: Op) {
    match op
    case Add(a, ms, _, _, _) => a !in m.heap && ms < U64
    case Cancel(a, _) => a in m.heap
    case Refresh(a, _) => a in m.heap
    case Reset(a, ms, _, _) => a in m.heap && ms < U64
    case Poll(_) => true
    case Expire(_, probe, _) => probe !in m.heap
  }

  /** The same call, up to what it returns. */
  predicate SameCall(op: Op, done: Op) {
    match op
    case Cancel(a, _) => done.Cancel? && done.a == a
    case Expire(now, probe, _) => done.Expire? && done.now == now && done.probe == probe
    case _ => done == op
  }

  /** Every call on the class is a step, and `wakes` counts its calls of onTimerInsertedAtFront. */
  method Perform(tm: TimerManager, op: Op, ghost m: Manager) returns (ghost done: Op, ghost m': Manager)
    requires tm.Valid() && Matches(tm, m) && Callable(m, op)
    modifies tm
    ensures tm.Valid() && Matches(tm, m') && SameCall(op, done) && Step(m, done, m')
    ensures !op.Poll? ==> m'.wakes - m.wakes == tm.wakeups - old(tm.wakeups)
  {
    ghost var before := tm.wakeups;
    done := op;
    ghost var seen, delivered := m.seen, m.delivered;
    match op {
      case Add(a, ms, cb, recurring, now) =>
        tm.AddTimer(a, ms, cb, recurring, now);
      case Cancel(a, _) =>
        var ok := tm.Cancel(a);
        done := Cancel(a, ok);
      case Refresh(a, now) =>
        var ok := tm.Refresh(a, now);
      case Reset(a, ms, fromNow, now) =>
        RescheduledIs(m.heap[a], ms, fromNow, now);
        var ok := tm.Reset(a, ms, fromNow, now);
      case Poll(now) =>
        var wait;
        wait, seen := tm.GetNextTimer(now);
      case Expire(now, probe, _) =>
        var cbs;
        ghost var fired;
        assert tm.timers == [] <==> forall a :: !Armed(tm.heap, a) by {
          if tm.timers != [] { assert tm.timers[0] in tm.timers; }
        }
        cbs, fired := tm.ListExpiredCb(now, probe);
        done := Expire(now, probe, fired);
        delivered := delivered + fired;
    }
    m' := Manager(tm.heap, tm.tickled, tm.previous,
                  if op.Poll? then 0 else m.wakes + tm.wakeups - before, seen, Later(m.clock, Now(m, op)), delivered);
  }

  // ---------------------------------------------------------------- no earlier deadline is missed

  /**
   * What a monotone clock gives. Refresh and reset read it under the lock, so their reading is
   * the latest; the timer constructor and listExpiredCb read it before they lock, so theirs may
   * be older than one already used, in any order. An old reading must not be taken for a
   * rollover, and no deadline that is computed overflows.
   */
  ghost predicate Timely(m: Manager, op: Op) {
    && Now(m, op) < U64
    && match op
       case Add(_, ms, _, _, now) => now + ms < U64
       case Refresh(a, now) => m.clock <= now && (Armed(m.heap, a) ==> now + m.heap[a].ms < U64)
       case Reset(a, ms, fromNow, now) =>
         && (fromNow ==> m.clock <= now)
         && (Armed(m.heap, a) ==> (if fromNow then now else m.heap[a].next - m.heap[a].ms) + ms < U64)
       case Expire(now, probe, _) =>
         && (Rollover(m.previous, now) ==> m.clock <= now)
         && (forall a :: Armed(m.heap, a) && m.heap[a].recurring && Due(m.heap, a, Rollover(m.previous, now), now, probe) ==>
               now + m.heap[a].ms < U64)
       case _ => true
  }

  /** Every armed timer was set at some clock reading, which is in the past. */
  ghost predicate SetInThePast(m: Manager) {
    forall a :: Armed(m.heap, a) ==>
      m.heap[a].ms <= m.heap[a].next <= m.clock + m.heap[a].ms && m.heap[a].next < U64
  }

  /** An untickled manager has nothing earlier than what the last poll saw. */
  ghost predicate NothingMissed(m: Manager) {
    && m.wakes == (if m.tickled then 1 else 0)
    && (!m.tickled ==> forall a :: Armed(m.heap, a) ==> m.seen <= m.heap[a].next)
  }

  lemma StepKeepsDeadlines(m: Manager, op: Op, m': Manager)
    requires Step(m, op, m') && Timely(m, op) && SetInThePast(m) && NothingMissed(m)
    ensures SetInThePast(m') && NothingMissed(m')
  {
    if op.Add? || op.Reset? {
      InsertKeepsDeadlines(m, op, m');
    } else if op.Expire? {
      ExpireKeepsDeadlines(m, op, m');
    } else if op.Refresh? {
      RefreshKeepsDeadlines(m, op, m');
    }
  }

  lemma InsertKeepsDeadlines(m: Manager, op: Op, m': Manager)
    requires Step(m, op, m') && Timely(m, op) && SetInThePast(m) && NothingMissed(m) && (op.Add? || op.Reset?)
    ensures SetInThePast(m') && NothingMissed(m')
  {
    if op.Add? || (Armed(m.heap, op.a) && !(op.ms == m.heap[op.a].ms && !op.fromNow)) {
      TicklesKeeps(m, m', op.a);
      InsertedNext(m, op);
    }
  }

  lemma InsertedNext(m: Manager, op: Op)
    requires SetInThePast(m) && Timely(m, op)
    ensures op.Add? ==> (op.now + op.ms) % U64 == op.now + op.ms
    ensures op.Reset? && Armed(m.heap, op.a) ==>
              var t := m.heap[op.a];
              Rescheduled(t, op.ms, op.fromNow, op.now).next == (if op.fromNow then op.now else t.next - t.ms) + op.ms
  {
    if op.Add? {
      SmallMod(op.now + op.ms, U64);
    } else if op.Reset? && Armed(m.heap, op.a) {
      var t := m.heap[op.a];
      SmallMod(t.next - t.ms, U64);
      SmallMod((if op.fromNow then op.now else t.next - t.ms) + op.ms, U64);
    }
  }

  lemma RefreshKeepsDeadlines(m: Manager, op: Op, m': Manager)
    requires Step(m, op, m') && Timely(m, op) && SetInThePast(m) && NothingMissed(m) && op.Refresh?
    ensures SetInThePast(m') && NothingMissed(m')
  {
    if Armed(m.heap, op.a) {
      RefreshMovesForwardExactly(m.heap[op.a], m.clock, op.now);
    }
  }

  lemma ExpireKeepsDeadlines(m: Manager, op: Op, m': Manager)
    requires Step(m, op, m') && Timely(m, op) && SetInThePast(m) && NothingMissed(m) && op.Expire?
    ensures SetInThePast(m') && NothingMissed(m')
  {
    forall a | Armed(m'.heap, a)
      ensures m'.heap[a].ms <= m'.heap[a].next <= m'.clock + m'.heap[a].ms && m'.heap[a].next < U64
      ensures !m.tickled ==> m.seen <= m'.heap[a].next
    {
      assert a in m.heap && Armed(m.heap, a);
      if m.heap[a].recurring && Due(m.heap, a, Rollover(m.previous, op.now), op.now, op.probe) {
        FiredNext(m.heap[a], op.now);
      }
    }
  }

  lemma FiredNext(t: Timer, now: nat)
    requires now + t.ms < U64
    ensures t.recurring ==> Fired(t, now).next == now + t.ms
  {
    SmallMod(now + t.ms, U64);
  }

  /** A timer inserted without a wake-up is not before what is already there. */
  lemma TicklesKeeps(m: Manager, m': Manager, a: Address)
    requires a in m'.heap && Tickles(m, m', a) && NothingMissed(m) && m'.seen == m.seen
    requires forall b :: b != a ==> (b in m'.heap <==> b in m.heap) && (b in m.heap ==> m'.heap[b] == m.heap[b])
    ensures NothingMissed(m')
  {
    if !m'.tickled {
      var b :| b != a && Armed(m'.heap, b) && !Less(m'.heap, a, b);
      assert m.seen <= m'.heap[b].next <= m'.heap[a].next;
    }
  }

  /**
   * No earlier deadline is missed: in every run with timely readings, whenever
   * some armed timer is due before the deadline the last poll saw, the flag is up and exactly one
   * wake-up has been raised since that poll, although refresh and re-insertion never raise one.
   */
  lemma {:induction false} NoDeadlineMissed(ms: seq<Manager>, ops: seq<Op>, n: nat)
    requires Run(ms, ops) && Init(ms[0]) && n < |ms|
    requires forall i :: 0 <= i < |ops| ==> Timely(ms[i], ops[i])
    ensures SetInThePast(ms[n]) && NothingMissed(ms[n])
    ensures (exists a :: Armed(ms[n].heap, a) && ms[n].heap[a].next < ms[n].seen) ==> ms[n].tickled && ms[n].wakes == 1
  {
    if n > 0 {
      NoDeadlineMissed(ms, ops, n - 1);
      StepKeepsDeadlines(ms[n - 1], ops[n - 1], ms[n]);
    }
  }

  /**
   * The overflow condition is exact: refreshing a timer set in the past moves its deadline
   * forward if and only if now + ms does not overflow; an overflow moves it back unannounced.
   */
  lemma RefreshMovesForwardExactly(t: Timer, clock: nat, now: nat)
    requires t.ms <= t.next <= clock + t.ms && t.next < U64 && clock <= now < U64
    ensures Refreshed(t, now).next >= t.next <==> now + t.ms < U64
  {
    if now + t.ms >= U64 {
      assert (now + t.ms) % U64 == now + t.ms - U64;
    }
  }

  /** A refresh at time 20 of a timer of 2^64 - 10 ms, set at time 5, moves its deadline to 10 unannounced. */
  lemma OverflowMissesDeadline() returns (m: Manager, m': Manager)
    ensures SetInThePast(m) && NothingMissed(m) && m.clock == 5 && Step(m, Refresh(1, 20), m')
    ensures Armed(m'.heap, 1) && m'.heap[1].next == 10 < m'.seen && !m'.tickled
  {
    var t := Timer(false, U64 - 10, U64 - 5, Some(7));
    m := Manager(map[1 := t], false, 0, 0, U64 - 5, 5, []);
    m' := m.(heap := map[1 := t.(next := 10)], clock := 20);
    assert Refreshed(t, 20).next == 10;
    assert m'.heap == m.heap[1 := Refreshed(t, 20)];
  }

  /** A manager made at time 0 takes time 5 for a rollover and delivers a timer set for 1000. */
  lemma FirstHourFiresEarly() returns (m: Manager, m': Manager)
    ensures SetInThePast(m) && m.previous == 0 && m.heap == map[1 := Timer(false, 1000, 1000, Some(7))]
    ensures Step(m, Expire(5, 2, [1]), m') && m'.delivered == [1]
  {
    var t := Timer(false, 1000, 1000, Some(7));
    m := Manager(map[1 := t], false, 0, 0, 1000, 0, []);
    m' := m.(heap := map[1 := t.(cb := None)], clock := 5, previous := 5, delivered := [1]);
    RolloverExactly(0, 5);
    assert Armed(m.heap, 1) && Due(m.heap, 1, true, 5, 2);
    assert FireAll(m.heap, true, 5, 2) == m'.heap;
  }

  // ---------------------------------------------------------------- expiry

  /**
   * Without rollover every timer before now is delivered and none after now; afterwards every
   * armed timer is at now or later, recurring ones sit at now + ms, one-shots are disarmed, and
   * no timer is lost.
   */
  lemma ExpiryIsExact(m: Manager, op: Op, m': Manager)
    requires op.Expire? && Step(m, op, m') && Timely(m, op) && !Rollover(m.previous, op.now)
    ensures forall a :: a in op.fired ==> Armed(m.heap, a) && m.heap[a].next <= op.now
    ensures forall a :: Armed(m.heap, a) && m.heap[a].next < op.now ==> a in op.fired
    ensures forall i, j :: 0 <= i < j < |op.fired| ==> m.heap[op.fired[i]].next <= m.heap[op.fired[j]].next
    ensures m'.heap.Keys == m.heap.Keys
    ensures forall a :: Armed(m'.heap, a) ==> m'.heap[a].next >= op.now
    ensures forall a :: a in op.fired ==>
              if m.heap[a].recurring then Armed(m'.heap, a) && m'.heap[a].next == op.now + m.heap[a].ms
              else !Armed(m'.heap, a)
    ensures forall a :: a in m.heap && a !in op.fired ==> m'.heap[a] == m.heap[a]
  {
    forall i, j | 0 <= i < j < |op.fired| ensures m.heap[op.fired[i]].next <= m.heap[op.fired[j]].next {
      assert Less(m.heap, op.fired[i], op.fired[j]);
    }
  }

  /**
   * In a run that starts an hour into the clock's life, an expiry is taken for a rollover exactly
   * when its reading lags more than an hour behind the one of the expiry before; so never with
   * readings that lag at most an hour behind the latest.
   */
  lemma {:induction false} RolloverIsLag(ms: seq<Manager>, ops: seq<Op>, n: nat)
    requires Run(ms, ops) && Init(ms[0]) && HOUR <= ms[0].clock && n < |ms|
    requires forall i :: 0 <= i < |ops| ==> ms[0].clock <= Now(ms[i], ops[i]) < U64
    ensures ms[0].clock <= ms[n].previous <= ms[n].clock
    ensures n < |ops| && ops[n].Expire? ==> (Rollover(ms[n].previous, ops[n].now) <==> ops[n].now + HOUR < ms[n].previous)
    ensures n < |ops| && ops[n].Expire? && ms[n].clock <= ops[n].now + HOUR ==> !Rollover(ms[n].previous, ops[n].now)
  {
    if n > 0 {
      RolloverIsLag(ms, ops, n - 1);
      assert Step(ms[n - 1], ops[n - 1], ms[n]);
      ClockBound(ms, ops, n);
    } else {
      ClockBound(ms, ops, 0);
    }
    if n < |ops| {
      RolloverExactly(ms[n].previous, Now(ms[n], ops[n]));
    }
  }

  lemma {:induction false} ClockBound(ms: seq<Manager>, ops: seq<Op>, n: nat)
    requires Run(ms, ops) && n < |ms| && forall i :: 0 <= i < |ops| ==> Now(ms[i], ops[i]) < U64
    ensures ms[0].clock < U64 ==> ms[n].clock < U64
  {
    if n > 0 {
      ClockBound(ms, ops, n - 1);
      assert Step(ms[n - 1], ops[n - 1], ms[n]);
    }
  }

  // ---------------------------------------------------------------- delivery counts

  function Count(s: seq<Address>, a: Address): nat {
    multiset(s)[a]
  }

  /** A disarmed timer is never delivered and never armed again. */
  lemma StepAfterDisarm(m: Manager, op: Op, m': Manager, a: Address)
    requires Step(m, op, m') && a in m.heap && !Armed(m.heap, a)
    ensures a in m'.heap && !Armed(m'.heap, a) && Count(m'.delivered, a) == Count(m.delivered, a)
  {
    if op.Expire? {
      assert a !in op.fired;
    }
  }

  lemma {:induction false} DisarmedForGood(ms: seq<Manager>, ops: seq<Op>, i: nat, j: nat, a: Address)
    requires Run(ms, ops) && i <= j < |ms| && a in ms[i].heap && !Armed(ms[i].heap, a)
    ensures a in ms[j].heap && !Armed(ms[j].heap, a) && Count(ms[j].delivered, a) == Count(ms[i].delivered, a)
    decreases j - i
  {
    if i < j {
      StepAfterDisarm(ms[i], ops[i], ms[i + 1], a);
      DisarmedForGood(ms, ops, i + 1, j, a);
    }
  }

  /** Once cancel has returned true, that timer's callback is never delivered again. */
  lemma CancelIsFinal(ms: seq<Manager>, ops: seq<Op>, i: nat, j: nat)
    requires Run(ms, ops) && i < |ops| && i < j < |ms| && ops[i].Cancel? && ops[i].result
    ensures Count(ms[j].delivered, ops[i].a) == Count(ms[i].delivered, ops[i].a)
  {
    assert Step(ms[i], ops[i], ms[i + 1]);
    DisarmedForGood(ms, ops, i + 1, j, ops[i].a);
  }

  /** What a one-shot timer has been delivered: nothing while armed, at most once in all. */
  predicate OneShotBound(m: Manager, a: Address) {
    && (a !in m.heap ==> Count(m.delivered, a) == 0)
    && (a in m.heap && !m.heap[a].recurring ==>
          Count(m.delivered, a) <= if Armed(m.heap, a) then 0 else 1)
  }

  lemma StepOneShot(m: Manager, op: Op, m': Manager, a: Address)
    requires Step(m, op, m') && OneShotBound(m, a)
    ensures OneShotBound(m', a)
  {
    if op.Expire? {
      assert Count(m'.delivered, a) == Count(m.delivered, a) + Count(op.fired, a);
      FiredOnce(m.heap, op.fired, a);
    }
  }

  /** An expiry delivers each timer at most once. */
  lemma {:induction false} FiredOnce(h: Heap, s: seq<Address>, a: Address)
    requires InHeap(h, s) && Sorted(h, s)
    ensures Count(s, a) <= 1 && (Count(s, a) == 1 <==> a in s)
  {
    if s != [] {
      var t := s[1..];
      assert s == [s[0]] + t;
      forall i, j | 0 <= i < j < |t| ensures Less(h, t[i], t[j]) { assert Less(h, s[i + 1], s[j + 1]); }
      FiredOnce(h, t, a);
      if a == s[0] && a in t {
        var j :| 0 <= j < |t| && t[j] == a;
        SortedDistinct(h, s, 0, j + 1);
      }
    }
  }

  /** Over any history a one-shot timer is delivered at most once, whatever is called on it. */
  lemma {:induction false} OneShotOnce(ms: seq<Manager>, ops: seq<Op>, n: nat, a: Address)
    requires Run(ms, ops) && Init(ms[0]) && n < |ms|
    ensures OneShotBound(ms[n], a)
    ensures a in ms[n].heap && !ms[n].heap[a].recurring ==> Count(ms[n].delivered, a) <= 1
  {
    if n > 0 {
      OneShotOnce(ms, ops, n - 1, a);
      StepOneShot(ms[n - 1], ops[n - 1], ms[n], a);
    }
  }
}
