/**
 * When a timer fires: what setting it means for the expiries that follow, over whole histories of
 * calls on a TimerManager (src/async/timer.cpp).
 */
module Deadlines {
  import opened Basics
  import opened Timers
  import opened TimerRuns

  /** The call is on this timer. */
  predicate On(op: Op, a: Address) {
    (op.Cancel? || op.Refresh? || op.Reset?) && op.a == a
  }

  /** The call leaves every other timer as it is, and delivers none. */
  ghost predicate Others(m: Manager, m': Manager, a: Address) {
    && m'.heap.Keys == m.heap.Keys + {a}
    && (forall b :: b in m.heap && b != a ==> m'.heap[b] == m.heap[b])
    && m'.delivered == m.delivered
  }

  /** A new timer is due its period after the clock reading it was made at. */
  lemma AddSets(m: Manager, op: Op, m': Manager)
    requires Step(m, op, m') && op.Add? && Timely(m, op)
    ensures m'.heap[op.a] == Timer(op.recurring, op.ms, op.now + op.ms, Some(op.cb)) && Others(m, m', op.a)
  {
    SmallMod(op.now + op.ms, U64);
  }

  /**
   * A refresh of an armed timer makes it due its period after the reading and changes nothing
   * else; without the reading's overflow that is now + ms.
   */
  lemma RefreshSets(m: Manager, op: Op, m': Manager)
    requires Step(m, op, m') && op.Refresh? && Armed(m.heap, op.a)
    ensures var t := m.heap[op.a];
            && m'.heap[op.a] == Timer(t.recurring, t.ms, (op.now + t.ms) % U64, t.cb) && Others(m, m', op.a)
            && (Timely(m, op) ==> m'.heap[op.a].next == op.now + t.ms)
  {
    var t := m.heap[op.a];
    if op.now + t.ms < U64 {
      SmallMod(op.now + t.ms, U64);
    }
  }

  /**
   * A reset gives the timer its new period, counted from the reading or from when the timer was
   * last set, and changes nothing else; with the old period and no new start it does nothing.
   */
  lemma ResetSets(m: Manager, op: Op, m': Manager)
    requires Step(m, op, m') && op.Reset? && Armed(m.heap, op.a)
    ensures var t := m.heap[op.a];
            && Others(m, m', op.a)
            && (op.ms == t.ms && !op.fromNow ==> m'.heap == m.heap)
            && (op.ms != t.ms || op.fromNow ==>
                  m'.heap[op.a] == Timer(t.recurring, op.ms, ((if op.fromNow then op.now else t.next - t.ms) + op.ms) % U64, t.cb))
            && (Timely(m, op) && SetInThePast(m) ==>
                  m'.heap[op.a].next == (if op.fromNow then op.now else t.next - t.ms) + op.ms)
  {
    var t := m.heap[op.a];
    RescheduledIs(t, op.ms, op.fromNow, op.now);
    if Timely(m, op) && SetInThePast(m) {
      SmallMod((if op.fromNow then op.now else t.next - t.ms) + op.ms, U64);
    }
  }

  /** A call on a timer that is not armed does nothing. */
  lemma DisarmedIgnores(m: Manager, op: Op, m': Manager)
    requires Step(m, op, m') && (op.Cancel? || op.Refresh? || op.Reset?) && !Armed(m.heap, op.a)
    ensures m'.heap == m.heap && m'.delivered == m.delivered && m'.tickled == m.tickled
  {
  }

  /** The expiry delivers the timer: on a rollover, or when its deadline is past, or now and before the probe. */
  predicate Reaches(m: Manager, op: Op, a: Address)
    requires op.Expire? && a in m.heap
  {
    || Rollover(m.previous, op.now)
    || m.heap[a].next < op.now
    || (m.heap[a].next == op.now && a < op.probe)
  }

  /**
   * One call on an armed timer that is not a call of its own: an expiry that reaches it delivers
   * it once, disarms it or makes it due its period later; any other call leaves it alone.
   */
  lemma FiresExactly(m: Manager, op: Op, m': Manager, a: Address)
    requires Step(m, op, m') && Armed(m.heap, a) && !On(op, a)
    ensures a in m'.heap
    ensures op.Expire? && Reaches(m, op, a) ==>
              var t := m.heap[a];
              && Count(m'.delivered, a) == Count(m.delivered, a) + 1
              && m'.heap[a] == if t.recurring then Timer(true, t.ms, (op.now + t.ms) % U64, t.cb) else Timer(false, t.ms, t.next, None)
    ensures !(op.Expire? && Reaches(m, op, a)) ==> m'.heap[a] == m.heap[a] && Count(m'.delivered, a) == Count(m.delivered, a)
  {
    if op.Expire? {
      FiredOnce(m.heap, op.fired, a);
      assert Count(m'.delivered, a) == Count(m.delivered, a) + Count(op.fired, a);
    }
  }

  /** From moment `i` to `j` nobody calls anything on the timer, and no expiry reaches its deadline. */
  ghost predicate LeftAlone(ms: seq<Manager>, ops: seq<Op>, i: nat, j: nat, a: Address, d: nat) {
    forall k :: i <= k < j && k < |ops| && k < |ms| ==>
      && !On(ops[k], a)
      && (ops[k].Expire? ==> ops[k].now < d && !Rollover(ms[k].previous, ops[k].now))
  }

  /** An armed timer that is left alone stays as it is and is not delivered. */
  lemma {:induction false} NotBeforeDeadline(ms: seq<Manager>, ops: seq<Op>, i: nat, j: nat, a: Address)
    requires Run(ms, ops) && i <= j < |ms| && Armed(ms[i].heap, a) && LeftAlone(ms, ops, i, j, a, ms[i].heap[a].next)
    ensures a in ms[j].heap && ms[j].heap[a] == ms[i].heap[a] && Count(ms[j].delivered, a) == Count(ms[i].delivered, a)
    decreases j
  {
    if i < j {
      NotBeforeDeadline(ms, ops, i, j - 1, a);
      FiresExactly(ms[j - 1], ops[j - 1], ms[j], a);
    }
  }

  /**
   * A refreshed timer fires when it should: in a history with timely readings, no expiry that
   * reads the clock before now + ms delivers it, and the first that reads more does, once.
   */
  lemma RefreshedFiresOnTime(ms: seq<Manager>, ops: seq<Op>, i: nat, j: nat, a: Address)
    requires Run(ms, ops) && i < j < |ms| && ops[i].Refresh? && ops[i].a == a && Armed(ms[i].heap, a) && Timely(ms[i], ops[i])
    requires LeftAlone(ms, ops, i + 1, j, a, ops[i].now + ms[i].heap[a].ms)
    ensures Armed(ms[j].heap, a) && ms[j].heap[a].next == ops[i].now + ms[i].heap[a].ms
    ensures Count(ms[j].delivered, a) == Count(ms[i].delivered, a)
    ensures j < |ops| && ops[j].Expire? && ops[j].now > ops[i].now + ms[i].heap[a].ms ==>
              Count(ms[j + 1].delivered, a) == Count(ms[i].delivered, a) + 1
  {
    assert Step(ms[i], ops[i], ms[i + 1]);
    RefreshSets(ms[i], ops[i], ms[i + 1]);
    FiresWhenDue(ms, ops, i + 1, j, a);
  }

  /** So does a new timer. */
  lemma AddedFiresOnTime(ms: seq<Manager>, ops: seq<Op>, i: nat, j: nat, a: Address)
    requires Run(ms, ops) && i < j < |ms| && ops[i].Add? && ops[i].a == a && Timely(ms[i], ops[i])
    requires LeftAlone(ms, ops, i + 1, j, a, ops[i].now + ops[i].ms)
    ensures Armed(ms[j].heap, a) && ms[j].heap[a].next == ops[i].now + ops[i].ms
    ensures Count(ms[j].delivered, a) == Count(ms[i].delivered, a)
    ensures j < |ops| && ops[j].Expire? && ops[j].now > ops[i].now + ops[i].ms ==>
              Count(ms[j + 1].delivered, a) == Count(ms[i].delivered, a) + 1
  {
    assert Step(ms[i], ops[i], ms[i + 1]);
    AddSets(ms[i], ops[i], ms[i + 1]);
    FiresWhenDue(ms, ops, i + 1, j, a);
  }

  /** And a timer that is reset, with its new period. */
  lemma ResetFiresOnTime(ms: seq<Manager>, ops: seq<Op>, i: nat, j: nat, a: Address, d: nat)
    requires Run(ms, ops) && i < j < |ms| && ops[i].Reset? && ops[i].a == a && Armed(ms[i].heap, a)
    requires Timely(ms[i], ops[i]) && SetInThePast(ms[i])
    requires d == (if ops[i].fromNow then ops[i].now else ms[i].heap[a].next - ms[i].heap[a].ms) + ops[i].ms
    requires LeftAlone(ms, ops, i + 1, j, a, d)
    ensures Armed(ms[j].heap, a) && ms[j].heap[a].next == d && ms[j].heap[a].ms == ops[i].ms
    ensures Count(ms[j].delivered, a) == Count(ms[i].delivered, a)
    ensures j < |ops| && ops[j].Expire? && ops[j].now > d ==> Count(ms[j + 1].delivered, a) == Count(ms[i].delivered, a) + 1
  {
    assert Step(ms[i], ops[i], ms[i + 1]);
    ResetSets(ms[i], ops[i], ms[i + 1]);
    FiresWhenDue(ms, ops, i + 1, j, a);
  }

  lemma FiresWhenDue(ms: seq<Manager>, ops: seq<Op>, i: nat, j: nat, a: Address)
    requires Run(ms, ops) && i <= j < |ms| && Armed(ms[i].heap, a) && LeftAlone(ms, ops, i, j, a, ms[i].heap[a].next)
    ensures a in ms[j].heap && ms[j].heap[a] == ms[i].heap[a] && Count(ms[j].delivered, a) == Count(ms[i].delivered, a)
    ensures j < |ops| && ops[j].Expire? && ops[j].now > ms[i].heap[a].next ==>
              Count(ms[j + 1].delivered, a) == Count(ms[i].delivered, a) + 1
  {
    NotBeforeDeadline(ms, ops, i, j, a);
    if j < |ops| && ops[j].Expire? && ops[j].now > ms[i].heap[a].next {
      FiresExactly(ms[j], ops[j], ms[j + 1], a);
    }
  }
}
