/**
 * TimerManager (src/async/timer.cpp): a set of timers ordered by the mutable key (m_next, address).
 * `Heap` maps the address of every timer object to its fields; the class keeps the ordered set
 * itself. What the operations mean is said on the heap alone, without the order.
 */
module Timers {
  import opened Basics

  type Address = nat
  type Callback = nat

  const U64 := 0x1_0000_0000_0000_0000
  const HOUR := 60 * 60 * 1000

  /** An unsigned 64-bit reading in milliseconds. */
  type Tick = x: int | 0 <= x < U64

  datatype Timer = Timer(recurring: bool, ms: nat, next: Tick, cb: Option<Callback>)

  type Heap = map<Address, Timer>

  /** Comparator: earlier deadline first, then the lower address. */
  predicate Less(h: Heap, a: Address, b: Address)
    requires a in h && b in h
  {
    if h[a].next < h[b].next then true
    else if h[b].next < h[a].next then false
    else a < b
  }

  /** In the set: the timer still has its callback. */
  predicate Armed(h: Heap, a: Address) {
    a in h && h[a].cb.Some?
  }

  predicate InHeap(h: Heap, s: seq<Address>) {
    forall i :: 0 <= i < |s| ==> s[i] in h
  }

  predicate Sorted(h: Heap, s: seq<Address>)
    requires InHeap(h, s)
  {
    forall i, j :: 0 <= i < j < |s| ==> Less(h, s[i], s[j])
  }

  /** No armed timer comes before `a`. */
  ghost predicate IsFront(h: Heap, a: Address)
    requires a in h
  {
    forall b :: b != a && Armed(h, b) ==> Less(h, a, b)
  }

  /** The deadline the set begins with, or U64 when it is empty. */
  ghost predicate IsFrontDeadline(h: Heap, d: nat) {
    && (forall a :: Armed(h, a) ==> d <= h[a].next)
    && ((d == U64 && forall a :: !Armed(h, a)) || exists a :: Armed(h, a) && h[a].next == d)
  }

  /** What getNextTimer may answer at clock reading `now`. */
  ghost predicate Answer(h: Heap, now: nat, wait: nat) {
    if forall a :: !Armed(h, a) then wait == U64 - 1
    else exists a :: Armed(h, a) && IsFront(h, a) && wait == if now >= h[a].next then 0 else h[a].next - now
  }

  /** All ones mean that there is no timer, but for one at the last instant polled at time zero. */
  lemma AllOnesExactly(h: Heap, now: nat, wait: nat)
    requires Answer(h, now, wait)
    ensures wait == U64 - 1 <==>
              || (forall a :: !Armed(h, a))
              || (now == 0 && exists a :: Armed(h, a) && IsFront(h, a) && h[a].next == U64 - 1)
  {
    if a :| Armed(h, a) {
      var b :| Armed(h, b) && IsFront(h, b) && wait == if now >= h[b].next then 0 else h[b].next - now;
      forall c | Armed(h, c) && IsFront(h, c) ensures c == b {
      }
    }
  }

  // ---------------------------------------------------------------- clock rollover

  /** `now < m_previous - 1h` in unsigned arithmetic. */
  predicate Rollover(previous: nat, now: nat) {
    now < (previous - HOUR) % U64
  }

  /**
   * Once the last reading is past the first hour, a rollover is a reading more than an hour
   * behind it; within the first hour the subtraction wraps and almost every reading is one.
   */
  lemma RolloverExactly(previous: nat, now: nat)
    requires previous < U64
    ensures Rollover(previous, now) <==>
              if previous >= 3_600_000 then now + 3_600_000 < previous else now + 3_600_000 < previous + 0x1_0000_0000_0000_0000
  {
    if previous < HOUR {
      assert (previous - HOUR) % U64 == previous - HOUR + U64;
    }
  }

  // ---------------------------------------------------------------- meaning of the operations

  /** The expiry test: everything on rollover, else everything not after (now, address of the probe). */
  predicate Due(h: Heap, a: Address, rollover: bool, now: nat, probe: Address)
    requires a in h
  {
    rollover || h[a].next < now || (h[a].next == now && a < probe)
  }

  /** A delivered timer: re-armed from now if it recurs, else without callback. */
  function Fired(t: Timer, now: nat): Timer {
    if t.recurring then t.(next := (now + t.ms) % U64) else t.(cb := None)
  }

  function FireAll(h: Heap, rollover: bool, now: nat, probe: Address): Heap {
    map a | a in h :: if Armed(h, a) && Due(h, a, rollover, now, probe) then Fired(h[a], now) else h[a]
  }

  function Refreshed(t: Timer, now: nat): Timer {
    t.(next := (now + t.ms) % U64)
  }

  function Rescheduled(t: Timer, ms: nat, fromNow: bool, now: nat): Timer {
    var start := if fromNow then now else (t.next - t.ms) % U64;
    t.(ms := ms, next := (start + ms) % U64)
  }

  /** The start of a timer is computed modulo 2^64, which does not matter in the end. */
  lemma RescheduledIs(t: Timer, ms: nat, fromNow: bool, now: nat)
    ensures Rescheduled(t, ms, fromNow, now) ==
            Timer(t.recurring, ms, ((if fromNow then now else t.next - t.ms) + ms) % U64, t.cb)
  {
    if !fromNow {
      ModSum(t.next - t.ms, ms, U64);
    }
  }

  /** The due timers are those that upper_bound of the probe timer leaves behind. */
  lemma DueIsUpperBound(h: Heap, a: Address, now: Tick, probe: Address)
    requires a in h && probe !in h
    ensures var all := h[probe := Timer(false, 0, now, None)];
            Due(h, a, false, now, probe) <==> !Less(all, probe, a)
    ensures Due(h, a, true, now, probe)
  {
  }

  function Callbacks(h: Heap, s: seq<Address>): (r: seq<Callback>)
    requires forall i :: 0 <= i < |s| ==> Armed(h, s[i])
    ensures |r| == |s|
  {
    seq(|s|, i requires 0 <= i < |s| && Armed(h, s[i]) => h[s[i]].cb.value)
  }

  lemma CallbacksMore(h: Heap, s: seq<Address>, i: nat)
    requires i < |s| && forall j :: 0 <= j < |s| ==> Armed(h, s[j])
    ensures Callbacks(h, s[..i + 1]) == Callbacks(h, s[..i]) + [h[s[i]].cb.value]
  {
  }

  lemma PrefixMore(s: seq<Address>, i: nat)
    requires i < |s|
    ensures forall a :: a in s[..i + 1] <==> a in s[..i] || a == s[i]
  {
    assert s[..i + 1] == s[..i] + [s[i]];
  }

  // ---------------------------------------------------------------- ordered insertion

  lemma LessTrichotomy(h: Heap, a: Address, b: Address)
    requires a in h && b in h
    ensures a != b ==> (Less(h, a, b) <==> !Less(h, b, a))
    ensures !Less(h, a, a)
  {}

  /** A sorted list only holds distinct timers. */
  lemma SortedDistinct(h: Heap, s: seq<Address>, i: nat, j: nat)
    requires InHeap(h, s) && Sorted(h, s) && i < |s| && j < |s| && s[i] == s[j]
    ensures i == j
  {}

  /** A member is where the lower bound points. */
  lemma LowerBoundFinds(h: Heap, s: seq<Address>, a: Address, k: nat, j: nat)
    requires InHeap(h, s) && Sorted(h, s) && a in h && k <= |s| && j < |s| && s[j] == a
    requires forall i :: 0 <= i < k ==> Less(h, s[i], a)
    requires k < |s| ==> !Less(h, s[k], a)
    ensures k == j
  {}

  lemma InsertSorted(h: Heap, s: seq<Address>, k: nat, a: Address)
    requires InHeap(h, s) && Sorted(h, s) && a in h && k <= |s|
    requires forall i :: 0 <= i < k ==> Less(h, s[i], a)
    requires k < |s| ==> Less(h, a, s[k])
    ensures var r := s[..k] + [a] + s[k..]; InHeap(h, r) && Sorted(h, r)
  {
    var r := s[..k] + [a] + s[k..];
    forall i, j | 0 <= i < j < |r| ensures Less(h, r[i], r[j]) {
      if i == k && k < j - 1 {
        assert Less(h, s[k], s[j - 1]);
      }
    }
  }

  class TimerManager {
    var heap: Heap
    var timers: seq<Address>
    var tickled: bool
    var previous: nat
    var wakeups: nat   // calls of onTimerInsertedAtFront

    /** Strictly ordered by the current keys, and exactly the timers that have a callback. */
    ghost predicate Valid()
      reads this
    {
      && InHeap(heap, timers) && Sorted(heap, timers)
      && (forall a :: a in timers <==> Armed(heap, a))
    }

    constructor (now: nat)
      ensures Valid() && heap == map[] && timers == [] && !tickled && previous == now && wakeups == 0
    {
      heap := map[];
      timers := [];
      tickled := false;
      previous := now;
      wakeups := 0;
    }

    /** std::set::lower_bound by the comparator. */
    method LowerBound(a: Address) returns (k: nat)
      requires InHeap(heap, timers) && Sorted(heap, timers) && a in heap
      ensures k <= |timers|
      ensures forall i :: 0 <= i < k ==> Less(heap, timers[i], a)
      ensures k < |timers| ==> !Less(heap, timers[k], a)
    {
      k := 0;
      while k < |timers| && Less(heap, timers[k], a)
        invariant 0 <= k <= |timers|
        invariant forall i :: 0 <= i < k ==> Less(heap, timers[i], a)
      {
        k := k + 1;
      }
    }

    /** std::set::find: succeeds for exactly the members, because the keys are still in order. */
    method Find(a: Address) returns (k: nat)
      requires InHeap(heap, timers) && Sorted(heap, timers) && a in heap
      ensures k <= |timers| && (k < |timers| <==> a in timers)
      ensures k < |timers| ==> timers[k] == a
    {
      k := LowerBound(a);
      if k < |timers| && timers[k] != a {
        LessTrichotomy(heap, timers[k], a);
      }
      if a in timers {
        var j :| 0 <= j < |timers| && timers[j] == a;
        LowerBoundFinds(heap, timers, a, k, j);
      }
      if k < |timers| && Less(heap, a, timers[k]) {
        k := |timers|;
      }
    }

    /** std::set::insert of a timer that is not in the set; returns its place. */
    method Insert(a: Address) returns (k: nat)
      requires InHeap(heap, timers) && Sorted(heap, timers) && a in heap && a !in timers
      modifies `timers
      ensures InHeap(heap, timers) && Sorted(heap, timers)
      ensures forall b :: b in timers <==> b == a || b in old(timers)
      ensures k < |timers| && timers[k] == a
    {
      k := LowerBound(a);
      if k < |timers| { LessTrichotomy(heap, a, timers[k]); }
      InsertSorted(heap, timers, k, a);
      timers := timers[..k] + [a] + timers[k..];
    }

    method Erase(k: nat)
      requires Valid() && k < |timers|
      modifies `timers
      ensures InHeap(heap, timers) && Sorted(heap, timers)
      ensures forall b :: b in timers <==> b in old(timers) && b != old(timers)[k]
    {
      forall i, j | 0 <= i < |timers| && 0 <= j < |timers| && timers[i] == timers[j] ensures i == j {
        SortedDistinct(heap, timers, i, j);
      }
      ghost var before := timers;
      timers := timers[..k] + timers[k + 1..];
      forall b | b in before && b != before[k] ensures b in timers {
        var i :| 0 <= i < |before| && before[i] == b;
        assert i < k ==> timers[i] == b;
        assert i > k ==> timers[i - 1] == b;
      }
    }

    /** A key change or a lost callback outside the set leaves the set in order. */
    lemma OutsideUpdate(h: Heap, a: Address, t: Timer)
      requires InHeap(heap, timers) && Sorted(heap, timers) && a !in timers && h == heap[a := t]
      ensures InHeap(h, timers) && Sorted(h, timers)
    {
      forall i, j | 0 <= i < j < |timers| ensures Less(h, timers[i], timers[j]) {
        assert Less(heap, timers[i], timers[j]);
      }
    }

    /** Timer::cancel. */
    method Cancel(a: Address) returns (ok: bool)
      requires Valid() && a in heap
      modifies `heap, `timers
      ensures Valid()
      ensures ok == old(Armed(heap, a))
      ensures heap == if ok then old(heap)[a := old(heap)[a].(cb := None)] else old(heap)
    {
      if heap[a].cb.None? {
        return false;
      }
      var k := Find(a);
      Erase(k);
      ghost var h := heap[a := heap[a].(cb := None)];
      OutsideUpdate(h, a, heap[a].(cb := None));
      heap := heap[a := heap[a].(cb := None)];
      ok := true;
    }

    /** Timer::refresh: never tickles. */
    method Refresh(a: Address, now: nat) returns (ok: bool)
      requires Valid() && a in heap
      modifies `heap, `timers
      ensures Valid()
      ensures ok == old(Armed(heap, a))
      ensures var t := old(heap)[a];
              heap == if ok then old(heap)[a := Timer(t.recurring, t.ms, (now + t.ms) % U64, t.cb)] else old(heap)
    {
      if heap[a].cb.None? {
        return false;
      }
      var k := Find(a);
      if k == |timers| {
        return false;
      }
      Erase(k);
      OutsideUpdate(heap[a := Refreshed(heap[a], now)], a, Refreshed(heap[a], now));
      heap := heap[a := heap[a].(next := (now + heap[a].ms) % U64)];
      var _ := Insert(a);
      ok := true;
    }

    /** addTimer with the lock held: insert, and tickle when the timer is the new front. */
    method AddLocked(a: Address)
      requires InHeap(heap, timers) && Sorted(heap, timers) && a !in timers
      requires Armed(heap, a) && (forall b :: b in timers <==> Armed(heap, b) && b != a)
      modifies `timers, `tickled, `wakeups
      ensures Valid()
      ensures tickled == (old(tickled) || IsFront(heap, a))
      ensures wakeups == old(wakeups) + if !old(tickled) && tickled then 1 else 0
    {
      var k := Insert(a);
      FrontIs(k, a);
      var atFront := k == 0 && !tickled;
      if atFront {
        tickled := true;
      }
      if atFront {
        wakeups := wakeups + 1;
      }
    }

    lemma FrontIs(k: nat, a: Address)
      requires Valid() && k < |timers| && timers[k] == a
      ensures k == 0 <==> IsFront(heap, a)
    {
      if k == 0 {
        forall b | b != a && Armed(heap, b) ensures Less(heap, a, b) {
          var j :| 0 <= j < |timers| && timers[j] == b;
          assert Less(heap, timers[0], timers[j]);
        }
      } else {
        assert Less(heap, timers[0], timers[k]) && Armed(heap, timers[0]);
        LessTrichotomy(heap, timers[0], a);
      }
    }

    /** TimerManager::addTimer with a new timer object at `a`. */
    method AddTimer(a: Address, ms: nat, cb: Callback, recurring: bool, now: nat)
      requires Valid() && a !in heap
      modifies `heap, `timers, `tickled, `wakeups
      ensures Valid()
      ensures heap == old(heap)[a := Timer(recurring, ms, (now + ms) % U64, Some(cb))]
      ensures tickled == (old(tickled) || IsFront(heap, a))
      ensures wakeups == old(wakeups) + if !old(tickled) && tickled then 1 else 0
    {
      var t := Timer(recurring, ms, (now + ms) % U64, Some(cb));
      OutsideUpdate(heap[a := t], a, t);
      heap := heap[a := t];
      AddLocked(a);
    }

    /** Timer::reset: true without any check when nothing would change. */
    method Reset(a: Address, ms: nat, fromNow: bool, now: nat) returns (ok: bool)
      requires Valid() && a in heap
      modifies `heap, `timers, `tickled, `wakeups
      ensures Valid()
      ensures var t := old(heap)[a];
              var same := ms == t.ms && !fromNow;
              && ok == (same || t.cb.Some?)
              && if !same && ok
                 then && heap == old(heap)[a := Timer(t.recurring, ms, ((if fromNow then now else t.next - t.ms) + ms) % U64, t.cb)]
                      && tickled == (old(tickled) || IsFront(heap, a))
                 else heap == old(heap) && tickled == old(tickled)
      ensures wakeups == old(wakeups) + if !old(tickled) && tickled then 1 else 0
    {
      if ms == heap[a].ms && !fromNow {
        return true;
      }
      if heap[a].cb.None? {
        return false;
      }
      var k := Find(a);
      if k == |timers| {
        return false;
      }
      Erase(k);
      var t := Rescheduled(heap[a], ms, fromNow, now);
      RescheduledIs(heap[a], ms, fromNow, now);
      OutsideUpdate(heap[a := t], a, t);
      heap := heap[a := t];
      AddLocked(a);
      ok := true;
    }

    /** TimerManager::getNextTimer: clears the flag and says how long to sleep. */
    method GetNextTimer(now: nat) returns (wait: nat, ghost deadline: nat)
      requires Valid()
      modifies `tickled
      ensures Valid() && !tickled && IsFrontDeadline(heap, deadline)
      ensures wait == if timers == [] then U64 - 1 else if now >= deadline then 0 else deadline - now
      ensures Answer(heap, now, wait)
    {
      tickled := false;
      if timers == [] {
        assert forall a :: !Armed(heap, a);
        return U64 - 1, U64;
      }
      deadline := heap[timers[0]].next;
      FrontIs(0, timers[0]);
      assert Armed(heap, timers[0]);
      if now >= heap[timers[0]].next {
        wait := 0;
      } else {
        wait := heap[timers[0]].next - now;
      }
    }

    /** upper_bound of the probe: the due timers are exactly a prefix of the set. */
    method UpperBound(rollover: bool, now: nat, probe: Address) returns (k: nat)
      requires Valid() && probe !in heap
      ensures k <= |timers|
      ensures forall i :: 0 <= i < |timers| ==> (i < k <==> Due(heap, timers[i], rollover, now, probe))
    {
      if rollover {
        return |timers|;
      }
      k := 0;
      while k < |timers| && Due(heap, timers[k], false, now, probe)
        invariant 0 <= k <= |timers|
        invariant forall i :: 0 <= i < k ==> Due(heap, timers[i], false, now, probe)
      {
        k := k + 1;
      }
      forall i | k <= i < |timers| ensures !Due(heap, timers[i], false, now, probe) {
        assert k < i ==> Less(heap, timers[k], timers[i]);
      }
    }

    /**
     * TimerManager::listExpiredCb: delivers the callbacks of exactly the due timers in deadline
     * order, re-arms the recurring ones from now and disarms the others.
     */
    method ListExpiredCb(now: nat, probe: Address) returns (cbs: seq<Callback>, ghost fired: seq<Address>)
      requires Valid() && probe !in heap
      modifies `heap, `timers, `previous
      ensures Valid()
      ensures previous == if old(timers) == [] then old(previous) else now
      ensures heap == FireAll(old(heap), Rollover(old(previous), now), now, probe)
      ensures forall a :: a in fired <==>
                old(Armed(heap, a)) && Due(old(heap), a, Rollover(old(previous), now), now, probe)
      ensures InHeap(old(heap), fired) && Sorted(old(heap), fired)
      ensures (forall i :: 0 <= i < |fired| ==> Armed(old(heap), fired[i])) && cbs == Callbacks(old(heap), fired)
      ensures heap.Keys == old(heap).Keys && forall a :: a in heap ==>
                var t := old(heap)[a];
                heap[a] == if a !in fired then t
                           else if t.recurring then Timer(true, t.ms, (now + t.ms) % U64, t.cb)
                           else Timer(false, t.ms, t.next, None)
    {
      cbs, fired := [], [];
      var rollover := Rollover(previous, now);
      if timers == [] {
        assert FireAll(heap, rollover, now, probe) == heap;
        return;
      }
      previous := now;
      var k := UpperBound(rollover, now, probe);
      if !rollover && heap[timers[0]].next > now {
        assert forall a :: Armed(heap, a) ==> a in timers;
        assert FireAll(heap, rollover, now, probe) == heap;
        return;
      }
      fired := timers[..k];
      ghost var h0 := heap;
      cbs := DeliverPrefix(k, now);
      assert heap == FireAll(h0, rollover, now, probe);
    }

    /** An expired timer, already out of the set: re-armed if it recurs, else disarmed. */
    method FireOne(a: Address, now: nat)
      requires InHeap(heap, timers) && Sorted(heap, timers) && a in heap && a !in timers
      modifies `heap, `timers
      ensures InHeap(heap, timers) && Sorted(heap, timers)
      ensures heap == old(heap)[a := Fired(old(heap)[a], now)]
      ensures forall b :: b in timers <==> b in old(timers) || (b == a && old(heap)[a].recurring)
    {
      OutsideUpdate(heap[a := Fired(heap[a], now)], a, Fired(heap[a], now));
      if heap[a].recurring {
        heap := heap[a := heap[a].(next := (now + heap[a].ms) % U64)];
        var _ := Insert(a);
      } else {
        heap := heap[a := heap[a].(cb := None)];
      }
    }

    /** Takes the first `k` timers out, collects their callbacks and puts the recurring ones back. */
    method DeliverPrefix(k: nat, now: nat) returns (cbs: seq<Callback>)
      requires Valid() && k <= |timers|
      modifies `heap, `timers
      ensures Valid()
      ensures forall i :: 0 <= i < k ==> Armed(old(heap), old(timers)[i])
      ensures cbs == Callbacks(old(heap), old(timers)[..k])
      ensures heap.Keys == old(heap).Keys
      ensures forall a :: a in heap ==>
                heap[a] == if a in old(timers)[..k] then Fired(old(heap)[a], now) else old(heap)[a]
    {
      var expired := timers[..k];
      ghost var h0, rest := heap, timers[k..];
      forall i, j | 0 <= i < |timers| && 0 <= j < |timers| && timers[i] == timers[j] ensures i == j {
        SortedDistinct(heap, timers, i, j);
      }
      forall a ensures Armed(h0, a) <==> a in expired || a in rest { assert timers == expired + rest; }
      timers := timers[k..];
      cbs := [];
      for i := 0 to |expired|
        invariant InHeap(heap, timers) && Sorted(heap, timers) && heap.Keys == h0.Keys
        invariant forall a :: a in heap ==> heap[a] == if a in expired[..i] then Fired(h0[a], now) else h0[a]
        invariant forall a :: a in timers <==> a in rest || (a in expired[..i] && h0[a].recurring)
        invariant cbs == Callbacks(h0, expired[..i])
      {
        var a := expired[i];
        assert a !in expired[..i] && a !in rest;
        CallbacksMore(h0, expired, i);
        cbs := cbs + [heap[a].cb.value];
        PrefixMore(expired, i);
        FireOne(a, now);
      }
      assert expired[..|expired|] == expired;
    }
  }
}
