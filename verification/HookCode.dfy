/**
 * The code of IOhook (src/async/hook.cpp) past its early exits, with the answers of the wrapped
 * call and of the waits given: it makes exactly the acts of the control flow in module Hook.
 */
module HookCode {
  import opened Basics
  import opened Hook

  /** How one wait goes for the fiber: addEvent fails, or the fiber is resumed and reads the flag. */
  datatype Wait = NotAdded | Ended(cancelled: bool)

  /** Where the control flow is after a trace. */
  function Path(trace: seq<Act>, timeout: bool): Option<HookPc> {
    if trace == [] then Some(Calling)
    else
      var pc := Path(trace[..|trace| - 1], timeout);
      if pc.None? then None else After(pc.value, trace[|trace| - 1], timeout)
  }

  /** The results of the calls in a trace. */
  function CallsIn(trace: seq<Act>): seq<CallResult> {
    if trace == [] then []
    else CallsIn(trace[..|trace| - 1]) + if trace[|trace| - 1].Call? then [trace[|trace| - 1].r] else []
  }

  /** How the calls of addEvent in a trace went. */
  function EventsIn(trace: seq<Act>): seq<bool> {
    if trace == [] then []
    else EventsIn(trace[..|trace| - 1]) + if trace[|trace| - 1].AddEvent? then [trace[|trace| - 1].ok] else []
  }

  /** The trace leads to `pc` with these calls and registrations; kept folded. */
  ghost predicate Leads(trace: seq<Act>, timeout: bool, pc: HookPc, calls: seq<CallResult>, events: seq<bool>) {
    forall x {:trigger Unfold(x)} :: Unfold(x) ==>
      Path(trace, timeout) == Some(pc) && CallsIn(trace) == calls && EventsIn(trace) == events
  }

  lemma LeadsIs(trace: seq<Act>, timeout: bool, pc: HookPc, calls: seq<CallResult>, events: seq<bool>)
    requires Leads(trace, timeout, pc, calls, events)
    ensures Path(trace, timeout) == Some(pc) && CallsIn(trace) == calls && EventsIn(trace) == events
  {
    assert Unfold(0);
  }

  lemma NoActs(timeout: bool)
    ensures Leads([], timeout, Calling, [], [])
  {
  }

  /** The number of results that make the fiber wait. */
  function Blocks(calls: seq<CallResult>): nat {
    if calls == [] then 0 else Blocks(calls[..|calls| - 1]) + if calls[|calls| - 1] == Failed(EAGAIN) then 1 else 0
  }

  lemma {:induction false} Interrupted(calls: seq<CallResult>, c: nat, n: nat)
    requires c <= n <= |calls| && forall i :: c <= i < n ==> calls[i] == Failed(EINTR)
    ensures Blocks(calls[..n]) == Blocks(calls[..c])
    decreases n
  {
    if c < n {
      assert calls[..n][..n - 1] == calls[..n - 1];
      Interrupted(calls, c, n - 1);
    }
  }

  lemma Attempted(calls: seq<CallResult>, c: nat, n: nat)
    requires c < n <= |calls| && forall i :: c <= i < n - 1 ==> calls[i] == Failed(EINTR)
    ensures Blocks(calls[..n]) == Blocks(calls[..c]) + if calls[n - 1] == Failed(EAGAIN) then 1 else 0
  {
    Interrupted(calls, c, n - 1);
    assert calls[..n][..n - 1] == calls[..n - 1];
  }

  /** One act more, from where the control flow is. */
  method Do(trace: seq<Act>, timeout: bool, a: Act, ghost pc: HookPc, ghost calls: seq<CallResult>, ghost events: seq<bool>)
    returns (out: seq<Act>)
    requires Leads(trace, timeout, pc, calls, events) && After(pc, a, timeout).Some?
    ensures Leads(out, timeout, After(pc, a, timeout).value,
                  calls + (if a.Call? then [a.r] else []), events + (if a.AddEvent? then [a.ok] else []))
  {
    LeadsIs(trace, timeout, pc, calls, events);
    out := trace + [a];
    assert out[..|trace|] == trace;
  }

  /** The call, repeated while it is interrupted; `stuck` when there are no more answers. */
  method Attempt(calls: seq<CallResult>, first: nat, trace: seq<Act>, timeout: bool, ghost events: seq<bool>)
    returns (next: nat, r: CallResult, out: seq<Act>, stuck: bool)
    requires first <= |calls| && Leads(trace, timeout, Calling, calls[..first], events)
    ensures first <= next <= |calls|
    ensures stuck ==> next == |calls| && Leads(out, timeout, Calling, calls, events)
    ensures stuck ==> forall i :: first <= i < next ==> calls[i] == Failed(EINTR)
    ensures !stuck ==> first < next && r == calls[next - 1] != Failed(EINTR)
    ensures !stuck ==> Leads(out, timeout, After(Calling, Call(r), timeout).value, calls[..next], events)
    ensures !stuck ==> forall i :: first <= i < next - 1 ==> calls[i] == Failed(EINTR)
  {
    next, out, stuck := first, trace, false;
    while next < |calls|
      invariant first <= next <= |calls| && Leads(out, timeout, Calling, calls[..next], events)
      invariant forall i :: first <= i < next ==> calls[i] == Failed(EINTR)
    {
      r := calls[next];
      out := Do(out, timeout, Call(r), Calling, calls[..next], events);
      assert calls[..next] + [r] == calls[..next + 1] && events + [] == events;
      next := next + 1;
      if r != Failed(EINTR) {
        return;
      }
    }
    assert calls[..next] == calls;
    r, stuck := Failed(EINTR), true;
  }

  /** Where one wait leads. */
  function WaitEnds(w: Wait): HookPc {
    if w.NotAdded? then Returned(AddFailed) else if w.cancelled then Returned(TimedOut) else Calling
  }

  /** One wait: timer, event, suspension, clean-up and the look at the flag. */
  method WaitOnce(w: Wait, timeout: bool, id: nat, cb: nat, trace: seq<Act>, ghost calls: seq<CallResult>, ghost events: seq<bool>)
    returns (out: seq<Act>)
    requires Leads(trace, timeout, Blocked, calls, events)
    ensures Leads(out, timeout, WaitEnds(w), calls, events + [w.Ended?])
  {
    out := trace;
    assert calls + [] == calls && events + [] == events;
    if timeout {
      out := Do(out, timeout, AddTimer(id, cb), Blocked, calls, events);
    }
    out := Do(out, timeout, AddEvent(w.Ended?), if timeout then Timed else Blocked, calls, events);
    ghost var more := events + [w.Ended?];
    assert more + [] == more;
    if w.NotAdded? {
      if timeout {
        out := Do(out, timeout, CancelTimer, Failing, calls, more);
      }
      return;
    }
    out := Do(out, timeout, Suspend, Armed, calls, more);
    out := Do(out, timeout, Resume, Suspended, calls, more);
    if timeout {
      out := Do(out, timeout, CancelTimer, Awake, calls, more);
    }
    out := Do(out, timeout, Check(w.cancelled), Checking, calls, more);
  }

  /** The registrations that the waits `ws` stand for. */
  function Registrations(ws: seq<Wait>): seq<bool> {
    seq(|ws|, i requires 0 <= i < |ws| => ws[i].Ended?)
  }

  lemma RegistrationsOn(ws: seq<Wait>, w: nat)
    requires w < |ws|
    ensures Registrations(ws[..w + 1]) == Registrations(ws[..w]) + [ws[w].Ended?]
  {
  }

  /**
   * IOhook. It returns where the control flow of module Hook ends, and None when the answers run
   * out first; it makes the calls and waits in order, and no more of them than it needs.
   */
  method IOHook(timeout: bool, cb: nat, calls: seq<CallResult>, waits: seq<Wait>)
    returns (o: Option<Outcome>, trace: seq<Act>, used: nat, waited: nat)
    ensures used <= |calls| && waited <= |waits|
    ensures CallsIn(trace) == calls[..used] && EventsIn(trace) == Registrations(waits[..waited])
    ensures o.Some? ==> Path(trace, timeout) == Some(Returned(o.value)) && waited == Blocks(calls[..used])
    ensures o.None? ==>
              || (Path(trace, timeout) == Some(Calling) && used == |calls|)
              || (Path(trace, timeout) == Some(Blocked) && waited == |waits|)
    ensures forall i :: 0 <= i < used - 1 ==> Retried(calls[i])
    ensures forall i :: 0 <= i < waited - 1 ==> waits[i] == Ended(false)
    ensures o.Some? && o.value.Result? ==> 0 < used && o.value.r == calls[used - 1] && !Retried(o.value.r)
    ensures o.Some? && waited > 0 ==>
              waits[waited - 1] == match o.value case Result(_) => Ended(false) case AddFailed => NotAdded case TimedOut => Ended(true)
  {
    used, waited, trace := 0, 0, [];
    var c, w := 0, 0;
    NoActs(timeout);
    assert calls[..0] == [] && Registrations(waits[..0]) == [];
    while true
      invariant 0 <= c <= |calls| && 0 <= w <= |waits| && used == c && waited == w == Blocks(calls[..c])
      invariant Leads(trace, timeout, Calling, calls[..c], Registrations(waits[..w]))
      invariant forall i :: 0 <= i < c ==> Retried(calls[i])
      invariant forall i :: 0 <= i < w ==> waits[i] == Ended(false)
      decreases |calls| - c
    {
      var next, r, out, stuck := Attempt(calls, c, trace, timeout, Registrations(waits[..w]));
      trace, used := out, next;
      if stuck {
        LeadsIs(trace, timeout, Calling, calls, Registrations(waits[..w]));
        assert calls[..used] == calls;
        return None, trace, used, waited;
      }
      Attempted(calls, c, next);
      if r != Failed(EAGAIN) {
        LeadsIs(trace, timeout, Returned(Result(r)), calls[..next], Registrations(waits[..w]));
        return Some(Result(r)), trace, used, waited;
      }
      if w == |waits| {
        LeadsIs(trace, timeout, Blocked, calls[..next], Registrations(waits[..w]));
        return None, trace, used, waited;
      }
      trace := WaitOnce(waits[w], timeout, w, cb, trace, calls[..next], Registrations(waits[..w]));
      RegistrationsOn(waits, w);
      waited := w + 1;
      if WaitEnds(waits[w]) != Calling {
        LeadsIs(trace, timeout, WaitEnds(waits[w]), calls[..next], Registrations(waits[..w + 1]));
        return Some(WaitEnds(waits[w]).o), trace, used, waited;
      }
      c, w := next, w + 1;
    }
  }
}
