/**
 * The event table of IOManager (src/async/iomanager.cpp): per file descriptor the registered
 * event bits and one slot per event, the pending counter, and the kernel's epoll interest set.
 * Every epoll_ctl may fail. The concrete state is proved to represent a map from (fd, event) to
 * its waiter, and every waiter to leave that map exactly once.
 */
module EventTable {
  import opened Basics

  datatype Event = READ | WRITE

  datatype Waiter = FiberWaiter(fiber: nat) | CallbackWaiter(cb: nat)

  /** EventContext; `scheduler` is whether the pointer is set. */
  datatype Slot = Slot(scheduler: bool, fiber: Option<nat>, cb: Option<nat>)

  const BLANK := Slot(false, None, None)

  datatype FdContext = FdContext(events: set<Event>, read: Slot, write: Slot)

  const NEW_CONTEXT := FdContext({}, BLANK, BLANK)

  type Key = (nat, Event)

  datatype EpollOp = ADD | MOD | DEL

  function GetContext(c: FdContext, ev: Event): Slot {
    if ev == READ then c.read else c.write
  }

  function SetContext(c: FdContext, ev: Event, s: Slot): FdContext {
    if ev == READ then c.(read := s) else c.(write := s)
  }

  /** A slot in use: the scheduler and exactly one of fiber and callback. */
  predicate Occupied(s: Slot) {
    s.scheduler && (s.fiber.Some? <==> s.cb.None?)
  }

  function WaiterOf(s: Slot): Waiter
    requires Occupied(s)
  {
    if s.cb.Some? then CallbackWaiter(s.cb.value) else FiberWaiter(s.fiber.value)
  }

  /** One registration on its way out of the table. */
  datatype Exit = Exit(ticket: nat, waiter: Waiter, queued: bool)

  /** The waiters that were queued, in order. */
  function Queued(exits: seq<Exit>): seq<Waiter> {
    if exits == [] then []
    else Queued(exits[..|exits| - 1]) +
         if exits[|exits| - 1].queued then [exits[|exits| - 1].waiter] else []
  }

  /**
   * The history of the table: all registrations by ticket, the ticket each key holds now, and
   * the registrations that have left.
   */
  datatype Ledger = Ledger(tickets: map<Key, nat>, issued: seq<Waiter>, exits: seq<Exit>) {

    ghost predicate Held(t: nat) {
      exists k :: k in tickets && tickets[k] == t
    }

    ghost predicate Left(t: nat) {
      exists i :: 0 <= i < |exits| && exits[i].ticket == t
    }

    /** Tickets are valid, and no ticket is held twice, leaves twice, or is held after leaving. */
    ghost predicate AtMostOnce() {
      && (forall k :: k in tickets ==> tickets[k] < |issued|)
      && (forall k, l :: k in tickets && l in tickets && tickets[k] == tickets[l] ==> k == l)
      && (forall i :: 0 <= i < |exits| ==> exits[i].ticket < |issued| && exits[i].waiter == issued[exits[i].ticket])
      && (forall i, j :: 0 <= i < j < |exits| ==> exits[i].ticket != exits[j].ticket)
      && (forall i, k :: 0 <= i < |exits| && k in tickets ==> exits[i].ticket != tickets[k])
    }

    /** Every registration is held by exactly one key or has left exactly once. */
    ghost predicate ExactlyOnce() {
      && AtMostOnce() && (forall t :: 0 <= t < |issued| ==> Held(t) || Left(t))
      && |issued| == |tickets| + |exits|
    }

    function Enter(k: Key, w: Waiter): Ledger {
      Ledger(tickets[k := |issued|], issued + [w], exits)
    }

    function Leave(k: Key, queued: bool): Ledger
      requires k in tickets && tickets[k] < |issued|
    {
      Ledger(tickets - {k}, issued, exits + [Exit(tickets[k], issued[tickets[k]], queued)])
    }

    /** `k` leaves if it is there. */
    function Drop(k: Key, queued: bool): Ledger {
      if k in tickets && tickets[k] < |issued| then Leave(k, queued) else this
    }

    /** Those of the events `evs` of `fd` that are there leave for the queue, READ first. */
    function Wake(fd: nat, evs: set<Event>): Ledger {
      var l := if READ in evs then Drop((fd, READ), true) else this;
      if WRITE in evs then l.Drop((fd, WRITE), true) else l
    }

    ghost function Watched(fd: nat): set<Event> {
      set ev | ev in {READ, WRITE} && (fd, ev) in tickets
    }

    function Waiter(k: Key): Waiter
      requires k in tickets && tickets[k] < |issued|
    {
      issued[tickets[k]]
    }

    /** The ledger is what some history of registrations and departures leaves. */
    ghost predicate Reachable() {
      exists moves :: Replay(moves) == Some(this)
    }

    lemma EnterKeeps(k: Key, w: Waiter)
      requires ExactlyOnce() && k !in tickets
      ensures Enter(k, w).ExactlyOnce()
      ensures |Enter(k, w).tickets| == |tickets| + 1
    {
      var e := Enter(k, w);
      assert e.tickets[k] == |issued|;
      forall u | 0 <= u < |issued| ensures e.Held(u) || e.Left(u) {
        if Held(u) {
          var l :| l in tickets && tickets[l] == u;
          assert e.tickets[l] == u;
        } else {
          assert Left(u);
        }
      }
    }

    lemma LeaveKeeps(k: Key, queued: bool)
      requires ExactlyOnce() && k in tickets
      ensures Leave(k, queued).ExactlyOnce()
      ensures |Leave(k, queued).tickets| == |tickets| - 1
    {
      var e := Leave(k, queued);
      assert e.exits[..|exits|] == exits;
      assert e.tickets.Keys == tickets.Keys - {k};
      assert e.exits[|exits|].ticket == tickets[k];
      forall u | 0 <= u < |issued| ensures e.Held(u) || e.Left(u) {
        if Held(u) {
          var l :| l in tickets && tickets[l] == u;
          assert l != k ==> e.tickets[l] == u;
        } else {
          var i :| 0 <= i < |exits| && exits[i].ticket == u;
          assert e.exits[i].ticket == u;
        }
      }
    }
  }

  const EMPTY := Ledger(map[], [], [])

  /** A registration, or the departure of a key's registration. */
  datatype Move = In(key: Key, waiter: Waiter) | Out(key: Key, queued: bool)

  /** The ledger after one move, if the move is possible. */
  ghost function Moved(l: Ledger, m: Move): Option<Ledger> {
    if m.In? && m.key !in l.tickets then Some(l.Enter(m.key, m.waiter))
    else if m.Out? && m.key in l.tickets && l.tickets[m.key] < |l.issued| then Some(l.Leave(m.key, m.queued))
    else None
  }

  ghost function Replay(moves: seq<Move>): Option<Ledger> {
    if moves == [] then Some(EMPTY)
    else
      var l := Replay(moves[..|moves| - 1]);
      if l.None? then None else Moved(l.value, moves[|moves| - 1])
  }

  lemma ReplayMore(moves: seq<Move>, m: Move)
    requires Replay(moves).Some?
    ensures Replay(moves + [m]) == Moved(Replay(moves).value, m)
  {
    assert (moves + [m])[..|moves|] == moves;
  }

  lemma EnterReachable(l: Ledger, k: Key, w: Waiter)
    requires l.Reachable() && k !in l.tickets
    ensures l.Enter(k, w).Reachable()
  {
    var moves :| Replay(moves) == Some(l);
    ReplayMore(moves, In(k, w));
  }

  lemma LeaveReachable(l: Ledger, k: Key, queued: bool)
    requires l.Reachable() && k in l.tickets && l.tickets[k] < |l.issued|
    ensures l.Leave(k, queued).Reachable()
  {
    var moves :| Replay(moves) == Some(l);
    ReplayMore(moves, Out(k, queued));
  }

  /** In every history each registration is held once or has left once, never both. */
  lemma {:induction false} EveryWaiterLeavesOnce(moves: seq<Move>)
    requires Replay(moves).Some?
    ensures Replay(moves).value.ExactlyOnce()
  {
    if moves != [] {
      var m := moves[|moves| - 1];
      var init := moves[..|moves| - 1];
      EveryWaiterLeavesOnce(init);
      if m.In? {
        Replay(init).value.EnterKeeps(m.key, m.waiter);
      } else {
        Replay(init).value.LeaveKeeps(m.key, m.queued);
      }
    }
  }

  /** The bit of `ev`, its slot and the ledger tell the same story. */
  ghost predicate SlotAgrees(fd: nat, ev: Event, c: FdContext, l: Ledger) {
    if ev in c.events then
      && Occupied(GetContext(c, ev))
      && (fd, ev) in l.tickets && l.tickets[(fd, ev)] < |l.issued|
      && l.Waiter((fd, ev)) == WaiterOf(GetContext(c, ev))
    else
      GetContext(c, ev) == BLANK && (fd, ev) !in l.tickets
  }

  /** epoll watches exactly the registered events. */
  ghost predicate KernelAgrees(fd: nat, c: FdContext, kernel: map<nat, set<Event>>) {
    if c.events == {} then fd !in kernel else fd in kernel && kernel[fd] == c.events
  }

  ghost predicate FdAgrees(fd: nat, c: FdContext, kernel: map<nat, set<Event>>, l: Ledger) {
    KernelAgrees(fd, c, kernel) && SlotAgrees(fd, READ, c, l) && SlotAgrees(fd, WRITE, c, l)
  }

  /** The table, the kernel and the ledger agree on every descriptor. */
  ghost predicate Agree(ctxs: seq<FdContext>, kernel: map<nat, set<Event>>, l: Ledger) {
    && |ctxs| >= 32
    && (forall fd :: 0 <= fd < |ctxs| ==> FdAgrees(fd, ctxs[fd], kernel, l))
    && (forall fd :: fd in kernel ==> fd < |ctxs|)
    && (forall k :: k in l.tickets ==> k.0 < |ctxs|)
  }

  /** Nothing about descriptors other than `fd` differs, but for new tickets. */
  ghost predicate Elsewhere(fd: nat, kernel: map<nat, set<Event>>, l: Ledger, kernel': map<nat, set<Event>>, l': Ledger) {
    && kernel - {fd} == kernel' - {fd}
    && l.issued <= l'.issued
    && (forall k: Key :: k.0 != fd ==> (k in l.tickets <==> k in l'.tickets))
    && (forall k: Key :: k.0 != fd && k in l.tickets ==> l.tickets[k] == l'.tickets[k])
  }

  lemma ElsewhereAgrees(fd: nat, o: nat, c: FdContext, kernel: map<nat, set<Event>>, l: Ledger, kernel': map<nat, set<Event>>, l': Ledger)
    requires o != fd && FdAgrees(o, c, kernel, l) && Elsewhere(fd, kernel, l, kernel', l')
    ensures FdAgrees(o, c, kernel', l')
  {
    assert o in kernel - {fd} <==> o in kernel' - {fd};
    assert o in kernel ==> (kernel - {fd})[o] == (kernel' - {fd})[o];
    forall ev ensures SlotAgrees(o, ev, c, l) ==> SlotAgrees(o, ev, c, l') {
      assert (o, ev).0 != fd;
    }
  }

  /** Changing one descriptor consistently keeps the whole table consistent. */
  lemma UpdateAgrees(ctxs: seq<FdContext>, fd: nat, c: FdContext, kernel: map<nat, set<Event>>, l: Ledger, kernel': map<nat, set<Event>>, l': Ledger)
    requires Agree(ctxs, kernel, l) && fd < |ctxs|
    requires Elsewhere(fd, kernel, l, kernel', l') && FdAgrees(fd, c, kernel', l')
    ensures Agree(ctxs[fd := c], kernel', l')
  {
    var after := ctxs[fd := c];
    forall o | 0 <= o < |ctxs| ensures FdAgrees(o, after[o], kernel', l') {
      if o != fd {
        ElsewhereAgrees(fd, o, ctxs[o], kernel, l, kernel', l');
      }
    }
    forall o | o in kernel' ensures o < |ctxs| {
      if o != fd {
        assert o in kernel' - {fd};
      }
    }
  }

  lemma GrowAgrees(ctxs: seq<FdContext>, more: nat, kernel: map<nat, set<Event>>, l: Ledger)
    requires Agree(ctxs, kernel, l)
    ensures Agree(ctxs + seq(more, _ => NEW_CONTEXT), kernel, l)
  {
    var grown := ctxs + seq(more, _ => NEW_CONTEXT);
    forall fd | 0 <= fd < |grown| ensures FdAgrees(fd, grown[fd], kernel, l) {
      if fd >= |ctxs| {
        assert grown[fd] == NEW_CONTEXT;
        assert (fd, READ).0 == fd && (fd, WRITE).0 == fd;
      }
    }
  }

  /** std::vector::resize with new contexts. */
  function Resized(ctxs: seq<FdContext>, size: nat): seq<FdContext> {
    if size < |ctxs| then ctxs[..size] else ctxs + seq(size - |ctxs|, _ => NEW_CONTEXT)
  }

  lemma ShrinkAgrees(ctxs: seq<FdContext>, size: nat, kernel: map<nat, set<Event>>, l: Ledger)
    requires Agree(ctxs, kernel, l) && size < |ctxs|
    ensures Agree(ctxs[..size], kernel, l) <==> size >= 32 && forall fd :: size <= fd < |ctxs| ==> ctxs[fd].events == {}
  {
    var cut := ctxs[..size];
    forall fd | 0 <= fd < |ctxs| ensures FdAgrees(fd, ctxs[fd], kernel, l) {
    }
    if size >= 32 && forall fd :: size <= fd < |ctxs| ==> ctxs[fd].events == {} {
      forall fd | fd in kernel ensures fd < size {
        assert KernelAgrees(fd, ctxs[fd], kernel);
      }
      forall k | k in l.tickets ensures k.0 < size {
        assert FdAgrees(k.0, ctxs[k.0], kernel, l);
        assert SlotAgrees(k.0, k.1, ctxs[k.0], l);
      }
    } else if size >= 32 {
      var fd :| size <= fd < |ctxs| && ctxs[fd].events != {};
      assert KernelAgrees(fd, ctxs[fd], kernel);
      assert fd in kernel;
    }
  }

  /** The invariant of IOManager. */
  ghost predicate Sound(ctxs: seq<FdContext>, kernel: map<nat, set<Event>>, pending: int, scheduled: seq<Waiter>, l: Ledger) {
    Agree(ctxs, kernel, l) && l.Reachable() && pending == |l.tickets| && scheduled == Queued(l.exits)
  }

  /** When no event is pending, epoll watches nothing, no slot is in use and every waiter has left. */
  lemma NobodyWaits(ctxs: seq<FdContext>, kernel: map<nat, set<Event>>, pending: int, scheduled: seq<Waiter>, l: Ledger)
    requires Sound(ctxs, kernel, pending, scheduled, l)
    ensures l.ExactlyOnce()
    ensures pending == 0 <==> kernel == map[]
    ensures pending == 0 <==> forall fd :: 0 <= fd < |ctxs| ==> ctxs[fd] == NEW_CONTEXT
    ensures pending == 0 <==> |l.exits| == |l.issued|
    ensures pending == 0 ==> forall t :: 0 <= t < |l.issued| ==> l.Left(t)
  {
    var moves :| Replay(moves) == Some(l);
    EveryWaiterLeavesOnce(moves);
    if pending == 0 {
      assert l.tickets == map[];
      forall fd | 0 <= fd < |ctxs| ensures ctxs[fd] == NEW_CONTEXT && fd !in kernel {
        assert FdAgrees(fd, ctxs[fd], kernel, l);
        EventsAre(ctxs[fd].events);
      }
    } else {
      var k :| k in l.tickets;
      assert FdAgrees(k.0, ctxs[k.0], kernel, l);
      assert SlotAgrees(k.0, k.1, ctxs[k.0], l);
    }
  }

  datatype AddResult = Added | EpollFailed | AssertionFailed

  /** What became of one report: nothing, its waiters woken, or a failed assertion. */
  datatype Outcome = Ignored | Woken | Aborted

  /**
   * One epoll_event: the tickle pipe, or a descriptor with its readiness bits and whether
   * EPOLLERR or EPOLLHUP is among them. `fault` is whether the epoll_ctl that answers it fails.
   */
  datatype Report = Tickle | Ready(fd: nat, ready: set<Event>, broken: bool, fault: bool)

  /** Broken descriptors count as readable and writable. */
  function RealEvents(r: Report): set<Event>
    requires r.Ready?
  {
    if r.broken then {READ, WRITE} else r.ready
  }

  /** The report aborts the process iff some but not all of its events are registered. */
  ghost function OutcomeOf(l: Ledger, r: Report): Outcome {
    if r.Tickle? || l.Watched(r.fd) * RealEvents(r) == {} || r.fault then Ignored
    else if RealEvents(r) <= l.Watched(r.fd) then Woken
    else Aborted
  }

  ghost function Answered(l: Ledger, r: Report): Ledger {
    if OutcomeOf(l, r) == Woken then l.Wake(r.fd, RealEvents(r)) else l
  }

  ghost function AnsweredAll(l: Ledger, rs: seq<Report>): Ledger
    decreases |rs|
  {
    if rs == [] then l else AnsweredAll(Answered(l, rs[0]), rs[1..])
  }

  /** No report aborts the process when its turn comes. */
  ghost predicate Survives(l: Ledger, rs: seq<Report>)
    decreases |rs|
  {
    rs == [] || (OutcomeOf(l, rs[0]) != Aborted && Survives(Answered(l, rs[0]), rs[1..]))
  }

  /** Whether the report names the event: by its bit, or as EPOLLERR and EPOLLHUP name both. */
  predicate Names(r: Report, ev: Event)
    requires r.Ready?
  {
    r.broken || ev in r.ready
  }

  /** Some report of `rs`, of those that epoll_ctl lets through, names the event. */
  ghost predicate NamedBy(rs: seq<Report>, k: Key) {
    exists i :: 0 <= i < |rs| && rs[i].Ready? && !rs[i].fault && rs[i].fd == k.0 && Names(rs[i], k.1)
  }

  /** The waiters of those of the events `evs` of `fd` that are registered, READ first. */
  function WaitersOf(l: Ledger, fd: nat, evs: set<Event>): seq<Waiter> {
    WaiterFor(l, (fd, READ), READ in evs) + WaiterFor(l, (fd, WRITE), WRITE in evs)
  }

  function WaiterFor(l: Ledger, k: Key, wanted: bool): seq<Waiter> {
    if wanted && k in l.tickets && l.tickets[k] < |l.issued| then [l.issued[l.tickets[k]]] else []
  }

  /** The tickets are valid. */
  ghost predicate Issued(l: Ledger) {
    forall k :: k in l.tickets ==> l.tickets[k] < |l.issued|
  }

  lemma SoundIssued(ctxs: seq<FdContext>, kernel: map<nat, set<Event>>, pending: int, scheduled: seq<Waiter>, l: Ledger)
    requires Sound(ctxs, kernel, pending, scheduled, l)
    ensures Issued(l)
  {
    var moves :| Replay(moves) == Some(l);
    EveryWaiterLeavesOnce(moves);
  }

  /** What leaves when one key is dropped. */
  lemma DropIs(l: Ledger, k: Key, queued: bool)
    requires Issued(l)
    ensures l.Drop(k, queued).tickets == l.tickets - {k} && l.Drop(k, queued).issued == l.issued && Issued(l.Drop(k, queued))
    ensures Queued(l.Drop(k, queued).exits) == Queued(l.exits) + WaiterFor(l, k, queued)
  {
    if k in l.tickets {
      assert l.Drop(k, queued).exits[..|l.exits|] == l.exits;
    } else {
      assert l.tickets - {k} == l.tickets;
    }
  }

  lemma WakeIsDrops(l: Ledger, fd: nat, evs: set<Event>) returns (m: Ledger)
    requires Issued(l)
    ensures m == (if READ in evs then l.Drop((fd, READ), true) else l) && Issued(m)
    ensures l.Wake(fd, evs) == if WRITE in evs then m.Drop((fd, WRITE), true) else m
    ensures m.tickets == (if READ in evs then l.tickets - {(fd, READ)} else l.tickets) && m.issued == l.issued
    ensures Queued(m.exits) == Queued(l.exits) + WaiterFor(l, (fd, READ), READ in evs)
  {
    DropIs(l, (fd, READ), true);
    m := if READ in evs then l.Drop((fd, READ), true) else l;
    assert Queued(l.exits) + [] == Queued(l.exits);
  }

  /** What leaves when events are triggered: exactly those named. */
  lemma WakeTickets(l: Ledger, fd: nat, evs: set<Event>)
    requires Issued(l)
    ensures forall k: Key :: k in l.Wake(fd, evs).tickets <==> k in l.tickets && !(k.0 == fd && k.1 in evs)
    ensures Issued(l.Wake(fd, evs))
  {
    var m := WakeIsDrops(l, fd, evs);
    DropIs(m, (fd, WRITE), true);
    forall k: Key ensures k in l.Wake(fd, evs).tickets <==> k in l.tickets && !(k.0 == fd && k.1 in evs) {
      assert k.1 == READ || k.1 == WRITE;
      assert k.0 == fd ==> k == (fd, k.1);
    }
  }

  /** Their waiters are queued, READ first. */
  lemma WakeIs(l: Ledger, fd: nat, evs: set<Event>)
    requires Issued(l)
    ensures forall k: Key :: k in l.Wake(fd, evs).tickets <==> k in l.tickets && !(k.0 == fd && k.1 in evs)
    ensures Queued(l.Wake(fd, evs).exits) == Queued(l.exits) + WaitersOf(l, fd, evs)
    ensures Issued(l.Wake(fd, evs))
  {
    WakeTickets(l, fd, evs);
    var m := WakeIsDrops(l, fd, evs);
    WakeSecond(l, fd, m, WRITE in evs);
    WakeQueue(Queued(l.exits), WaiterFor(l, (fd, READ), READ in evs), WaiterFor(l, (fd, WRITE), WRITE in evs));
  }

  lemma WakeSecond(l: Ledger, fd: nat, m: Ledger, wanted: bool)
    requires Issued(m) && m.issued == l.issued && (m.tickets == l.tickets || m.tickets == l.tickets - {(fd, READ)})
    ensures Queued((if wanted then m.Drop((fd, WRITE), true) else m).exits) == Queued(m.exits) + WaiterFor(l, (fd, WRITE), wanted)
  {
    DropIs(m, (fd, WRITE), true);
    assert (fd, WRITE) in m.tickets <==> (fd, WRITE) in l.tickets;
    assert Queued(m.exits) + [] == Queued(m.exits);
  }

  /** Waking both events of a descriptor wakes those that are registered. */
  lemma WakeAllIs(l: Ledger, fd: nat, evs: set<Event>)
    requires Issued(l) && evs == l.Watched(fd)
    ensures l.Wake(fd, {READ, WRITE}) == l.Wake(fd, evs)
    ensures l.Wake(fd, evs).Watched(fd) == {}
    ensures forall k: Key :: k in l.Wake(fd, evs).tickets <==> k in l.tickets && k.0 != fd
    ensures Queued(l.Wake(fd, evs).exits) == Queued(l.exits) + WaitersOf(l, fd, {READ, WRITE})
  {
    WakeIs(l, fd, {READ, WRITE});
    WakeIs(l, fd, evs);
    forall k: Key ensures k in l.Wake(fd, evs).tickets <==> k in l.tickets && k.0 != fd {
      assert k.1 == READ || k.1 == WRITE;
    }
  }

  lemma WakeQueue(q: seq<Waiter>, a: seq<Waiter>, b: seq<Waiter>)
    ensures q + a + b == q + (a + b) && q + a + [] == q + a
  {
  }

  /**
   * What one report does, by the events it names: when all of them are registered they all
   * leave and their waiters are queued; when none is, or epoll_ctl fails, nothing happens; when
   * only some are, the process aborts.
   */
  lemma AnsweredIs(l: Ledger, r: Report)
    requires Issued(l) && r.Ready?
    ensures OutcomeOf(l, r) == Ignored <==> r.fault || forall ev :: Names(r, ev) ==> (r.fd, ev) !in l.tickets
    ensures OutcomeOf(l, r) == Woken <==>
              !r.fault && (exists ev :: Names(r, ev)) && forall ev :: Names(r, ev) ==> (r.fd, ev) in l.tickets
    ensures OutcomeOf(l, r) != Woken ==> Answered(l, r) == l
    ensures OutcomeOf(l, r) != Aborted ==>
              forall k: Key :: k in Answered(l, r).tickets <==> k in l.tickets && !(!r.fault && k.0 == r.fd && Names(r, k.1))
    ensures OutcomeOf(l, r) == Woken ==>
              Queued(Answered(l, r).exits) == Queued(l.exits) + WaitersOf(l, r.fd, if r.broken then {READ, WRITE} else r.ready)
    ensures Issued(Answered(l, r))
  {
    var evs := RealEvents(r);
    NamesAre(r);
    WakeIs(l, r.fd, evs);
    forall ev ensures Names(r, ev) && (r.fd, ev) in l.tickets <==> ev in l.Watched(r.fd) * evs {
      assert ev == READ || ev == WRITE;
    }
  }

  lemma NamesAre(r: Report)
    requires r.Ready?
    ensures forall ev :: Names(r, ev) <==> ev in RealEvents(r)
  {
    forall ev ensures Names(r, ev) <==> ev in RealEvents(r) {
      assert ev == READ || ev == WRITE;
    }
  }

  /** After all reports, exactly the events that some of them named are gone, whatever the order. */
  lemma {:induction false} AllAnswered(l: Ledger, rs: seq<Report>)
    requires Issued(l) && Survives(l, rs)
    ensures forall k: Key :: k in AnsweredAll(l, rs).tickets <==> k in l.tickets && !NamedBy(rs, k)
    decreases |rs|
  {
    if rs != [] {
      if rs[0].Ready? {
        AnsweredIs(l, rs[0]);
      }
      AllAnswered(Answered(l, rs[0]), rs[1..]);
      forall k: Key ensures NamedBy(rs, k) <==> NamedBy(rs[..1], k) || NamedBy(rs[1..], k) {
        NamedByEither(rs, k);
      }
      forall k: Key ensures NamedBy(rs[..1], k) <==> rs[0].Ready? && !rs[0].fault && rs[0].fd == k.0 && Names(rs[0], k.1) {
        if rs[0].Ready? && !rs[0].fault && rs[0].fd == k.0 && Names(rs[0], k.1) {
          assert rs[..1][0] == rs[0];
        }
      }
    }
  }

  lemma NamedByEither(rs: seq<Report>, k: Key)
    requires rs != []
    ensures NamedBy(rs, k) <==> NamedBy(rs[..1], k) || NamedBy(rs[1..], k)
  {
    if NamedBy(rs, k) {
      var i :| 0 <= i < |rs| && rs[i].Ready? && !rs[i].fault && rs[i].fd == k.0 && Names(rs[i], k.1);
      assert i == 0 ==> rs[..1][0] == rs[i];
      assert i > 0 ==> rs[1..][i - 1] == rs[i];
    }
    if NamedBy(rs[1..], k) {
      var i :| 0 <= i < |rs[1..]| && rs[1..][i].Ready? && !rs[1..][i].fault && rs[1..][i].fd == k.0 && Names(rs[1..][i], k.1);
      assert rs[i + 1] == rs[1..][i];
    }
  }

  /** What epoll watches once the events `evs` of `fd` are taken away. */
  ghost function Unwatch(kernel: map<nat, set<Event>>, fd: nat, evs: set<Event>): map<nat, set<Event>>
    requires fd in kernel
  {
    if kernel[fd] - evs == {} then kernel - {fd} else kernel[fd := kernel[fd] - evs]
  }

  class IOManager {
    var fdContexts: seq<FdContext>
    var pendingEventCount: int
    var kernel: map<nat, set<Event>>      // what epoll watches
    var scheduled: seq<Waiter>            // what the triggers have handed to the scheduler

    ghost var ledger: Ledger              // the table seen as a map, with its history

    ghost predicate Valid()
      reads this
    {
      Sound(fdContexts, kernel, pendingEventCount, scheduled, ledger)
    }

    constructor ()
      ensures Valid() && ledger == EMPTY
    {
      fdContexts := seq(32, _ => NEW_CONTEXT);
      pendingEventCount := 0;
      kernel := map[];
      scheduled := [];
      ledger := EMPTY;
      new;
      assert Replay([]) == Some(EMPTY);
    }

    /** The operation is one epoll accepts for this descriptor. */
    ghost predicate Legal(op: EpollOp, fd: nat)
      reads `kernel
    {
      if op == ADD then fd !in kernel else fd in kernel
    }

    /** epoll_ctl, which fails when `fault` says so and then changes nothing. */
    method EpollCtl(op: EpollOp, fd: nat, events: set<Event>, fault: bool) returns (rt: int)
      requires Legal(op, fd)
      modifies `kernel
      ensures rt == if fault then -1 else 0
      ensures kernel == if fault then old(kernel) else if op == DEL then old(kernel) - {fd} else old(kernel)[fd := events]
    {
      if fault {
        return -1;
      }
      if op == DEL {
        kernel := kernel - {fd};
      } else {
        kernel := kernel[fd := events];
      }
      rt := 0;
    }

    /** Resizes the table: growing keeps it sound, shrinking only when no context in use is cut off. */
    method ContextResize(size: nat)
      requires Valid()
      modifies `fdContexts
      ensures fdContexts == Resized(old(fdContexts), size)
      ensures |fdContexts| == size
      ensures forall fd :: 0 <= fd < size ==> fdContexts[fd] == if fd < old(|fdContexts|) then old(fdContexts)[fd] else NEW_CONTEXT
      ensures size >= old(|fdContexts|) ==> Valid()
      ensures size < old(|fdContexts|) ==>
                (Valid() <==> size >= 32 && forall fd :: size <= fd < old(|fdContexts|) ==> old(fdContexts)[fd].events == {})
    {
      if size < |fdContexts| {
        ShrinkAgrees(fdContexts, size, kernel, ledger);
        fdContexts := fdContexts[..size];
      } else {
        GrowAgrees(fdContexts, size - |fdContexts|, kernel, ledger);
        fdContexts := fdContexts + seq(size - |fdContexts|, _ => NEW_CONTEXT);
      }
    }

    /** The context of `fd`, after growing the table if it is too short. */
    method Lookup(fd: nat) returns (c: FdContext)
      requires Valid()
      modifies `fdContexts
      ensures Valid() && fd < |fdContexts| && c == fdContexts[fd] && FdAgrees(fd, c, kernel, ledger)
      ensures |fdContexts| == if fd < old(|fdContexts|) then old(|fdContexts|) else fd * 3 / 2
    {
      if fd >= |fdContexts| {
        ContextResize(fd * 3 / 2);
      }
      c := fdContexts[fd];
    }

    /** IOManager::addEvent; lookup and growth are one step. `self` is the calling fiber. */
    method AddEvent(fd: nat, ev: Event, cb: Option<nat>, self: nat, fault: bool) returns (r: AddResult)
      requires Valid()
      modifies this
      ensures Valid()
      ensures r == if (fd, ev) in old(ledger).tickets then AssertionFailed else if fault then EpollFailed else Added
      ensures ledger == if r == Added then old(ledger).Enter((fd, ev), if cb.Some? then CallbackWaiter(cb.value) else FiberWaiter(self))
                        else old(ledger)
      ensures r == Added ==>
                && ledger.tickets == old(ledger).tickets[(fd, ev) := |old(ledger).issued|]
                && ledger.issued == old(ledger).issued + [if cb.Some? then CallbackWaiter(cb.value) else FiberWaiter(self)]
      ensures scheduled == old(scheduled)
      ensures |fdContexts| == if fd < old(|fdContexts|) then old(|fdContexts|) else fd * 3 / 2
    {
      var c := Lookup(fd);
      if ev in c.events {
        return AssertionFailed;
      }
      var op := if c.events != {} then MOD else ADD;
      ghost var watched := kernel;
      var rt := EpollCtl(op, fd, c.events + {ev}, fault);
      if rt != 0 {
        return EpollFailed;
      }
      Store(fd, ev, cb, self, watched);
      r := Added;
    }

    /** The rest of addEvent, once epoll watches the event. */
    method Store(fd: nat, ev: Event, cb: Option<nat>, self: nat, ghost watched: map<nat, set<Event>>)
      requires Sound(fdContexts, watched, pendingEventCount, scheduled, ledger)
      requires fd < |fdContexts| && ev !in fdContexts[fd].events
      requires kernel == watched[fd := fdContexts[fd].events + {ev}]
      modifies `pendingEventCount, `ledger, `fdContexts
      ensures Valid() && |fdContexts| == old(|fdContexts|)
      ensures GetContext(fdContexts[fd], ev) == Slot(true, if cb.Some? then None else Some(self), cb)
      ensures ledger == old(ledger).Enter((fd, ev), if cb.Some? then CallbackWaiter(cb.value) else FiberWaiter(self))
    {
      var c := fdContexts[fd];
      pendingEventCount := pendingEventCount + 1;
      assert FdAgrees(fd, c, watched, ledger);
      assert GetContext(c, ev) == BLANK;  // the assertion on the empty slot never fails
      var slot := if cb.Some? then BLANK.(scheduler := true, cb := cb) else BLANK.(scheduler := true, fiber := Some(self));
      EnterReachable(ledger, (fd, ev), WaiterOf(slot));
      EnterAgrees(fdContexts, fd, ev, slot, watched, kernel, ledger);
      ledger := ledger.Enter((fd, ev), WaiterOf(slot));
      fdContexts := fdContexts[fd := SetContext(c.(events := c.events + {ev}), ev, slot)];
    }

    /**
     * FdContext::triggerEvent: the waiter moves from its slot to the scheduler. The caller has
     * told epoll already; `watched` is what epoll would watch had it not, and the pending count
     * is one too high until the caller lowers it.
     */
    method TriggerEvent(fd: nat, ev: Event, ghost watched: map<nat, set<Event>>)
      requires Sound(fdContexts, watched, pendingEventCount, scheduled, ledger)
      requires fd < |fdContexts| && ev in fdContexts[fd].events
      modifies `fdContexts, `scheduled, `ledger
      ensures fd in watched && (fd, ev) in old(ledger).tickets
      ensures ledger == old(ledger).Drop((fd, ev), true)
      ensures Sound(fdContexts, Unwatch(watched, fd, {ev}), pendingEventCount - 1, scheduled, ledger)
      ensures |fdContexts| == old(|fdContexts|) && fdContexts[fd].events == old(fdContexts[fd].events) - {ev}
    {
      var c := fdContexts[fd];
      assert FdAgrees(fd, c, watched, ledger);
      LeaveSound(fdContexts, fd, ev, watched, pendingEventCount, scheduled, ledger, true);
      c := c.(events := c.events - {ev});
      var ctx := GetContext(c, ev);
      assert ctx.scheduler;  // the pointer through which the waiter is scheduled
      if ctx.cb.Some? {
        scheduled := scheduled + [CallbackWaiter(ctx.cb.value)];
        ctx := ctx.(cb := None);
      } else {
        scheduled := scheduled + [FiberWaiter(ctx.fiber.value)];
        ctx := ctx.(fiber := None);
      }
      ctx := ctx.(scheduler := false);
      fdContexts := fdContexts[fd := SetContext(c, ev, ctx)];
      ledger := ledger.Leave((fd, ev), true);
    }

    /** Triggers the events `evs`, READ first, after epoll has been told to stop watching them. */
    method TriggerEach(fd: nat, evs: set<Event>, ghost watched: map<nat, set<Event>>)
      requires Sound(fdContexts, watched, pendingEventCount, scheduled, ledger)
      requires fd < |fdContexts| && {} != evs <= fdContexts[fd].events
      requires fd in watched && kernel == Unwatch(watched, fd, evs)
      modifies `fdContexts, `scheduled, `ledger, `pendingEventCount
      ensures Valid() && ledger == old(ledger).Wake(fd, evs)
      ensures |fdContexts| == old(|fdContexts|)
    {
      ghost var w := watched;
      assert FdAgrees(fd, fdContexts[fd], watched, ledger);
      if READ in evs {
        TriggerEvent(fd, READ, w);
        pendingEventCount := pendingEventCount - 1;
        w := Unwatch(w, fd, {READ});
      }
      if WRITE in evs {
        TriggerEvent(fd, WRITE, w);
        pendingEventCount := pendingEventCount - 1;
        w := Unwatch(w, fd, {WRITE});
      }
      UnwatchTwice(watched, fd, evs);
    }

    /** Tells epoll to stop watching some of the registered events of a descriptor. */
    method Forget(fd: nat, evs: set<Event>, fault: bool) returns (rt: int)
      requires Valid()
      requires fd < |fdContexts| && fdContexts[fd].events * evs != {}
      modifies `kernel
      ensures rt == if fault then -1 else 0
      ensures fd in old(kernel) && old(kernel)[fd] == fdContexts[fd].events
      ensures kernel == if fault then old(kernel) else Unwatch(old(kernel), fd, evs)
    {
      assert FdAgrees(fd, fdContexts[fd], kernel, ledger);
      var left := fdContexts[fd].events - evs;
      var op := if left != {} then MOD else DEL;
      rt := EpollCtl(op, fd, left, fault);
    }

    /** IOManager::delEvent: the waiter is dropped, not queued. */
    method DelEvent(fd: nat, ev: Event, fault: bool) returns (ok: bool)
      requires Valid()
      modifies this
      ensures Valid()
      ensures ok <==> (fd, ev) in old(ledger).tickets && !fault
      ensures ledger == if ok then old(ledger).Drop((fd, ev), false) else old(ledger)
      ensures ok ==> ledger.tickets == old(ledger).tickets - {(fd, ev)}
      ensures scheduled == old(scheduled)
    {
      SoundIssued(fdContexts, kernel, pendingEventCount, scheduled, ledger);
      DropIs(ledger, (fd, ev), false);
      Registered(fdContexts, kernel, pendingEventCount, scheduled, ledger, fd, ev);
      if fd >= |fdContexts| {
        return false;
      }
      var c := fdContexts[fd];
      if ev !in c.events {
        return false;
      }
      assert ev in c.events * {ev};
      LeaveSound(fdContexts, fd, ev, kernel, pendingEventCount, scheduled, ledger, false);
      var rt := Forget(fd, {ev}, fault);
      if rt != 0 {
        return false;
      }
      pendingEventCount := pendingEventCount - 1;
      c := c.(events := c.events - {ev});
      fdContexts := fdContexts[fd := SetContext(c, ev, BLANK)];
      assert scheduled + [] == scheduled;
      ledger := ledger.Leave((fd, ev), false);
      ok := true;
    }

    /** IOManager::cancelEvent: the waiter is queued. */
    method CancelEvent(fd: nat, ev: Event, fault: bool) returns (ok: bool)
      requires Valid()
      modifies this
      ensures Valid()
      ensures ok <==> (fd, ev) in old(ledger).tickets && !fault
      ensures ledger == if ok then old(ledger).Drop((fd, ev), true) else old(ledger)
      ensures ok ==> ledger.tickets == old(ledger).tickets - {(fd, ev)}
      ensures scheduled == if ok then old(scheduled) + WaiterFor(old(ledger), (fd, ev), true) else old(scheduled)
    {
      SoundIssued(fdContexts, kernel, pendingEventCount, scheduled, ledger);
      ghost var before := ledger;
      Registered(fdContexts, kernel, pendingEventCount, scheduled, ledger, fd, ev);
      if fd >= |fdContexts| {
        return false;
      }
      if ev !in fdContexts[fd].events {
        return false;
      }
      assert ev in fdContexts[fd].events * {ev};
      ghost var watched := kernel;
      var rt := Forget(fd, {ev}, fault);
      if rt != 0 {
        return false;
      }
      TriggerEvent(fd, ev, watched);
      DropIs(before, (fd, ev), true);
      pendingEventCount := pendingEventCount - 1;
      ok := true;
    }

    /** IOManager::cancelAll: both waiters are queued. */
    method CancelAll(fd: nat, fault: bool) returns (ok: bool)
      requires Valid()
      modifies this
      ensures Valid()
      ensures ok <==> old(ledger).Watched(fd) != {} && !fault
      ensures ledger == if ok then old(ledger).Wake(fd, {READ, WRITE}) else old(ledger)
      ensures ok ==> ledger.Watched(fd) == {}
      ensures ok ==> forall k: Key :: k in ledger.tickets <==> k in old(ledger).tickets && k.0 != fd
      ensures scheduled == if ok then old(scheduled) + WaitersOf(old(ledger), fd, {READ, WRITE}) else old(scheduled)
    {
      SoundIssued(fdContexts, kernel, pendingEventCount, scheduled, ledger);
      ghost var before := ledger;
      if fd >= |fdContexts| {
        return false;
      }
      var c := fdContexts[fd];
      WatchedIsEvents(fdContexts, fd, kernel, ledger);
      if c.events == {} {
        return false;
      }
      ghost var watched := kernel;
      var rt := Forget(fd, c.events, fault);
      if rt != 0 {
        return false;
      }
      TriggerEach(fd, c.events, watched);
      WakeAllIs(before, fd, c.events);
      ok := true;
    }

    /** Stops watching `evs`, some of which are registered, and triggers them all. */
    method Fire(fd: nat, evs: set<Event>, fault: bool) returns (o: Outcome)
      requires Valid()
      requires fd < |fdContexts| && fdContexts[fd].events * evs != {}
      modifies this
      ensures o == if fault then Ignored else if evs <= old(fdContexts)[fd].events then Woken else Aborted
      ensures o == Ignored ==>
                && Valid() && fdContexts == old(fdContexts) && kernel == old(kernel) && pendingEventCount == old(pendingEventCount)
                && scheduled == old(scheduled) && ledger == old(ledger)
      ensures o == Woken ==> Valid() && ledger == old(ledger).Wake(fd, evs)
      ensures |fdContexts| == old(|fdContexts|)
    {
      ghost var watched := kernel;
      var rt := Forget(fd, evs, fault);
      if rt != 0 {
        return Ignored;
      }
      if !(evs <= fdContexts[fd].events) {
        return Aborted;  // triggerEvent asserts that the bit is set
      }
      TriggerEach(fd, evs, watched);
      o := Woken;
    }

    /** One round of the loop in idle, for one report. */
    method Deliver(r: Report) returns (o: Outcome)
      requires Valid() && (r.Ready? ==> r.fd < |fdContexts|)
      modifies this
      ensures o == OutcomeOf(old(ledger), r)
      ensures o != Aborted ==> Valid() && ledger == Answered(old(ledger), r)
      ensures |fdContexts| == old(|fdContexts|)
      ensures r.Ready? && !r.fault && (exists ev :: Names(r, ev)) && (forall ev :: Names(r, ev) ==> (r.fd, ev) in old(ledger).tickets) ==>
                && o == Woken
                && (forall k: Key :: k in ledger.tickets <==> k in old(ledger).tickets && !(k.0 == r.fd && Names(r, k.1)))
                && scheduled == old(scheduled) + WaitersOf(old(ledger), r.fd, if r.broken then {READ, WRITE} else r.ready)
      ensures r.Ready? && (r.fault || forall ev :: Names(r, ev) ==> (r.fd, ev) !in old(ledger).tickets) ==> o == Ignored
      ensures o == Ignored ==>
                && fdContexts == old(fdContexts) && kernel == old(kernel) && pendingEventCount == old(pendingEventCount)
                && scheduled == old(scheduled) && ledger == old(ledger)
    {
      if r.Tickle? {
        return Ignored;
      }
      SoundIssued(fdContexts, kernel, pendingEventCount, scheduled, ledger);
      AnsweredIs(ledger, r);
      var events := fdContexts[r.fd].events;
      WatchedIsEvents(fdContexts, r.fd, kernel, ledger);
      var evs := RealEvents(r);
      if events * evs == {} {
        return Ignored;
      }
      o := Fire(r.fd, evs, r.fault);
    }

    /** The loop in idle over all reports of one epoll_wait, up to a failed assertion. */
    method Idle(rs: seq<Report>) returns (ok: bool)
      requires Valid()
      requires forall i :: 0 <= i < |rs| && rs[i].Ready? ==> rs[i].fd < |fdContexts|
      modifies this
      ensures ok <==> Survives(old(ledger), rs)
      ensures ok ==> Valid() && ledger == AnsweredAll(old(ledger), rs)
      ensures ok ==> forall k: Key :: k in ledger.tickets <==> k in old(ledger).tickets && !NamedBy(rs, k)
    {
      var i := 0;
      SoundIssued(fdContexts, kernel, pendingEventCount, scheduled, ledger);
      ghost var before := ledger;
      while i < |rs|
        invariant i <= |rs| && Valid() && |fdContexts| == old(|fdContexts|)
        invariant Survives(ledger, rs[i..]) <==> Survives(old(ledger), rs)
        invariant AnsweredAll(ledger, rs[i..]) == AnsweredAll(old(ledger), rs)
      {
        assert rs[i..][0] == rs[i] && rs[i..][1..] == rs[i + 1..];
        var o := Deliver(rs[i]);
        if o == Aborted {
          return false;
        }
        i := i + 1;
      }
      AllAnswered(before, rs);
      ok := true;
    }
  }

  lemma EnterAgrees(ctxs: seq<FdContext>, fd: nat, ev: Event, slot: Slot, kernel: map<nat, set<Event>>, kernel': map<nat, set<Event>>, l: Ledger)
    requires Agree(ctxs, kernel, l) && fd < |ctxs| && ev !in ctxs[fd].events && Occupied(slot)
    requires kernel' == kernel[fd := ctxs[fd].events + {ev}]
    ensures Agree(ctxs[fd := SetContext(ctxs[fd].(events := ctxs[fd].events + {ev}), ev, slot)], kernel', l.Enter((fd, ev), WaiterOf(slot)))
  {
    var c := SetContext(ctxs[fd].(events := ctxs[fd].events + {ev}), ev, slot);
    var l' := l.Enter((fd, ev), WaiterOf(slot));
    assert FdAgrees(fd, ctxs[fd], kernel, l);
    assert kernel - {fd} == kernel' - {fd};
    assert Elsewhere(fd, kernel, l, kernel', l');
    assert SlotAgrees(fd, READ, c, l') && SlotAgrees(fd, WRITE, c, l');
    UpdateAgrees(ctxs, fd, c, kernel, l, kernel', l');
  }

  lemma LeaveAgrees(ctxs: seq<FdContext>, fd: nat, ev: Event, kernel: map<nat, set<Event>>, l: Ledger, queued: bool)
    requires Agree(ctxs, kernel, l) && fd < |ctxs| && ev in ctxs[fd].events
    ensures fd in kernel && (fd, ev) in l.tickets && l.tickets[(fd, ev)] < |l.issued|
    ensures Agree(ctxs[fd := SetContext(ctxs[fd].(events := ctxs[fd].events - {ev}), ev, BLANK)],
                  Unwatch(kernel, fd, {ev}), l.Leave((fd, ev), queued))
  {
    var c := SetContext(ctxs[fd].(events := ctxs[fd].events - {ev}), ev, BLANK);
    assert FdAgrees(fd, ctxs[fd], kernel, l);
    var l' := l.Leave((fd, ev), queued);
    var kernel' := Unwatch(kernel, fd, {ev});
    assert kernel - {fd} == kernel' - {fd};
    assert Elsewhere(fd, kernel, l, kernel', l');
    assert SlotAgrees(fd, READ, c, l') && SlotAgrees(fd, WRITE, c, l');
    UpdateAgrees(ctxs, fd, c, kernel, l, kernel', l');
  }

  lemma EventsAre(evs: set<Event>)
    ensures evs <= {READ, WRITE}
  {
    forall ev | ev in evs ensures ev in {READ, WRITE} {
      assert ev.READ? || ev.WRITE?;
    }
  }

  lemma UnwatchTwice(kernel: map<nat, set<Event>>, fd: nat, evs: set<Event>)
    requires fd in kernel && {} != evs <= kernel[fd]
    ensures READ !in evs ==> evs == {WRITE}
    ensures WRITE !in evs ==> evs == {READ}
    ensures READ in evs && WRITE in evs ==>
              evs == {READ, WRITE} && fd in Unwatch(kernel, fd, {READ}) &&
              Unwatch(Unwatch(kernel, fd, {READ}), fd, {WRITE}) == Unwatch(kernel, fd, evs)
  {
    EventsAre(evs);
    if READ in evs && WRITE in evs {
      assert WRITE in kernel[fd] - {READ};
      assert kernel[fd] - {READ} - {WRITE} == kernel[fd] - evs;
    }
  }

  lemma WatchedIsEvents(ctxs: seq<FdContext>, fd: nat, kernel: map<nat, set<Event>>, l: Ledger)
    requires Agree(ctxs, kernel, l) && fd < |ctxs|
    ensures l.Watched(fd) == ctxs[fd].events
  {
    assert FdAgrees(fd, ctxs[fd], kernel, l);
    EventsAre(ctxs[fd].events);
  }

  /** The event is registered in the table exactly when somebody waits for it. */
  lemma Registered(ctxs: seq<FdContext>, kernel: map<nat, set<Event>>, pending: int, scheduled: seq<Waiter>, l: Ledger, fd: nat, ev: Event)
    requires Sound(ctxs, kernel, pending, scheduled, l)
    ensures fd < |ctxs| && ev in ctxs[fd].events <==> (fd, ev) in l.tickets
  {
    if fd < |ctxs| {
      assert FdAgrees(fd, ctxs[fd], kernel, l);
    }
  }

  lemma LeaveSound(ctxs: seq<FdContext>, fd: nat, ev: Event, kernel: map<nat, set<Event>>, pending: int, scheduled: seq<Waiter>, l: Ledger, queued: bool)
    requires Sound(ctxs, kernel, pending, scheduled, l) && fd < |ctxs| && ev in ctxs[fd].events
    ensures fd in kernel && (fd, ev) in l.tickets && l.tickets[(fd, ev)] < |l.issued|
    ensures Occupied(GetContext(ctxs[fd], ev))
    ensures Sound(ctxs[fd := SetContext(ctxs[fd].(events := ctxs[fd].events - {ev}), ev, BLANK)],
                  Unwatch(kernel, fd, {ev}), pending - 1,
                  scheduled + if queued then [WaiterOf(GetContext(ctxs[fd], ev))] else [],
                  l.Leave((fd, ev), queued))
  {
    assert FdAgrees(fd, ctxs[fd], kernel, l);
    LeaveAgrees(ctxs, fd, ev, kernel, l, queued);
    LeaveReachable(l, (fd, ev), queued);
    assert l.Leave((fd, ev), queued).tickets.Keys == l.tickets.Keys - {(fd, ev)};
    assert l.Leave((fd, ev), queued).exits[..|l.exits|] == l.exits;
  }

  /**
   * A report aborts the process exactly when it names both events, as every EPOLLERR or
   * EPOLLHUP does, while just one of them is registered, and epoll_ctl succeeds.
   */
  lemma AbortsExactly(l: Ledger, r: Report)
    ensures OutcomeOf(l, r) == Aborted <==>
              r.Ready? && !r.fault && RealEvents(r) == {READ, WRITE} &&
              (l.Watched(r.fd) == {READ} || l.Watched(r.fd) == {WRITE})
  {
    if r.Ready? {
      EventsAre(RealEvents(r));
      EventsAre(l.Watched(r.fd));
      if OutcomeOf(l, r) == Aborted {
        var e :| e in l.Watched(r.fd) * RealEvents(r);
        var f :| f in RealEvents(r) && f !in l.Watched(r.fd);
        assert {e, f} == {READ, WRITE};
        assert l.Watched(r.fd) == {e};
      } else if l.Watched(r.fd) == {READ} || l.Watched(r.fd) == {WRITE} {
        var e :| e in l.Watched(r.fd);
        assert RealEvents(r) == {READ, WRITE} ==> e in l.Watched(r.fd) * RealEvents(r);
      }
    }
  }

  /** A peer hangs up on a descriptor with one waiting reader: the process aborts. */
  method HangUp(reader: nat) returns (ok: bool)
    ensures !ok
  {
    var io := new IOManager();
    var r := io.AddEvent(3, READ, None, reader, false);
    assert io.ledger.Watched(3) == {READ} && Agree(io.fdContexts, io.kernel, io.ledger);
    AbortsExactly(io.ledger, Ready(3, {}, true, false));
    ok := io.Idle([Ready(3, {}, true, false)]);
  }

  /**
   * The growth race of addEvent: a thread that saw the table too short for descriptor 40 resizes
   * it to 60 after another thread has grown it and registered a reader on descriptor 100. The
   * reader's context is cut off the table while epoll goes on watching.
   */
  method GrowthRace(reader: nat) returns (io: IOManager)
    ensures fresh(io) && (100, READ) in io.ledger.tickets && 100 in io.kernel && |io.fdContexts| == 60 && !io.Valid()
  {
    io := new IOManager();
    var r := io.AddEvent(100, READ, None, reader, false);
    assert Agree(io.fdContexts, io.kernel, io.ledger);
    WatchedIsEvents(io.fdContexts, 100, io.kernel, io.ledger);
    assert READ in io.ledger.Watched(100);
    assert FdAgrees(100, io.fdContexts[100], io.kernel, io.ledger);
    io.ContextResize(40 * 3 / 2);
  }
}
