# Verified model of the fiber server core

Five parts of the server are modelled in Dafny, each with the properties it exists for:

- **Fiber scheduler and event loop.** Worker threads, fibers, the task queue, pending events and
  timers form one interleaved system (`FiberSystem`) whose labels are the atomic steps of
  `Scheduler::run`, `Fiber` and the hooks. An invariant with three history variables
  (`FiberInvariant`) is kept by every step (`FiberSteps`), and the safety theorems hold in every
  state any run reaches (`FiberSafety`); `FiberWork` says how a worker goes round its loop, what a
  whole turn of it does and when it returns. `EventTable` is the table of `IOManager` against an epoll
  interest set whose every operation may fail; `Scheduler` is the task queue; `Shutdown` ties the
  stopping test to table, timers and queue. `Hook` puts one call of `IOhook` on top of the fiber
  system: the fiber's own acts, its timer's callback and everything else interleave, and share the
  flag `tinfo->cancelled`; `HookRuns` says what each act does to the system and what a call leaves
  behind; `HookCode` is the code of that call, loop by loop.
- **Timer manager.** `Timers` is the ordered set keyed by a field that changes while the timer is
  known; `TimerRuns` and `Deadlines` state what holds over whole histories of calls.
- **ByteArray.** `ByteArray` is the block list with its cursor, proved to be one flat buffer
  (`Blocks`); `Codec` holds byte orders, varints, ZigZag and the wire form of values and `Endians`
  the swaps with their masks and shifts; `WireFormat` spells the bytes out; `TypedIO` is the typed
  reads and writes; `SocketStream` is scatter and gather input and output.
- **URIs.** `Uri` is the parser of uri.rl with its marks and save actions, character by
  character, and the printer; `UriLanguage` proves it to accept exactly the texts of the
  grammar; `UriRoundTrip` and `UriGrammar` are about printing and parsing again, `UriCrash` about
  the texts on which the parser dereferences null; `UriText` lists the characters and the printed
  text.
- **Log patterns.** `LogPattern` is the tokenizer of `LogFormatter::init`.

Classes and loops of the source are classes and loops here, proved against specification functions;
properties over runs are lemmas about those functions. Integers are unbounded and every width,
wrap-around and truncation is written out. I/O, clocks, failures of system calls, contents of
messages and addresses of new objects are parameters.

Where the code does less than its intent, the code is what is modelled. Each such point has a
statement that says exactly when the intended property holds, and an input that breaks it:

- `idle` triggers events that are not registered. A report aborts the process exactly when it
  names both events while one is registered and `epoll_ctl` succeeds (`EventTable.AbortsExactly`);
  a hang-up on a descriptor with one waiting reader does (`EventTable.HangUp`).
- `addEvent` drops its lock before it grows the table, so a late growth can shrink it. A resize
  keeps the table sound exactly when no context in use is cut off
  (`EventTable.IOManager.ContextResize`); `EventTable.GrowthRace` loses a waiting reader.
- `ByteArray::write` leaves the cursor behind when it ends on an interior block boundary, and in no
  other case (`ByteArray.ByteArray.Write`, `SocketStream.InteriorBoundaryWrite`).
- A zero-length read dereferences a null cursor exactly when all blocks are drained, so the typed
  round trip fails exactly for lists whose last value is an empty string ending a block
  (`TypedIO.RoundTrip`), as one empty string in blocks of two bytes is
  (`TypedIO.EmptyTextAtBlockEnd`).
- The positional read gives the bytes asked for, or refuses those beyond the size, exactly when the
  position is within the size and the request goes beyond it, or the cursor is not null and the
  position lies in the current block or nothing is asked for (`ByteArray.PositionalReadExactly`).
  `ByteArray.NeverWritten` returns a byte beyond the size, `ByteArray.DrainedRead` dereferences null.
- A timer refresh moves the deadline forward exactly when `now + ms` does not overflow
  (`TimerRuns.RefreshMovesForwardExactly`, broken in `TimerRuns.OverflowMissesDeadline`). A reading
  is taken for a rollover exactly when it is more than an hour behind the last one, or that one is
  within the first hour, where the unsigned subtraction wraps (`Timers.RolloverExactly`,
  `TimerRuns.FirstHourFiresEarly`).
- The wait that `getNextTimer` returns is all ones exactly when there is no timer, or the front one
  is at the last instant and the time is zero (`Timers.AllOnesExactly`,
  `Shutdown.LastInstantMissed`).
- A hooked call whose timer expires between `addTimer` and `addEvent` waits without a timeout: a
  registered wait can still time out exactly when no callback struck before the registration or
  failed to cancel it (`Hook.TimeoutAheadExactly`); otherwise nothing but its event ends it
  (`Hook.DeafForGood`). `Hook.LostTimeout` is such a run.
- A printed URI comes back exactly when its port is not negative and the first colon of its user
  information is not followed by a digit (`UriRoundTrip.RoundTripExactly`, for all texts that are
  accepted `UriGrammar.ParsePrintParse`; `UriRoundTrip.ColonDigitLost`).
- A text that is not refused makes the parser save from a null mark exactly when its authority
  ends with a colon (`UriCrash.CrashesExactly`, `UriRoundTrip.EmptyPortCrashes`,
  `UriRoundTrip.EmptyPortBeforePathCrashes`).
- The log tokenizer loses text exactly for conversions with empty or unclosed braces
  (`LogPattern.LosslessExactly`, `LogPattern.EmptyBracesLost`, `LogPattern.UnclosedBraceLost`). It
  is lossless for `%%` too, contrary to the comment there that the second percent sign is skipped.
- The fiber scheme is safe when a running fiber hands out at most one wake-up and, with one out,
  neither calls `YieldToReady` nor finishes as a thread's callback fiber. Each of the three
  breaches ends with two threads holding one fiber (`FiberSafety.ArmedTwice`,
  `FiberSafety.ReadyWhileArmed`, `FiberSafety.FinishedWhileArmed`). A plain fiber may finish with
  its wake-up out: the thread that takes it discards it (`FiberSafety.DiscardIsReached`).

`dafny verify dfyconfig.toml` checks everything.

## Model

| member | source | states |
|---|---|---|
| `FiberSafety.RunKeeps` | src/async/scheduler.cpp:139-259 | in every interleaving of take, swap-in, arm, fire, yield and post-swap steps by any number of worker threads the invariant holds: one holder and one wake-up per fiber, program counters agree with fiber states |
| `FiberSteps.StepKeeps` | src/async/scheduler.cpp:153-257 | every single step, of all twenty-two kinds, keeps the invariant |
| `FiberSafety.NoFiberHeldTwice` | src/async/scheduler.cpp:160-214 | no fiber is held, run or kept as callback fiber by two threads in any reachable state, threads that are about to discard a finished fiber aside |
| `FiberSafety.SwapInIsSafe` | src/async/fiber.cpp:100-107 | the assertion `m_state != EXEC` in swapIn always holds and only saved contexts are resumed |
| `FiberSafety.RunningIsExec` | src/async/iomanager.cpp:121-122 | a running fiber is in state EXEC, as addEvent asserts, and its context is not saved anywhere |
| `FiberSafety.CallbackFiberIsFree` | src/async/scheduler.cpp:216-222 | a callback fiber that is reused is blank, so both assertions in Fiber::reset hold, and no queue entry, event or timer can resume it |
| `FiberSafety.FinishedIsFree` | src/async/fiber.cpp:85-97 | a finished callback fiber, which its thread will reset, is in no queue entry, event or timer and with no other thread |
| `FiberSafety.OverForGood` | src/async/scheduler.cpp:242-245 | a finished plain fiber stays finished whatever happens: nobody swaps it in, whoever takes it discards it |
| `FiberSafety.DiscardIsReached` | src/async/scheduler.cpp:242-245 | a disciplined run in which a thread takes a fiber that finished with its wake-up out, and can only discard it |
| `FiberSafety.OneWakeUp` | src/async/hook.cpp:146-161 | a fiber occurs at most once in the queue and the pending events and timers together |
| `FiberSafety.ActiveIsExact` | src/async/scheduler.cpp:182-245 | the active count is the number of threads between take and finish in all branches, the discarding of a finished fiber included, so it never goes below zero |
| `FiberSafety.ReadyIsNotLost` | src/async/scheduler.cpp:202-206 | a READY fiber outside the queue is held by a thread that will run or requeue it |
| `FiberSafety.SkippedIsHeld` | src/async/scheduler.cpp:176-180 | an entry skipped for being EXEC is held by a thread that is about to suspend or fix up that fiber |
| `FiberSafety.WakeUpStays` | src/async/scheduler.cpp:182-188 | a queued fiber stays queued until a thread takes it to run it |
| `FiberSafety.NoWakeUpLost` | src/async/iomanager.cpp:267-278 | a wake-up stays with its event or timer, or in the queue, until a thread takes the fiber or the event is deleted |
| `FiberSafety.PendingStays` | src/async/iomanager.cpp:267-278 | an event or timer keeps its waiter, fiber or callback, until it fires or is deleted; firing appends exactly that task to the queue and removes it, a recurring timer queues its callback and stays |
| `FiberSafety.StoppingMeansQuiet` | src/async/scheduler.cpp:265-268 | when the scheduler may stop, no thread is between take and finish, every context is saved, and READY fibers are with threads that requeue them |
| `Shutdown.TestStopping` | src/async/iomanager.cpp:298-301 | past time zero the answer is true iff auto-stop and stopping are set, no timer is armed, epoll watches nothing and the queue and the active count are empty; then every registration has left the table and every scheduled task was taken |
| `Shutdown.IdleExitsQuiet` | src/async/iomanager.cpp:298-314 | derived from the value of getNextTimer and the pending counter: when idle exits, nothing in the whole system waits for an event or a timer, no thread is busy and every context is saved |
| `Shutdown.ReturnsOnlyWhenQuiet` | src/async/scheduler.cpp:240-257 | over every run: a thread has returned from run, or its idle fiber has ended, only if at some earlier moment stopping had been requested, its stopping test held and nothing at all was left in the system |
| `Shutdown.EventsFollow` | src/async/iomanager.cpp:75-278 | each step of the fiber system keeps its event waiters equal to those of the event table moved alike |
| `Shutdown.QueuedFollow` | src/async/iomanager.cpp:267-278 | an event that fires hands the same waiter to the scheduler in the table and in the fiber system, and nothing else does |
| `Shutdown.TimersFollow` | src/async/timer.cpp:99-187 | each step keeps its timers equal to the armed timers of the manager moved alike |
| `Shutdown.LastInstantMissed` | src/async/timer.cpp:142-156 | at time zero a timer at the last instant is mistaken for none |
| `FiberSafety.ReadyWhileArmed` | src/async/fiber.cpp:157-161 | YieldToReady with a wake-up armed lets a second thread take a fiber whose context is not saved |
| `FiberSafety.ArmedTwice` | src/async/fiber.cpp:100-103 | two wake-ups for one fiber let two threads take it, the second one facing state EXEC in swapIn |
| `FiberSafety.FinishedWhileArmed` | src/async/scheduler.cpp:216-238 | a callback fiber that finishes with its wake-up out is reset and kept by its thread while a second thread takes it |
| `FiberWork.MovesAlongLoop` | src/async/scheduler.cpp:153-258 | a thread moves only by its own steps and only along the loop of run, with the same fiber from swap-in to fix-up |
| `FiberWork.LeavesIdleToScan` | src/async/scheduler.cpp:250-256 | a thread that leaves idle is back at the scan and nothing else changes |
| `FiberWork.ReturnsOnlyWhenStopping` | src/async/scheduler.cpp:246-248 | in every run a thread returns, and its idle fiber ends, only after a step of its own at which the stopping test held |
| `FiberWork.StopIsRequested` | src/async/scheduler.cpp:105-108 | stopping is set in exactly the runs in which it was requested |
| `FiberWork.WorkerReturns` | src/async/scheduler.cpp:240-258 | a run in which a worker goes idle, finds the test true and returns |
| `FiberWork.TakesWhatItMay` | src/async/scheduler.cpp:163-189 | a thread takes the first entry pinned to it or to none whose fiber is not EXEC, and goes idle or returns only when there is none |
| `FiberWork.QueueChanges` | src/async/scheduler.cpp:160-190 | an entry leaves the queue only when taken; spawned tasks keep their pin, fired and yielding ones are unpinned, and all go to the end |
| `FiberWork.WaiterIsNew` | src/async/iomanager.cpp:109-124 | a new waiter is the running fiber that arms itself, or a registered callback |
| `FiberWork.FiberLives` | src/async/fiber.cpp:100-187 | a fiber changes its state only with the worker that is at it: to EXEC from INIT, READY or HOLD, from EXEC to READY, HOLD, TERM or EXCEPT, and back to INIT when it is reset |
| `FiberWork.ContextMoves` | src/async/fiber.cpp:100-114 | a context leaves memory exactly at swap-in and is back exactly at swap-out |
| `FiberWork.WorkerCanGoOn` | src/async/scheduler.cpp:153-258 | no worker is stuck: in every reachable state each thread that has not returned has a next step |
| `FiberWork.UnarmedIsFree` | src/async/fiber.cpp:157-187 | a running fiber with no wake-up out may arm, yield or finish as it likes |
| `FiberWork.TurnYields` | src/async/scheduler.cpp:197-231 | a fiber that yields READY ends up READY, saved and queued last, and the thread at the scan without its callback fiber if it was that one |
| `FiberWork.TurnHolds` | src/async/scheduler.cpp:208-238 | a fiber that yields HOLD ends up HOLD and saved, in no queue |
| `FiberWork.TurnFinishes` | src/async/scheduler.cpp:197-239 | a plain fiber that ends stays TERM or EXCEPT; a callback fiber is reset and kept |
| `FiberWork.TurnTakes` | src/async/scheduler.cpp:182-245 | a taken fiber runs, and a finished one is dropped with the count as before |
| `FiberWork.TurnStartsCallback` | src/async/scheduler.cpp:216-225 | a callback runs on the kept callback fiber of the thread, else on a new one |
| `FiberSteps.QueuedIsFree` | src/async/scheduler.cpp:174-186 | a queued fiber that is not EXEC is finished iff it finished with its wake-up out; otherwise it is held by nobody and has its context saved |
| `FiberSteps.OnlyOverDiscarded` | src/async/scheduler.cpp:242-245 | a thread discards a fiber only if that finished with its wake-up out, and is not its holder |
| `FiberSteps.RestKeeps` | src/async/scheduler.cpp:208-238 | setting HOLD after the switch, or resetting a finished callback fiber, keeps the invariant |
| `FiberSteps.RequeueKeeps` | src/async/scheduler.cpp:203-231 | requeueing a READY fiber keeps the invariant |
| `Scheduler.TaskQueue.ScheduleNoLock` | src/async/scheduler.h:76-84 | appends exactly the non-null task, asks for a tickle iff the queue was empty, conserves tasks |
| `Scheduler.TaskQueue.Schedule` | src/async/scheduler.h:27-39 | the same with the tickle sent |
| `Scheduler.TaskQueue.ScheduleBatch` | src/async/scheduler.h:42-55 | all non-null tasks are appended in order, the caller's array is emptied, one tickle iff the queue was empty and the batch is not |
| `Scheduler.TaskQueue.Scan` | src/async/scheduler.cpp:163-181 | stops at the first entry that is neither pinned elsewhere nor EXEC; tickle_me iff an entry before it is pinned elsewhere |
| `Scheduler.TaskQueue.Take` | src/async/scheduler.cpp:160-195 | removes exactly that entry and keeps the order of the rest; over any run scheduled entries equal queued plus taken ones |
| `Scheduler.EligibleExactly` | src/async/scheduler.cpp:164-180 | an entry may be taken iff it is pinned to this thread or to none and its fiber is not EXEC |
| `Scheduler.BatchIs` | src/async/scheduler.h:42-55 | a batch is its non-null tasks in order, unpinned |
| `Scheduler.TakeConserves` | src/async/scheduler.cpp:182-186 | taking an entry conserves every entry's count |
| `Scheduler.ScheduleConserves` | src/async/scheduler.h:79-82 | scheduling conserves every entry's count |
| `EventTable.EveryWaiterLeavesOnce` | src/async/iomanager.cpp:75-242 | in every history each registration is held by one slot or has left once, never twice and never both |
| `EventTable.NobodyWaits` | src/async/iomanager.cpp:298-301 | the pending count is zero iff epoll watches nothing, iff no slot is in use, iff every waiter has left |
| `EventTable.UpdateAgrees` | src/async/iomanager.cpp:90-124 | changing one descriptor consistently keeps bits, slots, kernel and waiters in agreement everywhere |
| `EventTable.IOManager.constructor` | src/async/iomanager.cpp:14-49 | starts with an empty table that agrees with an empty interest set |
| `EventTable.IOManager.ContextResize` | src/async/iomanager.cpp:63-73 | for any size: growing keeps all contexts and the invariant, shrinking keeps it iff no context in use is cut off |
| `EventTable.ShrinkAgrees` | src/async/iomanager.cpp:63-73 | a table cut short agrees with epoll and the waiters iff the contexts cut off have no event |
| `EventTable.GrowthRace` | src/async/iomanager.cpp:78-87 | two growths in the wrong order cut off a registered reader while epoll goes on watching |
| `EventTable.IOManager.EpollCtl` | src/async/iomanager.cpp:97-108 | is only called with ADD, MOD or DEL legal for the descriptor; changes nothing on failure |
| `EventTable.IOManager.AddEvent` | src/async/iomanager.cpp:75-125 | fails its assertion iff the event is registered, fails without effect iff epoll fails, else exactly this waiter is added; a table too short grows to one and a half times the descriptor |
| `EventTable.IOManager.Store` | src/async/iomanager.cpp:109-124 | the assertion on the blank slot holds; bit, slot and count are set together |
| `EventTable.IOManager.DelEvent` | src/async/iomanager.cpp:127-163 | succeeds iff registered and epoll agrees; exactly this registration leaves, unqueued |
| `EventTable.IOManager.CancelEvent` | src/async/iomanager.cpp:165-199 | succeeds iff registered and epoll agrees; exactly this registration leaves and its waiter is queued last |
| `EventTable.IOManager.CancelAll` | src/async/iomanager.cpp:201-242 | exactly the registrations of the descriptor leave and their waiters are queued, READ first |
| `EventTable.IOManager.TriggerEvent` | src/async/iomanager.cpp:267-278 | moves the one waiter from its slot to the scheduler and blanks the slot |
| `EventTable.IOManager.Deliver` | src/async/iomanager.cpp:346-398 | with every named event registered and epoll agreeing, exactly these registrations leave and their waiters are queued, READ first; with none registered, or epoll failing, nothing changes |
| `EventTable.IOManager.Idle` | src/async/iomanager.cpp:346-398 | over all reports of one epoll_wait, up to a failed assertion: afterwards exactly those registrations are gone that a report named |
| `EventTable.AllAnswered` | src/async/iomanager.cpp:346-398 | the same for any list of reports in any order |
| `EventTable.AnsweredIs` | src/async/iomanager.cpp:346-398 | one report wakes iff all events it names are registered, is ignored iff none is or epoll fails, and aborts otherwise |
| `EventTable.WakeIs` | src/async/iomanager.cpp:267-278 | triggering events removes exactly their registrations and queues their waiters, READ first |
| `EventTable.AbortsExactly` | src/async/iomanager.cpp:360-397 | a report aborts iff it names both events, just one is registered and epoll_ctl succeeds |
| `EventTable.HangUp` | src/async/iomanager.cpp:360-393 | a hang-up on a descriptor with one waiting reader aborts |
| `Hook.HookIsDisciplined` | src/async/hook.cpp:112-177 | in every interleaving of a hooked call with its timer callback and all other threads, each of its steps is enabled and keeps the discipline, so the whole is a run of the fiber system |
| `Hook.StepKeepsInside` | src/async/hook.cpp:112-177 | every step keeps: the wake-up is out exactly between addEvent and resumption, on the one event; the timer of a wait is set, in flight or has struck; the flag records when |
| `Hook.TimeoutAheadExactly` | src/async/hook.cpp:134-147 | a registered wait with a timeout can still be woken by it iff no callback struck before the registration or failed to cancel the event |
| `Hook.StrikeWakesExactly` | src/async/hook.cpp:135-142 | a callback that takes effect queues the fiber, once, iff its event is registered then |
| `Hook.ReportsTimeoutExactly` | src/async/hook.cpp:166-169 | a resumed call reports the timeout iff a callback has struck, else it tries again |
| `Hook.DeafToTimeout` | src/async/hook.cpp:135-161 | once struck too early the wait stays registered under every step but its event or its deletion |
| `Hook.DeafForGood` | src/async/hook.cpp:135-161 | so over any continuation without these the fiber never leaves the wait |
| `Hook.LostTimeout` | src/async/hook.cpp:133-161 | a run from the start of the system in which the callback runs between addTimer and addEvent and the timeout is lost |
| `HookRuns.CancelTimerRemoves` | src/async/hook.cpp:154-165 | cancelling takes the timer of the wait out of the system and changes nothing else |
| `HookRuns.OnlyCurrentTimer` | src/async/hook.cpp:132-165 | over a whole call, a timer it has set is pending only while it is the timer of the current wait |
| `HookRuns.NoTimerLeft` | src/async/hook.cpp:132-177 | no timer the call has set is pending between its waits or when it has returned |
| `HookRuns.AddTimerSets` | src/async/hook.cpp:132-142 | setting the timer adds it with its callback and changes nothing else |
| `HookRuns.AddEventRegisters` | src/async/hook.cpp:146-147 | a successful addEvent registers the calling fiber for its event and changes nothing else |
| `HookRuns.SuspendSaves` | src/async/hook.cpp:159-161 | suspending saves the context and leaves the thread behind the switch |
| `HookRuns.ResumeRuns` | src/async/hook.cpp:161-163 | resuming runs the fiber on the thread that took it, with no wake-up out |
| `HookRuns.SilentActs` | src/async/hook.cpp:114-120 | the wrapped calls, a failed addEvent and the look at the flag change nothing in the system |
| `HookRuns.ExpiryQueues` | src/async/timer.cpp:177-186 | an expiry removes the timer and queues its callback |
| `HookRuns.StrikeDoes` | src/async/hook.cpp:134-141 | the callback does nothing after the call or with the flag up; else it raises the flag and triggers what waits in the slot |
| `HookRuns.OthersAreFree` | src/async/hook.cpp:114-177 | any step of the system that keeps off the fiber and its timer may happen at any moment of the call |
| `HookRuns.ReaderIsServed` | src/async/hook.cpp:114-177 | a run from the start of the system: the event comes first, the call returns what it reads, and no timer or event is left |
| `HookRuns.ReaderTimesOut` | src/async/hook.cpp:114-177 | a run in which the timer strikes during the wait and the call reports it |
| `HookCode.IOHook` | src/async/hook.cpp:114-177 | the code follows the control flow of `Hook` act by act; it returns the first result that is neither EINTR nor EAGAIN unless a wait fails or the flag is up, with one wait for each EAGAIN |
| `HookCode.Attempt` | src/async/hook.cpp:116-120 | repeats the call while it is interrupted and gives the first other result |
| `HookCode.WaitOnce` | src/async/hook.cpp:133-171 | timer, event, suspension, cancellation and the look at the flag, each act where the control flow allows it |
| `Timers.TimerManager.Find` | src/async/timer.cpp:45-46 | the lookup of an armed timer always succeeds although its key changes over time |
| `Timers.TimerManager.Insert` | src/async/timer.cpp:107-110 | insertion keeps the set strictly ordered |
| `Timers.TimerManager.Cancel` | src/async/timer.cpp:41-50 | true iff armed; disarms and removes exactly this timer |
| `Timers.TimerManager.Refresh` | src/async/timer.cpp:52-65 | an armed timer gets the deadline now + ms, reduced to 64 bits, and keeps all else; no other timer changes, the order is kept, no wake-up |
| `Timers.TimerManager.Reset` | src/async/timer.cpp:67-94 | true without effect when nothing changes, else an armed timer gets the new period from now or from its old start, and tickles like an insertion |
| `Timers.TimerManager.AddTimer` | src/async/timer.cpp:99-124 | arms a new timer; flag and wake-up exactly when it is the new front and the flag was down |
| `Timers.TimerManager.GetNextTimer` | src/async/timer.cpp:142-156 | clears the flag and returns the time to the front deadline, 0 if past, all ones if none |
| `Timers.AllOnesExactly` | src/async/timer.cpp:142-156 | the answer is all ones iff no timer is armed, or the time is zero and the front deadline is the last instant |
| `Timers.TimerManager.ListExpiredCb` | src/async/timer.cpp:158-187 | delivers the callbacks of exactly the due timers in order; recurring ones are due ms after now, one-shots lose their callback, all else stays |
| `Timers.TimerManager.UpperBound` | src/async/timer.cpp:171-176 | the due timers are a prefix of the set |
| `Timers.DueIsUpperBound` | src/async/timer.cpp:172-173 | the due timers are those that the set's order does not place behind the probe; on a rollover all are |
| `Timers.RolloverExactly` | src/async/timer.cpp:194-201 | for all readings: past the first hour a rollover is a reading more than an hour behind the last one, within it every reading up to the wrapped bound |
| `TimerRuns.Perform` | src/async/timer.cpp:41-187 | every call on the class is a step of the histories below |
| `TimerRuns.NoDeadlineMissed` | src/async/timer.cpp:107-156 | whenever a deadline is earlier than the last poll saw, the flag is up and exactly one wake-up was raised since; clocks may be read before the lock is taken |
| `TimerRuns.RefreshMovesForwardExactly` | src/async/timer.cpp:52-65 | a refresh moves the deadline forward iff now + ms does not overflow |
| `TimerRuns.OverflowMissesDeadline` | src/async/timer.cpp:52-65 | a refresh that overflows moves the deadline before the one last polled, with the flag down |
| `TimerRuns.ExpiryIsExact` | src/async/timer.cpp:158-187 | every timer before now is delivered, none after now, in deadline order; recurring ones then sit at now + ms, one-shots are disarmed, none is lost |
| `TimerRuns.RolloverIsLag` | src/async/timer.cpp:158-201 | from an hour on, an expiry reports a rollover iff its reading lags more than an hour behind the one of the expiry before, so never with readings at most an hour behind the latest |
| `TimerRuns.FirstHourFiresEarly` | src/async/timer.cpp:158-201 | a manager made at time 0 delivers at time 5 a timer set for 1000 |
| `Deadlines.RefreshSets` | src/async/timer.cpp:52-65 | in a history, a refresh makes the timer due at now + ms, reduced to 64 bits, keeps the rest of it and every other timer |
| `Deadlines.RefreshedFiresOnTime` | src/async/timer.cpp:52-187 | with timely readings no expiry that reads the clock before now + ms delivers a refreshed timer, and the first that reads more delivers it once |
| `Deadlines.AddSets` | src/async/timer.cpp:99-105 | a new timer is due its period after the reading it was made at |
| `Deadlines.AddedFiresOnTime` | src/async/timer.cpp:99-187 | and fires then, not before |
| `Deadlines.ResetSets` | src/async/timer.cpp:67-94 | a reset timer has the new period, from the reading or from its old start; nothing else changes |
| `Deadlines.ResetFiresOnTime` | src/async/timer.cpp:67-187 | and fires then, not before |
| `Deadlines.FiresExactly` | src/async/timer.cpp:158-187 | an expiry delivers an armed timer once iff it is a rollover, its deadline is past, or is now and before the probe; no other call does |
| `Deadlines.NotBeforeDeadline` | src/async/timer.cpp:158-187 | an armed timer that nobody touches stays as it is until an expiry reaches its deadline |
| `Deadlines.DisarmedIgnores` | src/async/timer.cpp:41-94 | calls on a timer that is not armed change nothing |
| `TimerRuns.CancelIsFinal` | src/async/timer.cpp:41-50 | once cancel has returned true the callback is never delivered again |
| `TimerRuns.OneShotOnce` | src/async/timer.cpp:177-186 | a one-shot timer is delivered at most once, whatever is called on it |
| `ByteArray.ByteArray.constructor` | src/socket/bytearray.cpp:32-40 | one block, coherent cursor, big endian |
| `ByteArray.ByteArray.AddCapacity` | src/socket/bytearray.cpp:669-698 | makes room with no more blocks than needed, keeps the bytes, reseats a cursor at the end |
| `ByteArray.ByteArray.Write` | src/socket/bytearray.cpp:383-420 | overwrites the flat buffer at the cursor, growing it; from a coherent cursor that is the position, and coherence is lost iff the write ends on an interior block boundary |
| `ByteArray.ByteArray.Read` | src/socket/bytearray.cpp:422-450 | slice at the cursor and advance, out of range, or a null dereference exactly when the cursor is null |
| `ByteArray.ByteArray.SetPosition` | src/socket/bytearray.cpp:482-498 | refuses positions beyond the capacity, else restores coherence |
| `ByteArray.ByteArray.Clear` | src/socket/bytearray.cpp:370-381 | back to one block and position zero |
| `ByteArray.ByteArray.GetReadBuffers` | src/socket/bytearray.cpp:569-599 | the iovecs concatenate to the flat slice at the cursor |
| `ByteArray.ByteArray.GetWriteBuffers` | src/socket/bytearray.cpp:638-667 | filling any first part of the iovecs overwrites the flat buffer at the write target |
| `ByteArray.CoverGathers` | src/socket/bytearray.cpp:569-599 | iovecs from any block on gather exactly the flat slice |
| `ByteArray.CoverScatters` | src/socket/bytearray.cpp:638-667 | scattering into them overwrites exactly the flat slice |
| `ByteArray.ByteArray.ReadAt` | src/socket/bytearray.cpp:452-480 | the loop is out of range by an unsigned test, runs off the list, or returns the flat slice at its starting point |
| `ByteArray.PositionalReadExactly` | src/socket/bytearray.cpp:452-480 | for all lengths and positions, whatever the blocks hold, the positional read does what it is meant to iff the position is within the size and the request goes beyond it, or the cursor is not null and the position is in its block or nothing is asked for |
| `ByteArray.NeverWritten` | src/socket/bytearray.cpp:452-480 | a read at position 2 of a fresh array returns a byte instead of throwing |
| `ByteArray.DrainedRead` | src/socket/bytearray.cpp:452-480 | a read of nothing with all blocks drained dereferences null |
| `ByteArray.ByteArray.ToString` | src/socket/bytearray.cpp:543-551 | the unread bytes |
| `Codec.BswapReverses` | src/socket/endians.h:12-47 | the swaps reverse the bytes of every value and stay in range |
| `Endians.Bswap16Swaps` | src/socket/endians.h:30-32 | the masked and shifted terms or-ed together are the swap, for every value |
| `Endians.Bswap32Swaps` | src/socket/endians.h:23-28 | the same for 32 bits |
| `Endians.Bswap64Swaps` | src/socket/endians.h:12-21 | the same for 64 bits |
| `Codec.WireFormatIsHostIndependent` | src/socket/bytearray.cpp:52-101 | the bytes written depend on the stream's byte order only, not on the machine's |
| `Codec.FixedRoundTrip` | src/socket/bytearray.cpp:206-282 | integers written on one machine are read back on another |
| `WireFormat.FixedWire` | src/socket/bytearray.cpp:52-101 | a fixed-width integer is its base-256 digits in the order of the stream |
| `WireFormat.FixedRead` | src/socket/bytearray.cpp:206-282 | any bytes are read as the number whose digits they are |
| `WireFormat.UnsignedWire` | src/socket/bytearray.cpp:52-101 | in one, two, four and eight bytes |
| `WireFormat.SignedWire` | src/socket/bytearray.cpp:52-101 | signed integers in two's complement |
| `WireFormat.WellTypedExactly` | src/socket/bytearray.h:33-54 | the values covered are all values of the C++ types |
| `WireFormat.TextWire` | src/socket/bytearray.cpp:181-199 | a string is its length in two, four or eight bytes in the stream's order, or as a varint, and then its bytes |
| `WireFormat.LengthRead` | src/socket/bytearray.cpp:336-366 | and its length is read from as many |
| `WireFormat.FitsExactly` | src/socket/bytearray.cpp:181-199 | a length survives unless it is 2^16 or more in two bytes or 2^32 or more in four |
| `WireFormat.LongTextLost` | src/socket/bytearray.cpp:181-184 | 65536 bytes behind a two-byte header come back as none |
| `WireFormat.VarintGroups` | src/socket/bytearray.cpp:141-152 | a varint holds the value in base 128, low groups first, with the top bit clear on the last byte alone |
| `WireFormat.ReadVarintExactly` | src/socket/bytearray.cpp:288-320 | any bytes are read up to the first below 0x80, at most five or ten, as groups cut to the width, or throw when they run out |
| `Codec.VarintSelfDelimiting` | src/socket/bytearray.cpp:141-167 | whatever follows, decoding returns the value and consumes max(1, ceil(bits/7)) bytes, at most 5 or 10 |
| `Codec.ZigzagBijective` | src/socket/bytearray.cpp:123-135 | encoding and decoding invert each other on every value, the minimum included, in wrap-around arithmetic |
| `Codec.ItemRoundTrip` | src/socket/bytearray.cpp:181-366 | a value is read back from its wire form, whatever follows, iff a string's length fits its header |
| `TypedIO.EncodeVarint` | src/socket/bytearray.cpp:141-152 | the loop produces the varint |
| `TypedIO.TakeVarint` | src/socket/bytearray.cpp:288-320 | the loop decodes it or throws |
| `TypedIO.PutItem` | src/socket/bytearray.cpp:52-203 | appends exactly the wire form of a value |
| `TypedIO.GetItem` | src/socket/bytearray.cpp:206-366 | reads a value of a kind, throws, or crashes on an empty string at the capacity |
| `TypedIO.RoundTrip` | src/socket/bytearray.cpp:52-366 | any list of values, any block size, either byte order: the same list comes back and nothing is left, iff the last value is not an empty string that ends a block |
| `TypedIO.EmptyTextAtBlockEnd` | src/socket/bytearray.cpp:336-342 | one empty string in blocks of two bytes crashes on the way back |
| `SocketStream.ReadInto` | src/stream/stream.cpp:80-91 | receiving into the iovecs and moving the position overwrites the flat buffer at the write target and seats the cursor; a request for no bytes reads the first of zero iovecs |
| `SocketStream.ReceiveIsWrite` | src/stream/stream.cpp:80-91 | two arrays in the same state, one receiving bytes and one written them, agree afterwards in position, size and all bytes |
| `SocketStream.WriteFrom` | src/stream/stream.cpp:100-111 | sends the flat slice at the cursor and moves past it; with nothing to send it reads the first of zero iovecs |
| `SocketStream.InteriorBoundaryWrite` | src/socket/bytearray.cpp:398-404 | two writes across an interior boundary leave 7 8 3 4 instead of 5 6 7 8 |
| `Uri.CreateUri` | src/HTTP/uri.rl:134-149 | the machine with its mark pointer computes the specified parse |
| `Uri.Perform` | src/HTTP/uri.rl:16-48 | each mark and save action, with the null mark where the code tests for it and where it does not |
| `UriLanguage.AcceptedExactly` | src/HTTP/uri.rl:10-149 | for every text and URI: the text is accepted as that URI iff it is scheme, double slash, optional user information, host, optional port, path, optional query and optional fragment in the grammar, and the URI holds just these parts |
| `UriLanguage.GrammarIsAccepted` | src/HTTP/uri.rl:10-149 | every text of that grammar is accepted, parts left out and empty parts told apart |
| `UriRoundTrip.Reparse` | src/HTTP/uri.rl:184-202 | every URI with its parts in the grammar and a non-negative port is parsed back from its text to its normal form |
| `UriGrammar.AcceptedIsInGrammar` | src/HTTP/uri.rl:10-149 | for every text that is accepted, scheme, user information, host, path, query and fragment are in the grammar and the port is a 32-bit integer |
| `UriGrammar.ParsePrintParse` | src/HTTP/uri.rl:10-202 | for every text that is accepted, printing what was parsed and parsing again gives the same getters iff the port is not negative and no port hides in the user information |
| `UriText.ClassesAre` | src/HTTP/uri.rl:10-25 | the character classes of scheme, names, path and query, listed |
| `UriText.PrintedText` | src/HTTP/uri.rl:184-196 | the printed text part by part, with the port only when it is neither absent nor the scheme's own |
| `UriText.AllParts` | src/HTTP/uri.rl:134-149 | one text with all its parts is accepted with each in its place |
| `UriRoundTrip.RoundTripExactly` | src/HTTP/uri.rl:19-202 | all getters agree after printing and parsing iff the port is not negative and the first colon of the user information is not followed by a digit |
| `UriRoundTrip.ColonDigitLost` | src/HTTP/uri.rl:34-41 | h://a:1@b comes back with user information "1" |
| `UriRoundTrip.NegativePortRefused` | src/HTTP/uri.rl:184-196 | the text of a negative port is refused |
| `UriRoundTrip.NoColonNoPort` | src/HTTP/uri.rl:34-41 | user information without a colon always comes back |
| `UriCrash.CrashesExactly` | src/HTTP/uri.rl:16-149 | of all texts that are not refused, those crash whose authority, from the double slash to the first slash, question mark, number sign or the end, ends with a colon |
| `UriLanguage.EmptyPortAlwaysCrashes` | src/HTTP/uri.rl:27-93 | an empty port crashes whatever the other parts are, present or absent |
| `UriRoundTrip.EmptyPortCrashes` | src/HTTP/uri.rl:27-33 | any scheme and host with an empty port crash |
| `UriRoundTrip.EmptyPortBeforePathCrashes` | src/HTTP/uri.rl:27-33 | and so they do before a path |
| `UriRoundTrip.InfoGoes` | src/HTTP/uri.rl:70-70 | what the parser keeps of user information: all of it, or what follows a colon before a digit |
| `UriRoundTrip.AtoiReads` | src/HTTP/uri.rl:27-33 | the printed port is read back for every non-negative 32-bit value |
| `UriText.AtoiCuts` | src/HTTP/uri.rl:27-33 | a port from 2^31 up to 2^63 is cut to 32 bits |
| `LogPattern.ScanSpec` | src/log/log.cpp:439-478 | the two-state inner loop finds name, argument and end of a conversion, or an unclosed brace |
| `LogPattern.Init` | src/log/log.cpp:422-513 | terminates on every pattern with the specified tokens; an error iff a brace is unclosed |
| `LogPattern.PrintTokens` | src/log/log.cpp:422-513 | without unclosed braces, printing the tokens loses two characters per pair of empty braces and nothing else |
| `LogPattern.LosslessExactly` | src/log/log.cpp:422-513 | for every pattern: printing the tokens gives it back iff no conversion has empty or unclosed braces |
| `LogPattern.PercentsLost` | src/log/log.cpp:439-497 | each unclosed brace costs exactly one percent sign, nothing else does |
| `LogPattern.NamesAre` | src/log/log.cpp:446-449 | letters of both cases belong to a conversion's name |
| `LogPattern.EitherCase` | src/log/log.cpp:439-486 | %T%n is two conversions |
| `LogPattern.PercentPair` | src/log/log.cpp:431-438 | of two percent signs the first is text and the second may start a conversion |
| `LogPattern.EmptyBracesLost` | src/log/log.cpp:464-469 | %d{} is a conversion without argument and is not given back |
| `LogPattern.UnclosedBraceLost` | src/log/log.cpp:491-497 | %d{ gives the error text and then its rest, and is not given back |
| `LogPattern.NoEmptyBraces` | src/log/log.cpp:464-469 | a pattern without "{}" has no such conversion |
| `LogPattern.TokensOfPrint` | src/log/log.cpp:422-513 | tokenizing a printed normal-form list gives back the list |
| `LogPattern.NormalExactly` | src/log/log.cpp:422-513 | the normal-form lists are exactly the tokens of patterns without unclosed or empty braces |
| `LogPattern.ErrorComesFirst` | src/log/log.cpp:491-497 | on an unclosed brace the error text precedes the literal text before it |

## Left out

- The caller's thread as a worker (`use_caller`, root fiber, `call` and `uncall`): raw context switching; only worker threads are modelled.
- Locks: each locked section is one atomic step, and so are setting the flag and raising the wake-up of a timer.
- `EventTable.IOManager.AddEvent`: lookup and growth of the table are one step; the code drops the lock in between, and `EventTable.GrowthRace` shows what that allows.
- `Shutdown.TestStopping`: the test is evaluated in one step, while the code reads timers, the pending count and the queue one after the other.
- A timer that wakes a sleeping fiber runs a callback that schedules it; in `FiberSystem` both are one step.
- Negative descriptors, and the kernel dropping a descriptor from epoll when it is closed.
- Wake-up latency: the tickle pipe's contents, the 5000 ms cap of epoll_wait, EINTR of epoll_wait.
- `HookCode.IOHook`: the early exits before the first call.
- In `Hook` the callback's test, flag and cancelEvent are one step, and once the call has returned its system is left alone.
- Empty callbacks given to addTimer; destruction of timers and fibers.
- The block list's nodes: the list is a sequence of blocks with the cursor as an index, the length standing for null; node addresses and links do not occur.
- Uninitialised bytes of new blocks are zero, and sizes do not overflow.
- `writeToFile`, `readFromFile`, `toHexString`, floats, strings without length, the positional form of getReadBuffers: file I/O or easy members.
- Relative URIs and URIs without authority, IP literals, and the raw byte 2 that the octet rule admits: `Uri` answers `NotModelled` for these.
- `Uri.Atoi`: follows the common library's cut of a long to 32 bits; the standard leaves overflow undefined.
- Letters outside ASCII in log patterns, and the lookup of conversions by name after tokenizing.
- HTTP parsers, servlets, the connection pool, addresses, sockets, logging appenders and configuration: generated tables, foreign calls or easy members.
