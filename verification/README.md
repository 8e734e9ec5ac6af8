# Coroutine runtime, wire codec and address text: a verified model

This project models the hard parts of an RPC framework's runtime and proves what they keep.

- **Fibers and scheduler** (`SchedulerModel`, `SchedulerProofs`, `SchedulerRuns`, `SchedulerShutdown`, `SchedulerHeld`,
  `SchedulerProgress`, `SchedulerDrain`, `SchedulerTasks`, `SchedulerWitnesses`, `Scheduler`): N workers share one queue
  of tasks, some of which choose their thread. A worker takes a task and counts it active under the scheduler's lock,
  runs it under the fiber's own mutex, and leaves `run` once its idle fiber has ended. In its idle pass it collects the
  callbacks of expired timers, then schedules them one by one, then schedules and counts out the reported events. The
  model is a state machine whose steps are the lock-delimited actions, taken by any workers in any order; the classes
  update their fields in place and are proved to take those steps.
- **Reactor** (`ReactorModel`, `ReactorProofs`, `ReactorRuns`, `ReactorReports`, `IOManager`): per descriptor an event
  mask and two slots for waiters, a global counter and the kernel's interest map. An epoll report and its dispatch are
  two steps, with anything in between.
- **Timers** (`TimerModel`, `TimerExpiry`, `TimerEffects`, `TimerRuns`, `TimerMap`, `TimerReset`, `TimerDead`,
  `TimerCensus`, `TimerManager`): the set ordered by deadline alone, whose members' deadlines change, the shared flag
  that limits wake-ups, and the reset that leaves the lock half-way. `TimerCensus` ties an expiry pass to the scheduler's
  counts.
- **Blocking calls** (`BlockingCall`, `BlockingProofs`, `BlockingRuns`, `BlockingTimeouts`, `BlockingOutcomes`): any
  number of `do_io` and `connect_with_timeout` calls over the timers and the reactor, with their retries and their
  timeout callbacks.
- **Wire codec** (`Wire`, `WireValues`, `Messages`, `MessageProofs`, `MessageBytes`, `GeneratedMessages`): the generated
  parse, serialise, size and merge code of three messages. The library below it is written from the Protocol Buffers
  Encoding specification, sections "Base 128 Varints", "Message Structure", "Length-Delimited Records" and "Last One
  Wins".
- **Addresses** (`AddressText`, `AddressProofs`, `AddressCases`, `Address`): the printers and the host:service splitter.

Clocks, what the kernel reports, what the wrapped system calls return and what user code does are parameters of the
steps. `dafny verify dfyconfig.toml` checks the project.

What the code does otherwise than its comments or callers may expect, each with a proof:

- A timer whose deadline is taken is not inserted, and cancelling it takes the other one out (`TimerMap.CollisionLosesATimer`);
  `TimerMap.StepRefines` says exactly when this cannot happen.
- The expiry loop does not end in the cases that `TimerExpiry.ExpiryTerminatesIff` names; two of them are
  `TimerRuns.ZeroPeriodNeverEnds` and `TimerRuns.RolloverNeverEnds`.
- A timer cancelled while a reset has it in its unlocked gap is put back and handed out (`TimerReset.CancelInGapFires`);
  outside the gap it never is (`TimerReset.CancelledOutsideGapNeverFires`, exact in `TimerReset.ReturnsIff`).
- A report that has gone stale can fail the assertion of `triggerEvent` (`ReactorRuns.CallFailsIff`,
  `ReactorRuns.StaleDispatchIsReachable`).
- A blocking call loses its timeout when the callback runs before the call registers (`BlockingRuns.StrandingIsReachable`)
  or when its deadline collides with another timer's (`BlockingTimeouts.CollisionIsReachable`), and in no other way:
  `BlockingTimeouts.ComingStep` and `BlockingTimeouts.ComingAlong` are exact for each step and each stretch of waiting,
  `BlockingTimeouts.ComingAfterArm` for the arming. Without collisions only the first way is left
  (`BlockingTimeouts.FreshStrandedIff`).
- `Fiber::reset` can race with the last `yield` (`SchedulerWitnesses.ResetRaceIsReachable`): a reset of a fiber that has
  ended and not switched away makes that yield fail (`SchedulerRuns.UnsafeResetFails`), and no other reset makes anything
  fail (`SchedulerRuns.SafeRunNeverFails`).
- A shutdown may complete with a timer armed (`SchedulerWitnesses.ShutdownMayLoseATimer`): exactly when one was armed, or
  an event registered, by the last reading of the queue (`SchedulerShutdown.ShutdownLosesIff`), so after that worker had
  read that there was none (`SchedulerShutdown.LostWasAddedMidRead`).
- A recurring timer cancelled in the gap of its reset stays in the set without callback, refuses `cancel`, `refresh` and `reset`, and
  is put back by every expiry (`TimerDead.DeadIsReachable`, `TimerDead.Refused`, `TimerDead.DeadLeavesIff`), so that a
  shutdown need not complete even when all code has ended (`SchedulerHeld.DoomedForGood`).
- A shutdown never completes once a task is pinned to a worker that is leaving (`SchedulerRuns.AbandonedBlocksShutdown`,
  `SchedulerWitnesses.AbandonedIsReachable`). While deadlines do not collide and expiry passes end, that, a failing
  `yield` and a dead timer that holds a worker are all that can prevent it, provided that recurring timers are cancelled
  by the code that runs (`SchedulerDrain.CompletesIff`).
- An IPv6 text without brackets keeps a service that begins with a colon (`AddressProofs.BareV6KeepsColon`).
- Parsing concatenated bytes of other writers need not be merging (`MessageBytes.HeaderBytesConcatIff`,
  `MessageBytes.CodeBytesConcatIff`, `MessageBytes.ResponseBytesConcatIff`).

## Model

| member | source | states |
|---|---|---|
| `SchedulerProofs.StepKeepsInv` | CoroutineLibrary/scheduler.cpp:99-168 | Every step of every worker keeps the invariant: who holds which fiber's mutex agrees with where each worker is, every push is in exactly one place, nobody has passed over a task it might take, and the last idle fiber to end leaves nothing behind |
| `SchedulerProofs.RunKeepsInv` | CoroutineLibrary/scheduler.cpp:99-168 | The invariant holds after any interleaving of any number of workers |
| `SchedulerRuns.RunsOnOneWorker` | CoroutineLibrary/fiber.cpp:126-194 | In every reachable state a fiber whose mutex is free is READY or TERM; a RUNNING one is current on exactly one worker, the one that holds its mutex |
| `SchedulerRuns.NewFiberIsReady` | CoroutineLibrary/fiber.cpp:72-92 | A new fiber is READY and its mutex free, and the other fibers are as they were |
| `SchedulerRuns.UserCodeIsRunning` | CoroutineLibrary/ioscheduler.cpp:177-178 | After any run, a worker that is inside a task's fiber has that fiber as its current one, and it is RUNNING: the assertion with which `addEvent` stores the current fiber holds |
| `SchedulerRuns.AssertionFailsIff` | CoroutineLibrary/fiber.cpp:126-157 | The READY assertion of `resume`, for task and idle fibers alike, and the non-empty assertion of the scan never fail; the assertion of `yield` fails exactly in the last yield of a fiber made READY again before it had switched away (`SafeRunNeverFails` and `UnsafeResetFails` say which resets do that) |
| `SchedulerRuns.OnlyResetRevives` | CoroutineLibrary/fiber.cpp:107-124 | A fiber that has ended and not yet switched away becomes READY by `reset` of that fiber and by nothing else |
| `SchedulerRuns.FreeMutexIsSafe` | CoroutineLibrary/fiber.cpp:107-124 | A reset of a fiber whose mutex is free is a safe one: no worker is between the end of that fiber's function and its switch |
| `SchedulerRuns.RevivesIff` | CoroutineLibrary/fiber.cpp:107-124 | A step leaves an ended fiber READY before its switch if and only if it is a reset that is not safe |
| `SchedulerRuns.SafeRunNeverFails` | CoroutineLibrary/fiber.cpp:126-194 | In every run whose resets are safe no assertion of `resume`, `yield` or the scan ever fails |
| `SchedulerRuns.StaysRevived` | CoroutineLibrary/fiber.cpp:186-194 | A fiber made READY before its switch stays READY, whatever the other workers do, until it switches |
| `SchedulerRuns.RevivedFails` | CoroutineLibrary/fiber.cpp:152-157 | So in every continuation its last yield is still to come, and fails its assertion |
| `SchedulerRuns.UnsafeResetFails` | CoroutineLibrary/fiber.cpp:107-124 | Every reset that is not safe leads, in every continuation, to a last yield whose assertion fails |
| `SchedulerWitnesses.ResetRaceIsReachable` | CoroutineLibrary/fiber.cpp:186-194 | A concrete run in which `reset` from outside falls between the end of the function and the switch, and the assertion of `yield` fails |
| `SchedulerRuns.LockThenResume` | CoroutineLibrary/scheduler.cpp:133-141 | A task whose fiber was scheduled while it still ran gets the mutex only when no worker runs that fiber; it is then resumed, without a failing assertion, exactly when the fiber has not ended |
| `SchedulerRuns.EveryPushPlacedOnce` | CoroutineLibrary/scheduler.cpp:104-154 | After any run each push is queued, in one worker's hands or finished, exactly once in all, and the active count is the number of workers between take and release |
| `SchedulerRuns.PassSchedules` | CoroutineLibrary/ioscheduler.cpp:388-455 | Of all a worker's own steps only two of its idle pass add to the queue: the callback of an expired timer and the waiter of an event, one task each, behind the rest and for any thread |
| `SchedulerRuns.StoppingMeansDone` | CoroutineLibrary/scheduler.cpp:234-238 | When `Scheduler::stopping` returns true no worker has a task in hand and every push has been finished exactly once |
| `SchedulerRuns.TakenInPushOrder` | CoroutineLibrary/scheduler.cpp:104-125 | Two tasks that chose the same thread, or none, or were taken by the same worker, are taken in the order of their pushes |
| `SchedulerRuns.UntakenKeepOrder` | CoroutineLibrary/scheduler.cpp:118-122 | The tasks left in the queue stay in push order |
| `SchedulerRuns.LeftMeansDone` | CoroutineLibrary/scheduler.cpp:51-59 | When all workers have left `run` nothing is queued, pinned or not, every push was finished once, and the assertion of the destructor holds |
| `SchedulerRuns.QueuedMeansSomeoneStays` | CoroutineLibrary/scheduler.cpp:156-167 | While a task is queued or in hand some worker's idle fiber has not ended, so that worker is still to scan |
| `SchedulerRuns.AbandonedBlocksShutdown` | CoroutineLibrary/scheduler.cpp:110-115 | A task that chose a thread that never was a worker, or has left or is leaving after its last scan, is never taken, and in no continuation do all workers leave |
| `SchedulerRuns.LatePinIsAbandoned` | CoroutineLibrary/scheduler.h:32-46 | A running task that schedules onto a worker that has left, or has found nothing after its idle fiber ended, creates such a task |
| `SchedulerWitnesses.AbandonedIsReachable` | CoroutineLibrary/scheduler.cpp:156-167 | A run of two workers from a fresh scheduler with one timer to such a task: one worker leaves between the expiry of the timer and the scheduling of its callback, which then pins a task to that worker |
| `SchedulerWitnesses.HalfwayAbandons` | CoroutineLibrary/scheduler.h:32-46 | The same from the state in which one idle fiber has ended and the other has collected a callback and not yet scheduled it |
| `SchedulerDrain.CompletesIff` | CoroutineLibrary/scheduler.cpp:99-168 | Where expiry passes end: from any reachable state some continuation in which no deadlines collide lets all workers leave `run` if and only if no queued task is abandoned, no ended fiber was made READY before its switch, and no dead timer holds a worker; and then one does in which code of users only cancels timers, deregisters events, resets ended fibers and ends |
| `SchedulerDrain.Completion` | CoroutineLibrary/ioscheduler.cpp:356-460 | That continuation, from any such state: every pass schedules each callback it takes out and each waiter it reports, and puts recurring timers back |
| `SchedulerHeld.HeldBlocksShutdown` | CoroutineLibrary/ioscheduler.cpp:343-348 | A recurring timer without callback (a dead one) holds a worker that has still to read the timers, or must before it can take a queued task, or after finding an event pending that no code can deregister: without colliding deadlines no continuation then lets all workers leave |
| `SchedulerHeld.HeldStays` | CoroutineLibrary/ioscheduler.cpp:343-460 | Every step that is no collision leaves such a worker held |
| `SchedulerHeld.ArmedHolds` | CoroutineLibrary/ioscheduler.cpp:343-348 | A worker that has still to read the timers is held as long as the set is never empty, as by a recurring timer that no code cancels |
| `SchedulerHeld.DoomedForGood` | CoroutineLibrary/ioscheduler.cpp:343-460 | When only dead timers are armed and nothing is queued, in hand, collected or pending after `stop`, no continuation at all lets all workers leave, collisions included |
| `SchedulerWitnesses.DoomedIsReachable` | CoroutineLibrary/ioscheduler.cpp:343-348 | From a fresh scheduler of any number of workers: a dead timer in the set when `stop` is called is enough for that |
| `SchedulerWitnesses.ShutdownMayLoseATimer` | CoroutineLibrary/ioscheduler.cpp:343-348 | A concrete run of two workers, from the expiry of one timer, that ends with both gone and a timer still armed, because the timers, the pending count and the queue are read one after another |
| `SchedulerShutdown.ShutdownLosesIff` | CoroutineLibrary/ioscheduler.cpp:343-348 | A completed shutdown leaves armed and pending exactly what was so when the last idle fiber to decide read the queue: something is lost if and only if something was there at that step |
| `SchedulerShutdown.DecidedRun` | CoroutineLibrary/ioscheduler.cpp:356-364 | Once every idle fiber has decided, nothing changes what is armed or pending |
| `SchedulerShutdown.LostWasAddedMidRead` | CoroutineLibrary/ioscheduler.cpp:343-348 | What a completed shutdown loses was armed after that last worker had read that no timer was, or registered after it had read that no event was pending, and before it read the queue |
| `SchedulerShutdown.UndisturbedShutdownLosesNothing` | CoroutineLibrary/ioscheduler.cpp:343-348 | In particular, when nobody changes the timers or the pending events between any worker's reads, a completed shutdown leaves no timer armed and no event pending |
| `SchedulerShutdown.UndisturbedRun` | CoroutineLibrary/ioscheduler.cpp:343-348 | In such runs what a worker has read of `stopping` still holds when it reads on |
| `SchedulerWitnesses.IdleRound` | CoroutineLibrary/scheduler.cpp:156-167 | A worker that finds nothing queued, armed or pending reads all of `stopping`, and its idle fiber ends exactly when that was true |
| `SchedulerTasks.TaskRuns` | CoroutineLibrary/scheduler.cpp:133-144 | One worker running one task under its fiber's mutex leaves the fiber READY if it yielded and TERM if it has ended, frees the mutex and counts the task out, with no assertion failing on the way |
| `SchedulerProofs.DecidesByReading` | CoroutineLibrary/ioscheduler.cpp:356-364 | A worker's idle fiber decides to end only by reading `Scheduler::stopping` as true |
| `TimerCensus.PassPasses` | CoroutineLibrary/timer.cpp:151-180 | By their kinds, the timers that an expiry pass takes, those it leaves and those that were there are related as the idle pass of the scheduler has it |
| `TimerCensus.ListExpiredIsCollect` | CoroutineLibrary/ioscheduler.cpp:387-396 | When `listExpiredCb` returns, the idle pass has made its collecting step and owes the queue exactly as many callbacks as the expired timers had |
| `SchedulerModel.FirstFor` | CoroutineLibrary/scheduler.cpp:106-123 | The scan stops at the first task the worker may take: it may take that one and none before it |
| `Scheduler.Scheduler.constructor` | CoroutineLibrary/scheduler.cpp:20-49 | A new scheduler agrees with the initial state of the machine |
| `Scheduler.Scheduler.ScheduleLock` | CoroutineLibrary/scheduler.h:32-52 | Appends the task at the end unless it is empty, asks for a wake-up exactly when the queue was empty, and is the push step of the machine |
| `Scheduler.Scheduler.ScheduleFiberOf` | CoroutineLibrary/scheduler.h:94-98 | The fiber is moved out of the caller's slot, which is left empty, into the pushed task |
| `Scheduler.Scheduler.ScheduleCallbackOf` | CoroutineLibrary/scheduler.h:106-110 | The callback is moved out of the caller's slot, which is left empty, into the pushed task |
| `Scheduler.Scheduler.Select` | CoroutineLibrary/scheduler.cpp:104-130 | The scan loop takes the first task the worker may take and is the scan step of the machine; `tickle_me` is true exactly when tasks remain in the queue |
| `Scheduler.Scheduler.RunFiberTask` | CoroutineLibrary/scheduler.cpp:133-144 | Under the fiber's mutex the fiber is resumed unless it has ended, then the task is counted out: a run of the machine's steps whose assertions hold |
| `Scheduler.Scheduler.Stopping` | CoroutineLibrary/scheduler.cpp:234-238 | Returns the condition that `StoppingMeansDone` is about |
| `Scheduler.Scheduler.Stop` | CoroutineLibrary/scheduler.cpp:172-181 | Sets the flag and nothing else |
| `Scheduler.Fiber.Resume` | CoroutineLibrary/fiber.cpp:126-150 | From READY the fiber becomes RUNNING and current; from any other state the assertion fails and nothing changes |
| `Scheduler.Fiber.Yield` | CoroutineLibrary/fiber.cpp:152-179 | From RUNNING the fiber becomes READY, from TERM it stays TERM, and the scheduler's fiber is current again; from READY the assertion fails |
| `Scheduler.Fiber.MainTail` | CoroutineLibrary/fiber.cpp:186-193 | After its function has returned the fiber is TERM, holds no callback and has switched back |
| `Scheduler.Fiber.Reset` | CoroutineLibrary/fiber.cpp:107-124 | Only an ended fiber is made READY again, with the new callback |
| `ReactorRuns.CallFailsIff` | CoroutineLibrary/ioscheduler.cpp:122-330 | In every reachable state no kernel request is illegal and no assertion about events and slots fails, except in the dispatch of a report that still meets a registered event and also names one deregistered since: exactly then (the assertion on the state of the current fiber is `SchedulerRuns.UserCodeIsRunning`) |
| `ReactorRuns.StaleNeedsBoth` | CoroutineLibrary/ioscheduler.cpp:416-435 | A failing report names both events, of which exactly one is still registered |
| `ReactorRuns.StaleDispatchIsReachable` | CoroutineLibrary/ioscheduler.cpp:432-459 | A concrete run in which a cancel falls between the epoll report and the dispatch, and the assertion of `triggerEvent` fails |
| `ReactorRuns.RunKeepsInv` | CoroutineLibrary/ioscheduler.cpp:122-330 | A bit is set exactly when its slot holds a scheduler and one of fiber and callback, and the kernel watches exactly the bits, after any run |
| `ReactorRuns.EveryRunAccounts` | CoroutineLibrary/ioscheduler.cpp:40-63 | After any run the counter is the number of set bits, added = pending + scheduled + dropped, every registration is in exactly one of the three, once, and a scheduled task carries the waiter and scheduler that were registered |
| `ReactorRuns.HistoryGrows` | CoroutineLibrary/ioscheduler.cpp:122-330 | No operation takes back a scheduled or dropped registration or makes a resolved one wait again |
| `ReactorProofs.AddRegisters` | CoroutineLibrary/ioscheduler.cpp:141-180 | Adding an absent event is a legal ADD or MOD, finds its slot empty, sets the bit and puts exactly the given waiter in the slot |
| `ReactorProofs.DelKeeps` | CoroutineLibrary/ioscheduler.cpp:199-230 | Deleting a present event is a legal MOD or DEL, clears that bit and slot and no other, drops its registration and schedules nothing |
| `ReactorProofs.CancelKeeps` | CoroutineLibrary/ioscheduler.cpp:249-276 | Cancelling a present event is a legal MOD or DEL, clears that bit and slot and no other, and schedules that waiter once |
| `ReactorProofs.CancelAllKeeps` | CoroutineLibrary/ioscheduler.cpp:294-330 | Cancelling all leaves the descriptor with no event and unwatched, and each of its waiters scheduled once |
| `ReactorProofs.DispatchOutcome` | CoroutineLibrary/ioscheduler.cpp:412-459 | In terms of the events to act on (`ReactorReports` has it in terms of the report): dispatch fails exactly on a stale report; otherwise it schedules the waiters of the events that happened and leaves the others registered |
| `ReactorReports.DispatchReports` | CoroutineLibrary/ioscheduler.cpp:416-455 | After a dispatch that does not fail: a report with EPOLLERR or EPOLLHUP leaves no event, any other the events it does not name; and exactly the waiters of the events that went are queued, READ before WRITE |
| `ReactorReports.ReportedIsScheduledOnce` | CoroutineLibrary/ioscheduler.cpp:416-455 | The registration of each reported event waits no more and is scheduled once, and each that was not reported waits on |
| `ReactorReports.AbortsIff` | CoroutineLibrary/ioscheduler.cpp:416-455 | Dispatch fails exactly when the report names an event that is not registered, and one that is or, with EPOLLERR or EPOLLHUP, any is |
| `ReactorReports.AnswersIff` | CoroutineLibrary/ioscheduler.cpp:122-330 | What the four calls answer, by whether the event is registered: adding succeeds where it is not, the others where there is something |
| `ReactorReports.TableSize` | CoroutineLibrary/ioscheduler.cpp:85-138 | The table begins with 32 descriptors, and grows to one and a half times the descriptor it lacks |
| `ReactorProofs.ResolveKeeps` | CoroutineLibrary/ioscheduler.cpp:40-63 | Triggering a registered event clears its bit and slot and appends one task with its waiter |
| `ReactorProofs.GrowKeeps` | CoroutineLibrary/ioscheduler.cpp:135-139 | Growing the table leaves every descriptor as it was and the new one without events |
| `IOManager.IOManager.constructor` | CoroutineLibrary/ioscheduler.cpp:65-90 | A new manager has an idle context for each of the first descriptors |
| `IOManager.IOManager.ContextResize` | CoroutineLibrary/ioscheduler.cpp:108-120 | Keeps the contexts there are and fills up with idle ones numbered by position |
| `IOManager.IOManager.AddEvent` | CoroutineLibrary/ioscheduler.cpp:122-181 | Updates context, counter and kernel in place as the model does; fails exactly when the event is already registered |
| `IOManager.IOManager.DelEvent` | CoroutineLibrary/ioscheduler.cpp:183-231 | The same for deletion; true exactly when the event was registered |
| `IOManager.IOManager.CancelEvent` | CoroutineLibrary/ioscheduler.cpp:233-276 | The same for cancelling |
| `IOManager.IOManager.CancelAll` | CoroutineLibrary/ioscheduler.cpp:278-330 | The same for cancelling all; true exactly when there was an event |
| `IOManager.IOManager.TriggerEvent` | CoroutineLibrary/ioscheduler.cpp:40-63 | Moves the waiter of a registered event into the queue and resets the slot, in place |
| `IOManager.IOManager.DispatchOne` | CoroutineLibrary/ioscheduler.cpp:412-459 | One turn of the dispatch loop, in place, for a report that is not stale, with the effect that `ReactorReports.DispatchReports` states |
| `IOManager.IOManager.DispatchReady` | CoroutineLibrary/ioscheduler.cpp:399-460 | The dispatch loop over all reports, stopping where an assertion fails (`ReactorReports.AbortsIff`) |
| `TimerModel.Insert` | CoroutineLibrary/timer.cpp:189-195 | Inserting keeps the set strictly sorted; it is a no-op when the deadline is taken and otherwise adds that timer alone |
| `TimerModel.FindKey` | CoroutineLibrary/timer.cpp:86-90 | `find` hits the element with that deadline, whichever timer it is, and misses exactly when the deadline is free |
| `TimerModel.EraseKey` | CoroutineLibrary/timer.cpp:18-22 | `find` then `erase` takes out the element with that deadline and no other |
| `TimerModel.TakeOut` | CoroutineLibrary/timer.cpp:36-43 | The deadline is rewritten only while the timer is outside the set, so the rest stays sorted |
| `TimerEffects.AddIs` | CoroutineLibrary/timer.cpp:79-106 | A new timer is due its milliseconds after it was made, in nanoseconds, and is in the set exactly when that deadline was free |
| `TimerEffects.EnqueueIs` | CoroutineLibrary/timer.cpp:189-209 | A wake-up is asked for exactly when no member is due before the new one and none was asked for since the last `getNextTimer` |
| `TimerEffects.CancelIs` | CoroutineLibrary/timer.cpp:5-24 | `cancel` answers true exactly when there was a callback, takes it, and leaves no member at that deadline |
| `TimerEffects.RefreshIs` | CoroutineLibrary/timer.cpp:27-46 | `refresh` goes on exactly when there is a callback and a member at the deadline, and moves it to one period from now |
| `TimerEffects.ResetIs` | CoroutineLibrary/timer.cpp:48-77 | `reset` counts the new period from now or from where the old one began; when it answers what |
| `TimerEffects.RolloverIs` | CoroutineLibrary/timer.cpp:211-221 | A rollover is a clock more than an hour before what it showed last |
| `TimerEffects.PassIs` | CoroutineLibrary/timer.cpp:151-180 | A pass hands out exactly the members not due after now, or all after a rollover, and where it leaves each |
| `TimerRuns.StepKeepsInv` | CoroutineLibrary/timer.cpp:5-209 | Every operation keeps the set strictly sorted and made of live timers, every deadline within its interval of the clock, and every worker covered by its last read or woken since |
| `TimerRuns.NoLostWakeUp` | CoroutineLibrary/timer.cpp:123-209 | After any run: if the earliest deadline is earlier than the one a worker saw at its last `getNextTimer`, a front insertion has asked for a wake-up since, although all workers share one flag |
| `TimerRuns.RefreshMovesLater` | CoroutineLibrary/timer.cpp:26-46 | In every reachable state `refresh` leaves or moves later the deadline of its timer |
| `TimerRuns.OneShotFiresOnce` | CoroutineLibrary/timer.cpp:151-180 | Over any run a one-shot timer is handed out at most once, deadline collisions included |
| `TimerRuns.CancelledNeverFires` | CoroutineLibrary/timer.cpp:5-24 | Once `cancel` has run on a timer, no later operations hand it out, when each reset is one step; `TimerReset` has the reset in its two parts |
| `TimerReset.NoGapIsReset` | CoroutineLibrary/timer.cpp:48-77 | The two parts of a reset, with nothing between them, are the one-step reset |
| `TimerReset.RunKeepsSet` | CoroutineLibrary/timer.cpp:5-209 | Over every run with resets in two parts the set stays strictly sorted, no deadline is further off than its interval, and every worker is covered by its last read or woken since |
| `TimerReset.NoLostWakeUp` | CoroutineLibrary/timer.cpp:123-209 | With the gap too no wake-up is lost |
| `TimerReset.WriteBreaksIff` | CoroutineLibrary/timer.cpp:65-73 | Writing a new deadline to a timer outside the lock breaks the order of the set if and only if the timer is in the set and another member has that deadline or one between the old and the new |
| `TimerReset.GapsStayOut` | CoroutineLibrary/timer.cpp:30-63 | A timer stays out of the set while a reset has it in its gap, unless a refresh or another reset of it finds another timer at its deadline |
| `TimerReset.EveryResetEnds` | CoroutineLibrary/timer.cpp:65-74 | While that has not happened every reset can be ended without breaking the order |
| `TimerReset.ReturnsIff` | CoroutineLibrary/timer.cpp:48-77 | A cancelled or expired timer that is out of the set comes back to it if and only if the step is the second part of a reset of that timer and the new deadline is free; no step hands it out or opens a new gap for it |
| `TimerReset.GoneForGood` | CoroutineLibrary/timer.cpp:48-77 | So a timer that is gone, and that no reset has in its gap, is never handed out again |
| `TimerReset.CancelledOutsideGapNeverFires` | CoroutineLibrary/timer.cpp:5-24 | A timer cancelled while no reset has it in its gap is never handed out nor put back |
| `TimerReset.CancelInGapFires` | CoroutineLibrary/timer.cpp:65-74 | A run in which a timer is cancelled in the gap of its reset, put back without callback, and handed out |
| `TimerDead.DeadIsReachable` | CoroutineLibrary/timer.cpp:48-77 | A run from a fresh manager that leaves a recurring timer in the set without callback: it is cancelled in the gap of its reset |
| `TimerDead.Refused` | CoroutineLibrary/timer.cpp:5-64 | From then on `cancel`, `refresh` and `reset` of it change nothing |
| `TimerDead.RecurringStaysIff` | CoroutineLibrary/timer.cpp:160-178 | An expiry pass drops a due recurring timer if and only if another member has its next deadline already or an earlier one of the same period takes it first |
| `TimerDead.DeadLeavesIff` | CoroutineLibrary/timer.cpp:5-180 | A step takes a dead timer out of the set if and only if it erases the same deadline for another, live timer, or is an expiry that drops it or drains the set |
| `TimerDead.DeadForGood` | CoroutineLibrary/timer.cpp:5-180 | Over any run without such a clash it never leaves the set |
| `TimerDead.AloneForGood` | CoroutineLibrary/timer.cpp:5-180 | When it is the only timer there is, it never leaves whatever is done, until a timer is added |
| `TimerRuns.SleepEndsInTime` | CoroutineLibrary/ioscheduler.cpp:370-374 | The chosen sleep ends no later than any member's deadline, is 0 when one is overdue, and unless capped falls short of the earliest deadline by less than a millisecond (exact in `TimerRuns.SleepIs`) |
| `TimerRuns.SleepIs` | CoroutineLibrary/ioscheduler.cpp:370-374 | The sleep is 0 exactly when some member is due within the next millisecond, 5000 exactly when none is due before five seconds, the empty set included, and otherwise the whole milliseconds to some deadline |
| `TimerRuns.NoTimerIsForever` | CoroutineLibrary/timer.cpp:130-134 | With no timer the answer of `getNextTimer` is the largest 64-bit number |
| `TimerExpiry.ExpiryTerminatesIff` | CoroutineLibrary/timer.cpp:160-178 | The expiry loop ends if and only if no due recurring member has period 0, or a rollover is on, without another member already at its next deadline |
| `TimerExpiry.SafePeriods` | CoroutineLibrary/timer.cpp:160-178 | Periods of at least a millisecond without rollover, or no recurring timers with it, are enough |
| `TimerExpiry.UnstuckTerminates` | CoroutineLibrary/timer.cpp:160-178 | When nothing is stuck the loop ends after at most as many turns as there are due members, in the state the pass is said to end in |
| `TimerRuns.ZeroPeriodNeverEnds` | CoroutineLibrary/timer.cpp:160-178 | From a fresh manager, one recurring timer of period 0: the expiry loop does not end |
| `TimerRuns.RolloverNeverEnds` | CoroutineLibrary/timer.cpp:160-178 | From a fresh manager, one recurring timer of any period and a clock that has gone back by more than an hour: the expiry loop does not end |
| `TimerExpiry.PassTakesTheDue` | CoroutineLibrary/timer.cpp:151-180 | A pass hands out exactly the due members, once each and in deadline order, and changes no other timer |
| `TimerExpiry.PassLeaves` | CoroutineLibrary/timer.cpp:151-180 | Without rollover the deadlines left are those not yet due and now + period of each expired recurring timer |
| `TimerExpiry.RolloverDrains` | CoroutineLibrary/timer.cpp:160-178 | A rollover pass that ends hands out the whole set in order and empties it |
| `TimerMap.StepRefines` | CoroutineLibrary/timer.cpp:5-209 | Each operation does to the live timers what it means on a plain map; the set holds exactly the live timers afterwards if and only if the deadlines it inserts were free |
| `TimerMap.FreshRunIsExact` | CoroutineLibrary/timer.cpp:86-106 | While every insertion uses a free deadline, a timer is in the set exactly when it has a callback |
| `TimerMap.CollisionLosesATimer` | CoroutineLibrary/timer.cpp:86-90 | Two timers of one deadline: the second is not inserted, and cancelling it takes the first out for good |
| `TimerManager.Timer.constructor` | CoroutineLibrary/timer.cpp:79-84 | A new timer's deadline is its interval after now |
| `TimerManager.TimerManager.Locate` | CoroutineLibrary/timer.cpp:86-90 | Finds the lower bound of a deadline in the sorted set |
| `TimerManager.TimerManager.Insert` | CoroutineLibrary/timer.cpp:194-195 | In-place insertion at the lower bound, as the model inserts; says whether the element with that deadline is first |
| `TimerManager.TimerManager.Erase` | CoroutineLibrary/timer.cpp:18-22 | In-place removal of the element with that deadline |
| `TimerManager.TimerManager.Cancel` | CoroutineLibrary/timer.cpp:5-24 | New state and result as the model says |
| `TimerManager.TimerManager.Refresh` | CoroutineLibrary/timer.cpp:27-46 | New state and result as the model says |
| `TimerManager.TimerManager.Reset` | CoroutineLibrary/timer.cpp:48-77 | New state, result and wake-up as the model says |
| `TimerManager.TimerManager.AddTimer` | CoroutineLibrary/timer.cpp:101-106 | New timer, state and wake-up as the model says |
| `TimerManager.TimerManager.Enqueue` | CoroutineLibrary/timer.cpp:189-209 | Wakes up exactly when the timer came first and nobody was woken since the last read |
| `TimerManager.TimerManager.GetNextTimer` | CoroutineLibrary/timer.cpp:123-149 | Clears the flag and returns the milliseconds left, as the model says, which `TimerRuns.SleepIs` and `TimerRuns.NoTimerIsForever` state |
| `TimerManager.TimerManager.HasTimer` | CoroutineLibrary/timer.cpp:182-186 | Says whether the set has a member |
| `TimerManager.TimerManager.DetectClockRollover` | CoroutineLibrary/timer.cpp:211-221 | Says whether the clock went back by more than an hour and remembers it |
| `TimerManager.TimerManager.ListExpiredCb` | CoroutineLibrary/timer.cpp:151-180 | The loop ends, collects the callbacks the due members had, in deadline order, and leaves the state the model says |
| `TimerManager.CollectedAreTheDue` | CoroutineLibrary/timer.cpp:165-165 | The callbacks collected turn by turn are those of the due members, one each, in order |
| `BlockingProofs.StepKeepsInv` | CoroutineLibrary/hook.cpp:89-181 | Every step of any number of `do_io` and connect calls keeps timers, waits and flags tied to their calls |
| `BlockingProofs.RunKeepsInv` | CoroutineLibrary/hook.cpp:89-181 | The same after any run |
| `BlockingRuns.ExitLeavesNothing` | CoroutineLibrary/hook.cpp:151-180 | A call that has returned, after any number of EINTR and EAGAIN rounds and either order of readiness and timeout, has no timer in the set and no wait registered |
| `BlockingRuns.TimesOutOnlyLate` | CoroutineLibrary/hook.cpp:137-176 | A call fails with ETIMEDOUT, or is flagged, only when at least its timeout has passed since it began, also when a callback of an earlier round did it; that a flagged call does fail so is `BlockingOutcomes.FlaggedOnlyTimesOut` |
| `BlockingOutcomes.ResultIff` | CoroutineLibrary/hook.cpp:112-181 | How any run leaves any call: a value exactly when an attempt reported it, or a connect's socket showed no error; an error exactly when an attempt or the registration failed, or the socket showed one; ETIMEDOUT exactly when the call decided after a wait with its flag set |
| `BlockingOutcomes.TimeoutIsDelivered` | CoroutineLibrary/hook.cpp:135-176 | A waiting call whose timeout is to come and whose callback is queued fails with ETIMEDOUT once the callback has run and its fiber is resumed |
| `BlockingOutcomes.AfterTheWait` | CoroutineLibrary/hook.cpp:163-179 | A call resumed after its wait fails with ETIMEDOUT if it is flagged; otherwise `do_io` tries again and a connect asks for the socket's error |
| `BlockingOutcomes.FlaggedOnlyTimesOut` | CoroutineLibrary/hook.cpp:172-176 | In every run a flagged call that waits or has been resumed has no other end |
| `BlockingOutcomes.TimeoutFromFresh` | CoroutineLibrary/hook.cpp:112-176 | From a fresh system, for every timeout: no data comes, and the call fails with ETIMEDOUT |
| `BlockingOutcomes.GoesOnIff` | CoroutineLibrary/hook.cpp:112-179 | Exactly which steps make a call arm a timer, try again, or ask for the socket's error |
| `BlockingOutcomes.InterruptedTriesAgain` | CoroutineLibrary/hook.cpp:116-119 | An attempt that `do_io` finds interrupted is made again with nothing else changed |
| `BlockingOutcomes.RegisterWaitsIff` | CoroutineLibrary/hook.cpp:151-163 | A call that registers waits exactly when its descriptor has no such event yet; else registering has failed |
| `BlockingRuns.FinishedIsUntouched` | CoroutineLibrary/hook.cpp:140-144 | No step changes a finished call, and its timeout callback leaves the reactor alone |
| `BlockingRuns.FinishedForGood` | CoroutineLibrary/hook.cpp:140-144 | The same for whole runs |
| `BlockingRuns.CallbackWakesIff` | CoroutineLibrary/hook.cpp:137-148 | Running its timeout callback ends a call's wait if and only if the flag was not yet set |
| `BlockingTimeouts.ComingStep` | CoroutineLibrary/hook.cpp:135-171 | Exactly what each step does to the timeout of a call that waits or is about to: it is still to come unless the step runs the callback, or is a cancel, refresh or reset of another timer of the same deadline |
| `BlockingTimeouts.ComingAlong` | CoroutineLibrary/hook.cpp:135-171 | Over any stretch in which a call waits or is about to, its timeout is still to come at the end exactly when it was at the start and no step lost it |
| `BlockingTimeouts.ComingAfterArm` | CoroutineLibrary/hook.cpp:135-144 | Arming brings the timeout on its way if and only if the flag is unset and the new deadline is free, or an earlier round's callback is still queued |
| `BlockingTimeouts.OnlyComingWakes` | CoroutineLibrary/hook.cpp:137-148 | A callback that runs while its call waits ends the wait exactly when the timeout was still to come |
| `BlockingTimeouts.LeavesIff` | CoroutineLibrary/timer.cpp:5-180 | A one-shot timer that nobody cancels, refreshes or resets leaves the set by its expiry, or when the erase of another timer of the same deadline hits it, and in no other way |
| `BlockingRuns.StrandedIff` | CoroutineLibrary/hook.cpp:145-151 | A call becomes stranded, waiting with its flag set, in one way: its callback runs while it is not registered, and it registers afterwards |
| `BlockingRuns.LateRegistrationStrands` | CoroutineLibrary/hook.cpp:135-163 | Whenever the callback of a call that has armed its timer runs before the call registers, the call ends up waiting with its flag set |
| `BlockingRuns.StrandingIsReachable` | CoroutineLibrary/hook.cpp:135-163 | A run from a fresh system to such a state, for every timeout |
| `BlockingTimeouts.FreshStrandedIff` | CoroutineLibrary/hook.cpp:135-171 | In every run that inserts free deadlines only, the timeout of a waiting call will not come if and only if it is stranded |
| `BlockingTimeouts.CollisionIsReachable` | CoroutineLibrary/hook.cpp:135-163 | A run from a fresh system: two calls of one timeout arm in the same tick, the second one's timer is not inserted, and it waits without a timeout though not stranded |
| `BlockingTimeouts.WaitingIffComing` | CoroutineLibrary/hook.cpp:135-171 | The same read off the state at the end of any run: the timeout of a waiting call will not come exactly when the call is stranded, or its live timer was kept out or taken out of the set by another of the same deadline |
| `BlockingRuns.StepKeepsArmed` | CoroutineLibrary/hook.cpp:135-171 | No step takes from a call that waits, or is about to, both its live timer and its queued callback |
| `BlockingRuns.WaitingMeansArmedOrStranded` | CoroutineLibrary/hook.cpp:135-171 | In every run a waiting call with a timeout is stranded, or its callback is queued, or its timer is live; live means in the set only where no deadlines collided, which `BlockingTimeouts` makes exact |
| `Wire.VarintRoundTrip` | RPC/rpcheader.pb.cc:272-272 | A written varint is read back, whatever follows (its bytes are in `WireValues.VarintIsItsGroups`) |
| `Wire.VarintSizeIs` | RPC/rpcheader.pb.cc:332-334 | The size is the number of groups of seven bits |
| `WireValues.VarintIsItsGroups` | RPC/rpcheader.pb.cc:272-272 | A written varint has the continuation bit on all bytes but the last, and the low seven bits of its bytes, the first the least significant, add up to the number |
| `WireValues.ReadIsItsGroups` | RPC/rpcheader.pb.cc:258-291 | Whoever wrote the bytes: reading takes them up to the first without continuation bit, which must be in the budget, and gives the sum of their groups |
| `WireValues.TagKeepsLowBits` | RPC/rpcheader.pb.cc:180-182 | A tag is read from at most five bytes and keeps its low 32 bits |
| `WireValues.ValueKeepsLowBits` | RPC/rpcheader.pb.cc:201-206 | A value is read from at most ten bytes and keeps its low 64 bits |
| `WireValues.RecordBytes` | RPC/rpcheader.pb.cc:258-291 | A record is its tag, field number and wire type, and then the value |
| `WireValues.ValueBytes` | RPC/rpcheader.pb.cc:230-241 | What is read behind a tag, by its wire type: 3, 4, 6 and 7 are refused |
| `Wire.FieldRoundTrip` | RPC/rpcheader.pb.cc:258-291 | A written record is read back, whatever follows |
| `Wire.FieldsRoundTrip` | RPC/rpcheader.pb.cc:258-299 | Written records are read back in order, and reading goes on with what follows |
| `Wire.FieldsThenMore` | RPC/rpcheader.pb.cc:179-242 | Any byte string that reads as records, however encoded, reads as the same records when more follows |
| `MessageProofs.ParseIsTake` | RPC/rpcheader.pb.cc:179-242 | A parse loop does what reading all records and then taking them one by one does, failures included |
| `MessageProofs.HeaderRoundTrip` | RPC/rpcheader.pb.cc:176-299 | parse(serialise(m)) = m for every header, unknown fields included |
| `WireValues.HeaderLayout` | RPC/rpcheader.pb.cc:258-299 | A serialised header byte by byte: tags 10, 18, 24, 32, 42 and 48 with their values, defaults left out, and the unknown records |
| `WireValues.HeaderTags` | RPC/rpcheader.pb.cc:183-241 | Which tags the header takes for what, keeping the low 32 bits of numbers; every other record is kept as unknown |
| `WireValues.ThreeHundred` | RPC/rpcheader.pb.cc:272-272 | `args_size` 300 goes out as 24, 172, 2 and comes back from it |
| `MessageProofs.HeaderConcatIsMerge` | RPC/rpcheader.pb.cc:375-400 | parse(serialise(a) ++ serialise(b)) is a merged with b |
| `MessageProofs.HeaderReparses` | RPC/rpcheader.pb.cc:176-299 | What was parsed from any bytes is parsed again from its own serialisation |
| `MessageBytes.HeaderBytesConcatIff` | RPC/rpcheader.pb.cc:375-400 | For byte strings of any writer, parsing the concatenation is merging exactly when the second writes out no default over a field the first had set |
| `MessageBytes.ExplicitZeroResets` | RPC/rpcheader.pb.cc:391-393 | Bytes for which it is not: an explicit `args_size` of 0 resets what a merge would keep |
| `MessageBytes.CodeBytesConcatIff` | example/rpc.pb.cc:327-340 | The same condition, exact, for ResultCode |
| `MessageBytes.ResponseTakenFrom` | example/rpc.pb.cc:648-696 | Over any records, all `result` records together act as the records nested in them, taken in order, and `val` and unknown ones only append |
| `MessageBytes.ResponseBytesConcatIff` | example/rpc.pb.cc:773-784 | For GetListResponse bytes of any writer, concatenation is merging exactly when the second one's nested records, taken together, write out no default over a field the first one's nested message had set |
| `MessageProofs.SignRoundTrip` | example/rpc.pb.cc:221-221 | Sign extension to 64 bits and truncation to 32 bring every int32 back |
| `MessageProofs.NegativeTakesTen` | example/rpc.pb.cc:261-265 | A negative `errcode` goes out as a varint of ten bytes |
| `MessageProofs.CodeRoundTrip` | example/rpc.pb.cc:210-279 | parse(serialise(m)) = m for every ResultCode |
| `WireValues.CodeLayout` | example/rpc.pb.cc:255-279 | A serialised ResultCode byte by byte: tag 8 with the number in two's complement of 64 bits, tag 18, and the unknown records |
| `WireValues.CodeTags` | example/rpc.pb.cc:213-245 | Which tags ResultCode takes, the number up to its low 32 bits |
| `MessageProofs.CodeConcatIsMerge` | example/rpc.pb.cc:327-340 | Concatenation is merging for ResultCode |
| `MessageProofs.ResponseRoundTrip` | example/rpc.pb.cc:648-724 | parse(serialise(m)) = m for every GetListResponse, with a nested message that is absent, empty or full |
| `WireValues.ResponseLayout` | example/rpc.pb.cc:698-724 | A serialised GetListResponse byte by byte: tag 10 with the nested message if there is one, tag 18 with every value, and the unknown records |
| `WireValues.ResponseTags` | example/rpc.pb.cc:651-688 | Which tags GetListResponse takes |
| `MessageProofs.ResponseConcatIsMerge` | example/rpc.pb.cc:773-784 | Concatenation is merging: `val` entries append, and `result` merges field by field, also when present but empty |
| `MessageProofs.ResponseReparses` | example/rpc.pb.cc:648-724 | What was parsed from any bytes is parsed again from its own serialisation |
| `MessageProofs.NestedFits` | example/rpc.pb.cc:704-710 | The nested message fits whenever the message does |
| `GeneratedMessages.RpcHeader.InternalParse` | RPC/rpcheader.pb.cc:176-249 | The loop over tags fills the fields in place as taking the records does, and fails exactly when that fails |
| `GeneratedMessages.RpcHeader.InternalSerialize` | RPC/rpcheader.pb.cc:251-299 | Appends the serialised message, whose bytes `WireValues.HeaderLayout` states |
| `GeneratedMessages.RpcHeader.ByteSizeLong` | RPC/rpcheader.pb.cc:301-358 | Is the length of the serialised message |
| `GeneratedMessages.RpcHeader.MergeFrom` | RPC/rpcheader.pb.cc:375-400 | Merges in place as the model merges |
| `GeneratedMessages.ResultCode.InternalParse` | example/rpc.pb.cc:210-253 | As for the header, with a 64-bit read truncated to 32 |
| `GeneratedMessages.ResultCode.InternalSerialize` | example/rpc.pb.cc:255-279 | Appends the serialised message, whose bytes `WireValues.CodeLayout` states |
| `GeneratedMessages.ResultCode.ByteSizeLong` | example/rpc.pb.cc:281-310 | Is the length of the serialised message |
| `GeneratedMessages.ResultCode.MergeFrom` | example/rpc.pb.cc:327-340 | Merges in place as the model merges |
| `GeneratedMessages.GetListResponse.InternalParse` | example/rpc.pb.cc:648-696 | As for the header; a `result` record is parsed into the present nested object, made on first use |
| `GeneratedMessages.GetListResponse.ParseVals` | example/rpc.pb.cc:665-673 | The inner loop takes `val` records as long as the next tag byte is theirs, with the effect of the outer loop |
| `GeneratedMessages.GetListResponse.InternalSerialize` | example/rpc.pb.cc:698-724 | Appends the serialised message, nested message first, as `WireValues.ResponseLayout` states |
| `GeneratedMessages.GetListResponse.ByteSizeLong` | example/rpc.pb.cc:726-756 | Is the length of the serialised message |
| `GeneratedMessages.GetListResponse.MergeFrom` | example/rpc.pb.cc:773-784 | Merges in place, the nested message into the present one, and leaves the other message as it was |
| `AddressProofs.V6IsLossless` | util/address.cc:412-436 | Expanding the printed text by section 2.2 of RFC 4291 gives back all eight groups of every address, wherever its zeros are |
| `AddressCases.DoubleIsFirstRun` | util/address.cc:412-433 | The "::" of a printed address stands for the first run of zero groups and for all of it; without it no group is zero |
| `AddressCases.PrintIsPlain` | util/address.cc:427-427 | Numbers are printed in lower case without leading zeros |
| `AddressCases.Loopback` | util/address.cc:321-326 | The address 7f000001 is printed 127.0.0.1 |
| `Address.IPv6Address.GroupsAreTheBytes` | util/address.cc:414-427 | The groups that are printed are the sixteen bytes in network order |
| `AddressProofs.V4IsLossless` | util/address.cc:321-326 | Reading the dotted text gives back every IPv4 address |
| `AddressProofs.V6SplitsBack` | util/address.cc:69-78 | The splitter takes the printed form of an IPv6 address apart into exactly the address text and the port text, and both read back |
| `AddressProofs.V4SplitsBack` | util/address.cc:81-89 | The same for IPv4 |
| `AddressProofs.BracketedSplits` | util/address.cc:69-78 | Any text in brackets, with any service behind, is split there |
| `AddressProofs.PlainSplits` | util/address.cc:81-89 | Host and service with a single colon are split at the colon |
| `AddressCases.BracketedIff` | util/address.cc:69-78 | Which texts count as bracketed |
| `AddressCases.BracketedAlone` | util/address.cc:69-78 | A bracketed text with no colon right behind the bracket is a node without service |
| `AddressCases.NoColon` | util/address.cc:81-93 | Without brackets and colon the whole text is the node, and there is no service |
| `AddressCases.OneColon` | util/address.cc:81-89 | Without brackets one colon separates node and service |
| `AddressCases.MoreColons` | util/address.cc:81-93 | Without brackets and with more colons the whole text is the node, and the service begins with the first colon |
| `AddressCases.NoOtherHost` | util/address.cc:65-93 | These cases are all there are |
| `AddressCases.CStringIs` | util/address.cc:94-94 | A NUL ends what is handed over, and without one it is handed over whole |
| `AddressProofs.ServiceKeepsColonIff` | util/address.cc:82-88 | Outside brackets the service handed over begins with a colon exactly when the text has two colons |
| `AddressProofs.BareV6KeepsColon` | util/address.cc:82-88 | So it does for the text of every IPv6 address given without brackets |
| `AddressProofs.NoHostNamesItself` | util/address.cc:91-93 | A service without host is looked up with the whole text, colon included, as its host |
| `Address.IPv6Address.constructor` | util/address.cc:393-398 | Copies the sixteen bytes and the port |
| `Address.IPv6Address.Insert` | util/address.cc:412-436 | The loop prints the bracketed text, the first run of zeros as "::", and the port |
| `Address.IPv4Address.Insert` | util/address.cc:321-329 | Prints the dotted text and the port |
| `Address.SplitHost` | util/address.cc:65-93 | Computes the arguments of `getaddrinfo` as described case by case, in the cases of `AddressCases` |

## Left out

- Real system calls, epoll, pipes, `ucontext`, threads, `dlsym` and clocks: they are parameters, an abstract interest map, or steps of a worker.
- Memory-model matters: the write of `m_tickled` under a shared lock, the iterator used after `erase`, caching of thread-local variables across a context switch; the evident sequential meaning is taken.
- TimerManager.TimerManager.Reset: the erasure, the rewriting of the fields outside the lock and the insertion are one step here; `TimerReset` has them in two, with anything in between. Deadlines are unbounded integers, so overflow of the 64-bit clock is not modelled.
- TimerReset.GoneForGood: runs end where a write to a timer that was put back in its gap breaks the order of the set, by the exact condition of `TimerReset.WriteBreaksIff`; what the tree does from then on is not modelled. The same holds for the other results of `TimerReset` and `TimerDead` about runs.
- TimerRuns.CancelledNeverFires: a reset is one step there; `TimerReset.CancelledOutsideGapNeverFires` is the statement for the reset in two parts.
- TimerManager.TimerManager.ListExpiredCb: requires that the loop ends, by the exact condition that `TimerExpiry.ExpiryTerminatesIff` gives.
- TimerRuns.NoLostWakeUp: assumes a clock that does not go back; what a woken worker does next, and how soon, is not modelled.
- Timers made with an empty callback: a timer without callback counts as cancelled.
- IOManager.IOManager.AddEvent: the lookup and the growth of the table are one step, and growth never shrinks the table, so the missing size check after the write lock is taken is not modelled; epoll is taken to succeed on the requests proved legal, so the paths that return -1 from a bool function are not.
- Descriptors closed, and dropped from the interest map by the kernel, before their events are cancelled.
- Nested `resume` of one task fiber by another, and fibers that do not run in the scheduler, other than the scheduler's own.
- Which worker a wake-up reaches, and any property that needs fair scheduling.
- Threads that are not workers push tasks, arm timers and register events until `stop` is called, and not after it: the shutdown results are about what the workers do then.
- SchedulerDrain.CompletesIff: the scheduler's collecting step is an expiry pass that ends; one that does not, by the exact condition of `TimerExpiry.ExpiryTerminatesIff` (a recurring timer of period 0, or any at a rollover), stops its worker and with it the shutdown. The result says that some continuation completes, in which timers expire, events are reported, and code of users cancels the recurring timers and ends; that every fair one does is not stated, and a recurring timer that no code ever cancels prevents it (`SchedulerHeld.ArmedHolds`). Continuations in which a collision takes a dead timer out are outside it; `SchedulerHeld.DoomedForGood` covers collisions where no code is left to run.
- Which timer and which event the scheduler's steps are about: timers are counted by kind there, the waiter of a reported event is any fiber or callback, and code of users may change the counts at will.
- Thread creation, `start`, and the base class's own `idle`: a worker enters `run` at any step, and its idle fiber is that of `IOManager`.
- The calls that `do_io` and `connect_with_timeout` pass straight through or refuse: hooks off, a descriptor unknown, closed, not a socket, or non-blocking by the user's wish.
- The hooks other than `do_io` and `connect_with_timeout`, and the flags kept per descriptor by `FdManager`.
- BlockingProofs.StepKeepsInv: `do_io` and `connect_with_timeout` are steps of a state machine on values, not methods with a loop, because a call gives up its worker in the middle and may retry for ever; the same holds for the endless loops of `run` and `idle`.
- BlockingRuns.ExitLeavesNothing: a call whose fiber is resumed by anything but its own event is not modelled.
- MessageProofs.HeaderRoundTrip: for messages whose serialised size fits an int, as the cached size is one, and whose unknown fields are what parsing leaves there; the same holds for the other two messages.
- GeneratedMessages.RpcHeader.InternalParse: groups in unknown fields are refused, and an end-group or zero tag fails the parse; the same holds for the other two messages.
- Wire.FieldRoundTrip: lengths are varints of up to ten bytes; the tighter limits of the library's own reader are not modelled.
- Arenas, reflection, descriptors, swap, accessors and the message without an interesting field, GetListRequest.
- Subnet arithmetic, `CreateMask`, `CountBytes`, interface enumeration, Unix and unknown addresses.
- `FdManager`, `Config`, `Semaphore`, `Thread`, `Singleton`, sockets, TLS and TCP server wrappers, channel, provider and the registry: wrappers or logic that would add only easy members, or whose source is not part of this model.
