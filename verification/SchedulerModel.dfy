/** The M:N scheduler and its fibers as a state machine: N workers share one task queue, run each task under
    its fiber's mutex, and leave once their idle fiber has ended. Every step is one lock-delimited action. */
module SchedulerModel {
  import opened Common

  /** What a task without a chosen thread carries in `thread`. */
  const ANY_THREAD: int := -1

  type FiberId = nat

  datatype FiberState = READY | RUNNING | TERM

  /** A fiber and the worker that holds its mutex. */
  datatype Fiber = Fiber(state: FiberState, holder: Option<nat>)

  /** `token` numbers the pushes; the program has no such field. */
  datatype ScheduleTask = ScheduleTask(token: nat, fiber: Option<FiberId>, cb: bool, thread: int)

  /** The thread's current-fiber pointer. */
  datatype Current = OnScheduler | OnIdle | OnTask(f: FiberId)

  /** Where a worker is in `run`. With a task in hand: taken, holding the mutex, found not to be TERM, running it,
      past its end, about to unlock, about to count it out. Without: at the idle fiber, then in `idle`, where
      `stopping` is three separate reads, or the end of the loop, or a pass: asleep; with callbacks of expired timers
      collected and `owed` to the queue, and after those the reported events; or with the waiter of one of these
      scheduled and the event not yet counted out. */
  datatype Phase =
    | Outside | Scanning
    | Taken(task: ScheduleTask)
    | Locked(task: ScheduleTask, f: FiberId)
    | Checked(task: ScheduleTask, f: FiberId)
    | Running(task: ScheduleTask, f: FiberId)
    | Ending(task: ScheduleTask, f: FiberId)
    | Unlocking(task: ScheduleTask, f: FiberId)
    | Releasing(task: ScheduleTask)
    | NoTask | IdleTop | NoTimers | NoPending | IdlePass | Scheduling(owed: nat) | Counting | IdleOver
    | Exited

  datatype Worker = Worker(phase: Phase, idle: FiberState, current: Current)

  /** Worker `worker` took push number `token`. */
  datatype Take = Take(token: nat, worker: nat)

  /** How many timers are in the set: one-shot and recurring ones with a callback, and one-shot (`blank`) and recurring
      ones (`dead`) that were cancelled in the gap of a reset and put back without. */
  datatype Armed = Armed(once: nat, recurring: nat, blank: nat, dead: nat)

  const UNARMED: Armed := Armed(0, 0, 0, 0)

  /** What an expiry pass may take and leave. Recurring timers go back, unless their next deadline is taken; of
      recurring timers alone one stays. */
  predicate Passes(before: Armed, taken: Armed, left: Armed) {
    && taken.recurring <= before.recurring && taken.dead <= before.dead
    && before.once == taken.once + left.once && before.blank == taken.blank + left.blank
    && before.recurring - taken.recurring <= left.recurring <= before.recurring
    && before.dead - taken.dead <= left.dead <= before.dead
    && (before.once == 0 && before.blank == 0 && before != UNARMED ==> left != UNARMED)
  }

  /** `timers` are the armed timers and `pending` counts the events. `pins` (the chosen thread of each
      push), `finished` and `log` (the takes, in order) record the run. */
  datatype State = State(
    workers: seq<Worker>, fibers: seq<Fiber>, queue: seq<ScheduleTask>, active: int, idlers: int, stopping: bool,
    timers: Armed, pending: nat, pins: seq<int>, finished: multiset<nat>, log: seq<Take>)

  // ---------------------------------------------------------------- one fiber

  /** `resume`: asserts READY. */
  function Resumed(state: FiberState): Option<FiberState> { if state == READY then Some(RUNNING) else None }

  /** `yield`: asserts RUNNING or TERM. */
  function Yielded(state: FiberState): Option<FiberState> {
    if state == RUNNING then Some(READY) else if state == TERM then Some(TERM) else None
  }

  // ---------------------------------------------------------------- the queue

  /** The scan does not pass this task over. */
  predicate Eligible(thread: int, worker: int) { thread == ANY_THREAD || thread == worker }

  /** Where the scan stops: at the first task it may take, or at the end. */
  function FirstFor(queue: seq<ScheduleTask>, worker: int): (k: nat)
    ensures k <= |queue|
    ensures forall i | 0 <= i < k :: !Eligible(queue[i].thread, worker)
    ensures k < |queue| ==> Eligible(queue[k].thread, worker)
  {
    if queue == [] || Eligible(queue[0].thread, worker) then 0 else 1 + FirstFor(queue[1..], worker)
  }

  function Without(queue: seq<ScheduleTask>, k: nat): (r: seq<ScheduleTask>)
    requires k < |queue|
    ensures |r| == |queue| - 1
    ensures forall i | 0 <= i < |r| :: r[i] == if i < k then queue[i] else queue[i + 1]
  {
    queue[..k] + queue[k + 1..]
  }

  /** `Scheduler::stopping`, read under the scheduler's lock. */
  predicate SchedulerStopping(s: State) { s.stopping && s.queue == [] && s.active == 0 }

  // ---------------------------------------------------------------- steps

  /** Who pushes: a worker's running task, or code outside the workers. */
  datatype Pusher = ByWorker(w: nat) | FromOutside

  datatype Step =
    | Enter(w: nat)
    | Push(who: Pusher, fiber: Option<FiberId>, cb: bool, thread: int)
    | NewFiber(who: Pusher)
    | Reset(who: Pusher, f: FiberId)
    | Adjust(who: Pusher, timers: Armed, pending: nat)
    | Stop
    | Scan(w: nat)
    | Lock(w: nat)
    | Spawn(w: nat)
    | Check(w: nat)
    | Resume(w: nat)
    | Yield(w: nat)
    | Finish(w: nat)
    | FinalYield(w: nat)
    | Unlock(w: nat)
    | Release(w: nat)
    | IdleResume(w: nat)
    | ReadTimers(w: nat)
    | ReadPending(w: nat)
    | ReadQueue(w: nat)
    | Collect(w: nat, taken: Armed, left: Armed)
    | Fire(w: nat)
    | Trigger(w: nat, fiber: Option<FiberId>)
    | CountEvent(w: nat)
    | IdleYield(w: nat)
    | IdleReturn(w: nat)
    | Exit(w: nat)

  predicate In(s: State, w: nat, phase: Phase) { w < |s.workers| && s.workers[w].phase == phase }

  predicate RunsCode(s: State, who: Pusher) {
    who.FromOutside? || (who.w < |s.workers| && s.workers[who.w].phase.Running?)
  }

  /** User code that pushes, arms or registers; after `stop` only tasks do. */
  predicate Acting(s: State, who: Pusher) { RunsCode(s, who) && (who.FromOutside? ==> !s.stopping) }

  predicate Enabled(s: State, step: Step) {
    match step
    case Enter(w) => In(s, w, Outside)
    case Push(who, fiber, _, _) => Acting(s, who) && (fiber.Some? ==> fiber.value < |s.fibers|)
    case NewFiber(who) => RunsCode(s, who)
    case Reset(who, f) => RunsCode(s, who) && f < |s.fibers| && s.fibers[f].state == TERM
    case Adjust(who, _, pending) => Acting(s, who) && Count(s.workers, IsCounting) <= pending
    case Stop => true
    case Scan(w) => In(s, w, Scanning)
    case Lock(w) =>
      && w < |s.workers| && s.workers[w].phase.Taken?
      && var task := s.workers[w].phase.task;
      task.fiber.Some? && task.fiber.value < |s.fibers| && s.fibers[task.fiber.value].holder.None?
    case Spawn(w) => w < |s.workers| && s.workers[w].phase.Taken? && s.workers[w].phase.task.fiber.None?
    case Check(w) => w < |s.workers| && s.workers[w].phase.Locked? && s.workers[w].phase.f < |s.fibers|
    case Resume(w) => w < |s.workers| && s.workers[w].phase.Checked? && s.workers[w].phase.f < |s.fibers|
    case Yield(w) => w < |s.workers| && s.workers[w].phase.Running? && CurrentTask(s, w).Some?
    case Finish(w) => w < |s.workers| && s.workers[w].phase.Running? && CurrentTask(s, w).Some?
    case FinalYield(w) => w < |s.workers| && s.workers[w].phase.Ending? && CurrentTask(s, w).Some?
    case Unlock(w) => w < |s.workers| && s.workers[w].phase.Unlocking? && s.workers[w].phase.f < |s.fibers|
    case Release(w) => w < |s.workers| && s.workers[w].phase.Releasing?
    case IdleResume(w) => In(s, w, NoTask) && s.workers[w].idle != TERM
    case ReadTimers(w) => In(s, w, IdleTop)
    case ReadPending(w) => In(s, w, NoTimers)
    case ReadQueue(w) => In(s, w, NoPending)
    case Collect(w, taken, left) => In(s, w, IdlePass) && Passes(s.timers, taken, left)
    case Fire(w) => w < |s.workers| && s.workers[w].phase.Scheduling? && s.workers[w].phase.owed > 0
    case Trigger(w, fiber) =>
      In(s, w, Scheduling(0)) && Count(s.workers, IsCounting) < s.pending && (fiber.Some? ==> fiber.value < |s.fibers|)
    case CountEvent(w) => In(s, w, Counting) && s.pending > 0
    case IdleYield(w) => In(s, w, Scheduling(0))
    case IdleReturn(w) => In(s, w, IdleOver)
    case Exit(w) => In(s, w, NoTask) && s.workers[w].idle == TERM
  }

  /** `Fiber::GetThis()` on worker `w`, when that is a task's fiber. */
  function CurrentTask(s: State, w: nat): (f: Option<FiberId>)
    requires w < |s.workers|
    ensures f.Some? ==> f.value < |s.fibers|
  {
    match s.workers[w].current
    case OnTask(f) => if f < |s.fibers| then Some(f) else None
    case _ => None
  }

  /** An assertion of `resume`, `yield` or the scan fails. */
  predicate Fails(s: State, step: Step)
    requires Enabled(s, step)
  {
    match step
    case Scan(w) =>
      var k := FirstFor(s.queue, w);
      k < |s.queue| && s.queue[k].fiber.None? && !s.queue[k].cb
    case Resume(w) => Resumed(s.fibers[s.workers[w].phase.f].state).None?
    case Yield(w) => Yielded(s.fibers[CurrentTask(s, w).value].state).None?
    case FinalYield(w) => Yielded(s.fibers[CurrentTask(s, w).value].state).None?
    case IdleResume(w) => Resumed(s.workers[w].idle).None?
    case IdleYield(w) => Yielded(s.workers[w].idle).None?
    case IdleReturn(w) => Yielded(TERM).None?
    case _ => false
  }

  function At(s: State, w: nat, phase: Phase): State
    requires w < |s.workers|
  {
    s.(workers := s.workers[w := s.workers[w].(phase := phase)])
  }

  /** The same, with the current-fiber pointer moved as well. */
  function On(s: State, w: nat, phase: Phase, current: Current): State
    requires w < |s.workers|
  {
    s.(workers := s.workers[w := s.workers[w].(phase := phase, current := current)])
  }

  function SetState(s: State, f: FiberId, state: FiberState): State
    requires f < |s.fibers|
  {
    s.(fibers := s.fibers[f := s.fibers[f].(state := state)])
  }

  /** The queue has one more task. */
  function Pushed(s: State, fiber: Option<FiberId>, cb: bool, thread: int): State {
    s.(queue := s.queue + [ScheduleTask(|s.pins|, fiber, cb, thread)], pins := s.pins + [thread])
  }

  function Apply(s: State, step: Step): State
    requires Enabled(s, step) && !Fails(s, step)
  {
    match step
    case Enter(w) => At(s, w, Scanning)
    case Push(_, fiber, cb, thread) =>
      if fiber.None? && !cb then s else Pushed(s, fiber, cb, thread)
    case NewFiber(_) => s.(fibers := s.fibers + [Fiber(READY, None)])
    case Reset(_, f) => SetState(s, f, READY)
    case Adjust(_, timers, pending) => s.(timers := timers, pending := pending)
    case Stop => s.(stopping := true)
    case Scan(w) =>
      var k := FirstFor(s.queue, w);
      if k == |s.queue| then At(s, w, NoTask)
      else
        At(s, w, Taken(s.queue[k])).(
          queue := Without(s.queue, k), active := s.active + 1, log := s.log + [Take(s.queue[k].token, w)])
    case Lock(w) =>
      var task := s.workers[w].phase.task;
      var f := task.fiber.value;
      At(s, w, Locked(task, f)).(fibers := s.fibers[f := s.fibers[f].(holder := Some(w))])
    case Spawn(w) =>
      // a callback gets a fiber of its own, locked before anyone else can know it
      At(s, w, Checked(s.workers[w].phase.task, |s.fibers|)).(fibers := s.fibers + [Fiber(READY, Some(w))])
    case Check(w) =>
      var Locked(task, f) := s.workers[w].phase;
      At(s, w, if s.fibers[f].state != TERM then Checked(task, f) else Unlocking(task, f))
    case Resume(w) =>
      var Checked(task, f) := s.workers[w].phase;
      On(SetState(s, f, Resumed(s.fibers[f].state).value), w, Running(task, f), OnTask(f))
    case Yield(w) =>
      var Running(task, f) := s.workers[w].phase;
      var me := CurrentTask(s, w).value;
      On(SetState(s, me, Yielded(s.fibers[me].state).value), w, Unlocking(task, f), OnScheduler)
    case Finish(w) =>
      var Running(task, f) := s.workers[w].phase;
      At(SetState(s, CurrentTask(s, w).value, TERM), w, Ending(task, f))
    case FinalYield(w) =>
      var Ending(task, f) := s.workers[w].phase;
      var me := CurrentTask(s, w).value;
      On(SetState(s, me, Yielded(s.fibers[me].state).value), w, Unlocking(task, f), OnScheduler)
    case Unlock(w) =>
      var Unlocking(task, f) := s.workers[w].phase;
      At(s, w, Releasing(task)).(fibers := s.fibers[f := s.fibers[f].(holder := None)])
    case Release(w) =>
      At(s, w, Scanning).(active := s.active - 1, finished := s.finished + multiset{s.workers[w].phase.task.token})
    case IdleResume(w) =>
      s.(workers := s.workers[w := Worker(IdleTop, Resumed(s.workers[w].idle).value, OnIdle)], idlers := s.idlers + 1)
    case ReadTimers(w) => At(s, w, if s.timers == UNARMED then NoTimers else IdlePass)
    case ReadPending(w) => At(s, w, if s.pending == 0 then NoPending else IdlePass)
    case ReadQueue(w) => At(s, w, if SchedulerStopping(s) then IdleOver else IdlePass)
    case Collect(w, taken, left) => At(s, w, Scheduling(taken.once + taken.recurring)).(timers := left)
    case Fire(w) => Pushed(At(s, w, Scheduling(s.workers[w].phase.owed - 1)), None, true, ANY_THREAD)
    case Trigger(w, fiber) => Pushed(At(s, w, Counting), fiber, fiber.None?, ANY_THREAD)
    case CountEvent(w) => At(s, w, Scheduling(0)).(pending := s.pending - 1)
    case IdleYield(w) =>
      s.(workers := s.workers[w := Worker(Scanning, Yielded(s.workers[w].idle).value, OnScheduler)],
        idlers := s.idlers - 1)
    case IdleReturn(w) =>
      s.(workers := s.workers[w := Worker(Scanning, Yielded(TERM).value, OnScheduler)], idlers := s.idlers - 1)
    case Exit(w) => At(s, w, Exited)
  }

  predicate Init(s: State) {
    && |s.workers| > 0 && (forall w | 0 <= w < |s.workers| :: s.workers[w] == Worker(Outside, READY, OnScheduler))
    && (forall f | 0 <= f < |s.fibers| :: s.fibers[f] == Fiber(READY, None))
    && s.queue == [] && s.active == 0 && s.idlers == 0 && !s.stopping
    && s.pins == [] && s.finished == multiset{} && s.log == []
  }

  /** The state after `steps`; None once a step is impossible or fails an assertion. */
  function Run(s: State, steps: seq<Step>): Option<State>
    decreases |steps|
  {
    if steps == [] then Some(s)
    else if !Enabled(s, steps[0]) || Fails(s, steps[0]) then None
    else Run(Apply(s, steps[0]), steps[1..])
  }

  // ---------------------------------------------------------------- the invariant

  /** The fiber whose mutex a worker holds. */
  function MutexOf(phase: Phase): Option<FiberId> {
    match phase
    case Locked(_, f) => Some(f)
    case Checked(_, f) => Some(f)
    case Running(_, f) => Some(f)
    case Ending(_, f) => Some(f)
    case Unlocking(_, f) => Some(f)
    case _ => None
  }

  /** The task a worker has taken and not yet counted out. */
  function InHand(phase: Phase): Option<ScheduleTask> {
    match phase
    case Taken(task) => Some(task)
    case Releasing(task) => Some(task)
    case _ => if MutexOf(phase).Some? then Some(phase.task) else None
  }

  predicate InIdle(phase: Phase) {
    || phase.IdleTop? || phase.NoTimers? || phase.NoPending? || phase.IdleOver?
    || phase.IdlePass? || phase.Scheduling? || phase.Counting?
  }

  predicate IsCounting(phase: Phase) { phase.Counting? }

  predicate StateFits(phase: Phase, state: FiberState) {
    if phase.Checked? then state == READY else if phase.Running? then state == RUNNING else state != RUNNING
  }

  predicate TaskOk(s: State, task: ScheduleTask) {
    && (task.fiber.Some? ==> task.fiber.value < |s.fibers|) && (task.fiber.Some? || task.cb)
    && task.token < |s.pins| && s.pins[task.token] == task.thread
  }

  predicate WorkerOk(s: State, w: nat)
    requires w < |s.workers|
  {
    var Worker(phase, idle, current) := s.workers[w];
    && (MutexOf(phase).Some? ==>
          var f := MutexOf(phase).value;
          f < |s.fibers| && s.fibers[f].holder == Some(w) && StateFits(phase, s.fibers[f].state))
    && (InHand(phase).Some? ==> TaskOk(s, InHand(phase).value))
    && current == (if phase.Running? || phase.Ending? then OnTask(phase.f) else if InIdle(phase) then OnIdle
       else OnScheduler)
    && (if InIdle(phase) then idle == RUNNING else idle != RUNNING)
    && (phase == Exited ==> idle == TERM)
  }

  /** A fiber's mutex is held by the worker that says so, and only a fiber with a held mutex runs. */
  predicate FiberOk(s: State, f: FiberId)
    requires f < |s.fibers|
  {
    && (s.fibers[f].state == RUNNING ==> s.fibers[f].holder.Some?)
    && (s.fibers[f].holder.Some? ==>
          var w := s.fibers[f].holder.value; w < |s.workers| && MutexOf(s.workers[w].phase) == Some(f))
  }

  predicate ControlOk(s: State) {
    && (forall w | 0 <= w < |s.workers| :: WorkerOk(s, w))
    && (forall f | 0 <= f < |s.fibers| :: FiberOk(s, f))
    && (forall i | 0 <= i < |s.queue| :: TaskOk(s, s.queue[i]))
  }

  /** How many workers are in a phase that `p` accepts. */
  function Count(workers: seq<Worker>, p: Phase -> bool): nat {
    if workers == [] then 0 else (if p(workers[0].phase) then 1 else 0) + Count(workers[1..], p)
  }

  predicate Busy(phase: Phase) { InHand(phase).Some? }

  /** Accepts the phases with push number `token` in hand. */
  function Holding(token: nat): Phase -> bool {
    (phase: Phase) => InHand(phase).Some? && InHand(phase).value.token == token
  }

  function TimesQueued(queue: seq<ScheduleTask>, token: nat): nat {
    if queue == [] then 0
    else (if queue[|queue| - 1].token == token then 1 else 0) + TimesQueued(queue[..|queue| - 1], token)
  }

  /** Every push is in exactly one place, once: queued, in one worker's hands, or finished. */
  predicate PlacedOnce(s: State, token: nat) {
    TimesQueued(s.queue, token) + Count(s.workers, Holding(token)) + s.finished[token]
      == if token < |s.pins| then 1 else 0
  }

  ghost predicate AccountOk(s: State) {
    && s.active == Count(s.workers, Busy) && s.idlers == Count(s.workers, InIdle)
    && forall token: nat :: PlacedOnce(s, token)
  }

  /** Every event that is scheduled and not counted out is still counted. */
  predicate PendingOk(s: State) { Count(s.workers, IsCounting) <= s.pending }

  /** The queue is in push order. */
  predicate QueueSorted(queue: seq<ScheduleTask>) {
    forall i, j | 0 <= i < j < |queue| :: queue[i].token < queue[j].token
  }

  /** No worker has passed over a task it might take: what it takes later was pushed later. */
  predicate OrderOk(s: State) {
    && QueueSorted(s.queue)
    && (forall t | t in s.log :: t.token < |s.pins| && Eligible(s.pins[t.token], t.worker))
    && (forall t, task | t in s.log && task in s.queue :: Eligible(task.thread, t.worker) ==> t.token < task.token)
    && (forall i, j | 0 <= i < j < |s.log| && s.log[j].token < |s.pins| ::
          Eligible(s.pins[s.log[j].token], s.log[i].worker) ==> s.log[i].token < s.log[j].token)
  }

  /** The worker's idle fiber has ended or is about to. */
  predicate Decided(worker: Worker) { worker.idle == TERM || worker.phase == IdleOver }

  /** Once every idle fiber has made up its mind, no task is left anywhere. */
  predicate ShutdownOk(s: State) {
    && (forall w | 0 <= w < |s.workers| && Decided(s.workers[w]) :: s.stopping)
    && ((forall w | 0 <= w < |s.workers| :: Decided(s.workers[w])) ==> s.queue == [] && s.active == 0)
  }

  ghost predicate Inv(s: State) {
    |s.workers| > 0 && ControlOk(s) && AccountOk(s) && PendingOk(s) && OrderOk(s) && ShutdownOk(s)
  }
}
