/** The continuation by which a shutdown completes, and what each of its steps brings nearer. */
module SchedulerProgress {
  import opened SchedulerModel
  import opened SchedulerProofs
  import opened SchedulerRuns
  import opened SchedulerShutdown
  import opened SchedulerHeld

  predicate NoneAbandoned(s: State) { forall task | task in s.queue :: !Abandoned(s, task) }

  ghost predicate Good(s: State) { Inv(s) && NoneRevived(s) && NoneAbandoned(s) && !Held(s) }

  // ---------------------------------------------------------------- well-behaved continuations

  /** Code of users pushes nothing, arms and registers nothing, and cancels no timer that cannot be cancelled. */
  predicate Settles(s: State, step: Step) {
    match step
    case Push(_, _, _, _) => false
    case NewFiber(_) => false
    case Adjust(_, timers, pending) =>
      && timers.once <= s.timers.once && timers.recurring <= s.timers.recurring && timers.blank == s.timers.blank
      && timers.dead == s.timers.dead && pending <= s.pending
    case Collect(_, _, left) => left.recurring == s.timers.recurring && left.dead == s.timers.dead
    case _ => true
  }

  predicate AllSettle(s: State, steps: seq<Step>)
    decreases |steps|
  {
    steps == [] || !Enabled(s, steps[0]) || Fails(s, steps[0]) ||
    (Settles(s, steps[0]) && AllSettle(Apply(s, steps[0]), steps[1..]))
  }

  lemma {:induction false} SettlingIsCollisionFree(s: State, steps: seq<Step>)
    requires AllSettle(s, steps)
    ensures CollisionFree(s, steps)
    decreases |steps|
  {
    hide Enabled, Fails, Apply;
    if steps != [] && Enabled(s, steps[0]) && !Fails(s, steps[0]) {
      SettlingIsCollisionFree(Apply(s, steps[0]), steps[1..]);
    }
  }

  // ---------------------------------------------------------------- the continuation

  /** The step that brings worker `w` on: its task ends, and its idle pass settles what there is. */
  function NextOf(s: State, w: nat): Step
    requires w < |s.workers|
  {
    match s.workers[w].phase
    case Outside => Enter(w)
    case Scanning => Scan(w)
    case Taken(task) => if task.fiber.Some? then Lock(w) else Spawn(w)
    case Locked(_, _) => Check(w)
    case Checked(_, _) => Resume(w)
    case Running(_, _) => Finish(w)
    case Ending(_, _) => FinalYield(w)
    case Unlocking(_, _) => Unlock(w)
    case Releasing(_) => Release(w)
    case NoTask => if s.workers[w].idle == TERM then Exit(w) else IdleResume(w)
    case IdleTop => ReadTimers(w)
    case NoTimers => ReadPending(w)
    case NoPending => ReadQueue(w)
    case IdlePass => if s.queue == [] then Collect(w, s.timers, Kept(s.timers)) else Collect(w, UNARMED, s.timers)
    case Scheduling(owed) => if owed > 0 then Fire(w) else IdleYield(w)
    case Counting => CountEvent(w)
    case IdleOver => IdleReturn(w)
    case Exited => Stop
  }

  /** What is left when every timer has expired. */
  function Kept(timers: Armed): Armed { timers.(once := 0, blank := 0) }

  lemma NextIsEnabled(s: State, w: nat)
    requires Inv(s) && NoneRevived(s) && w < |s.workers|
    requires s.workers[w].phase.Taken? && s.workers[w].phase.task.fiber.Some? ==>
      forall v | 0 <= v < |s.workers| :: MutexOf(s.workers[v].phase).None?
    ensures Enabled(s, NextOf(s, w)) && !Fails(s, NextOf(s, w)) && !NextOf(s, w).Reset?
    ensures Settles(s, NextOf(s, w))
  {
    hide AccountOk, OrderOk, ShutdownOk, Fails, FirstFor, Count;
    assert WorkerOk(s, w);
    var phase := s.workers[w].phase;
    if phase.Taken? && phase.task.fiber.Some? { assert FiberOk(s, phase.task.fiber.value); }
    if phase.Counting? { CountedIfThere(s.workers, w, IsCounting); }
    AssertionFailsIff(s, NextOf(s, w));
  }

  // ---------------------------------------------------------------- what comes nearer

  function Sum(workers: seq<Worker>, weight: Worker -> nat): nat {
    if workers == [] then 0 else weight(workers[0]) + Sum(workers[1..], weight)
  }

  lemma {:induction false} SumUpdate(workers: seq<Worker>, w: nat, worker: Worker, weight: Worker -> nat)
    requires w < |workers|
    ensures Sum(workers[w := worker], weight) == Sum(workers, weight) - weight(workers[w]) + weight(worker)
  {
    if w > 0 {
      SumUpdate(workers[1..], w - 1, worker, weight);
      assert workers[w := worker][1..] == workers[1..][w - 1 := worker];
    } else {
      assert workers[w := worker][1..] == workers[1..];
    }
  }

  /** How far a worker is from having counted out the task in its hand, and those that it owes. */
  function HandWeight(worker: Worker): nat {
    match worker.phase
    case Taken(_) => 9
    case Locked(_, _) => 8
    case Checked(_, _) => 7
    case Running(_, _) => 6
    case Ending(_, _) => 5
    case Unlocking(_, _) => 4
    case Releasing(_) => 3
    case Scheduling(owed) => 11 * owed
    case Counting => 1
    case _ => 0
  }

  /** With tasks queued, how far from scanning or gone. */
  function ToScan(worker: Worker): nat {
    match worker.phase
    case Outside => 9
    case NoTask => if worker.idle == TERM then 2 else 8
    case IdleTop => 7
    case NoTimers => 6
    case NoPending => 5
    case IdlePass => 4
    case Scheduling(_) => 3
    case IdleOver => 3
    case _ => 0
  }

  /** With no task left, how far from gone; the parameters say whether something is armed, and whether pending. */
  function ToLeave(armed: bool, pending: bool): Worker -> nat {
    (worker: Worker) =>
      match worker.phase
      case Outside => 12
      case Scanning => if worker.idle == TERM then 4 else 11
      case NoTask => if worker.idle == TERM then 3 else 10
      case IdleTop => 9
      case NoTimers => 8
      case NoPending => 7
      case IdlePass => if armed || pending then 6 else 14
      case Scheduling(_) => if pending then 5 else 13
      case IdleOver => 5
      case _ => 0
  }

  /** A worker is about to find an event pending that stops it for good. */
  predicate NeedsCode(s: State) { s.timers.dead > 0 && AwaitsPending(s) }

  function CodeWeight(s: State): nat { if NeedsCode(s) then 1 else 0 }

  /** A callback is sure to run: it is queued, in hand, or collected. */
  predicate SureWorker(worker: Worker) {
    || (worker.phase.Taken? && worker.phase.task.fiber.None?) || worker.phase.Checked? || worker.phase.Running?
    || (worker.phase.Scheduling? && worker.phase.owed > 0)
  }

  predicate Sure(s: State) {
    || (exists task | task in s.queue :: task.fiber.None?)
    || (exists w | 0 <= w < |s.workers| :: SureWorker(s.workers[w]))
  }

  /** How far from a callback that cancels the recurring timers. */
  function RecurringWeight(s: State): nat { if s.timers.recurring == 0 then 0 else if Sure(s) then 1 else 2 }

  function StopWeight(s: State): nat { if s.stopping then 0 else 1 }

  function TaskWeight(s: State): nat {
    10 * |s.queue| + Sum(s.workers, HandWeight) + 12 * s.timers.once + s.timers.blank + 12 * s.pending
  }

  function LeaveWeight(s: State): nat {
    if s.queue != [] then Sum(s.workers, ToScan) else Sum(s.workers, ToLeave(s.timers != UNARMED, s.pending > 0))
  }

  /** The first three of the weights. */
  predicate NoFarther(s: State, s': State) {
    CodeWeight(s') <= CodeWeight(s) && RecurringWeight(s') <= RecurringWeight(s) && StopWeight(s') <= StopWeight(s)
  }

  predicate SameSoFar(s: State, s': State) {
    CodeWeight(s') == CodeWeight(s) && RecurringWeight(s') == RecurringWeight(s) && StopWeight(s') == StopWeight(s)
  }

  /** The continuation has come nearer to its end. */
  predicate Nearer(s: State, s': State) {
    || (CodeWeight(s') < CodeWeight(s))
    || (CodeWeight(s') == CodeWeight(s) && RecurringWeight(s') < RecurringWeight(s))
    || (CodeWeight(s') == CodeWeight(s) && RecurringWeight(s') == RecurringWeight(s) && StopWeight(s') < StopWeight(s))
    || (SameSoFar(s, s') && TaskWeight(s') < TaskWeight(s))
    || (SameSoFar(s, s') && TaskWeight(s') == TaskWeight(s) && LeaveWeight(s') < LeaveWeight(s))
  }

  lemma NearerFrom(s: State, s': State)
    requires NoFarther(s, s')
    requires TaskWeight(s') < TaskWeight(s) || (TaskWeight(s') == TaskWeight(s) && LeaveWeight(s') < LeaveWeight(s))
    ensures Nearer(s, s')
  {
    hide CodeWeight, RecurringWeight, StopWeight, TaskWeight, LeaveWeight;
  }

  // ---------------------------------------------------------------- no farther

  /** No step of a continuation makes a worker wait for code that it did not wait for before. */
  lemma CodeNoFarther(s: State, step: Step)
    requires Inv(s) && Enabled(s, step) && !Fails(s, step) && Settles(s, step)
    ensures Apply(s, step).timers.dead == s.timers.dead && Apply(s, step).pending <= s.pending
    ensures NeedsCode(Apply(s, step)) ==> NeedsCode(s)
  {
    hide AccountOk, OrderOk, ShutdownOk, ControlOk, PendingOk, Apply, Fails;
    SettledCounts(s, step);
    if ByOneWorker(step) {
      OwnFrame(s, step);
      OwnStepReads(s, step);
    } else {
      SharedFrame(s, step);
    }
  }

  lemma SettledCounts(s: State, step: Step)
    requires Enabled(s, step) && !Fails(s, step) && Settles(s, step)
    ensures var s' := Apply(s, step);
      s'.timers.dead == s.timers.dead && s'.timers.recurring <= s.timers.recurring && s'.pending <= s.pending
  {
    hide FirstFor, Without, Acting, RunsCode, Count, Passes, Fails;
  }

  /** A callback that is sure to run stays so until its function ends or yields. */
  lemma SureStays(s: State, step: Step)
    requires Inv(s) && Enabled(s, step) && !Fails(s, step) && !step.Finish? && !step.Yield? && Sure(s)
    ensures Sure(Apply(s, step))
  {
    hide Inv, Apply, Enabled, Fails, SureWorker, FirstFor, Without;
    InvControl(s);
    var s' := Apply(s, step);
    if w :| 0 <= w < |s.workers| && SureWorker(s.workers[w]) {
      if ByOneWorker(step) && step.w == w {
        SureMoves(s, step);
      } else {
        OthersStay(s, step, w);
        assert SureWorker(s'.workers[w]);
      }
    } else {
      var task :| task in s.queue && task.fiber.None?;
      QueueAfter(s, step);
      if step.Scan? && FirstFor(s.queue, step.w) < |s.queue| && s.queue[FirstFor(s.queue, step.w)] == task {
        TakesSure(s, step.w);
      } else if step.Scan? && FirstFor(s.queue, step.w) < |s.queue| {
        StaysQueued(s.queue, FirstFor(s.queue, step.w), task);
      }
    }
  }

  lemma TakesSure(s: State, w: nat)
    requires Enabled(s, Scan(w)) && !Fails(s, Scan(w)) && FirstFor(s.queue, w) < |s.queue|
    requires s.queue[FirstFor(s.queue, w)].fiber.None?
    ensures Sure(Apply(s, Scan(w)))
  {
    hide FirstFor, Without;
    assert SureWorker(Apply(s, Scan(w)).workers[w]);
  }

  lemma SureMoves(s: State, step: Step)
    requires ByOneWorker(step) && Enabled(s, step) && !Fails(s, step) && !step.Finish? && !step.Yield?
    requires SureWorker(s.workers[step.w])
    ensures Sure(Apply(s, step))
  {
    hide FirstFor, Without, Acting, RunsCode, Count, Passes, Fails;
    var s' := Apply(s, step);
    if step.Fire? { assert s'.queue[|s.queue|].fiber.None? && s'.queue[|s.queue|] in s'.queue; }
    else { assert SureWorker(s'.workers[step.w]); }
  }

  lemma StepsNoFarther(s: State, step: Step)
    requires Inv(s) && Enabled(s, step) && !Fails(s, step) && Settles(s, step)
    requires step.Finish? || step.Yield? ==> s.timers.recurring == 0
    ensures NoFarther(s, Apply(s, step))
  {
    hide Inv, Apply, Enabled, Fails, Sure, NeedsCode, Settles;
    CodeNoFarther(s, step);
    SettledCounts(s, step);
    StopStays(s, step);
    if Sure(s) && !step.Finish? && !step.Yield? { SureStays(s, step); }
  }

  lemma StopStays(s: State, step: Step)
    requires Enabled(s, step) && !Fails(s, step)
    ensures s.stopping ==> Apply(s, step).stopping
  {
    hide FirstFor, Without, Acting, RunsCode, Count, Passes, Fails;
  }

  // ---------------------------------------------------------------- what stays good

  /** A step that only takes out of the queue or puts there what any worker may take, and that lets a worker scan in
      vain only when the queue is empty, abandons nothing. */
  lemma AbandonsNothing(s: State, step: Step)
    requires Inv(s) && NoneAbandoned(s) && Enabled(s, step) && !Fails(s, step)
    requires forall task | task in Apply(s, step).queue :: task in s.queue || task.thread == ANY_THREAD
    requires step.Scan? ==> s.queue == [] || FirstFor(s.queue, step.w) < |s.queue|
    ensures NoneAbandoned(Apply(s, step))
  {
    hide Inv, Apply, Fails, FirstFor, Without, Leaving;
    var s' := Apply(s, step);
    SameWorkers(s, step);
    QueueAfter(s, step);
    forall task | task in s'.queue ensures !Abandoned(s', task) {
      if task in s.queue && 0 <= task.thread < |s.workers| {
        assert !Abandoned(s, task);
        if task.thread != ANY_THREAD && s.queue != [] { NotYetLeaving(s, step, task.thread); }
      }
    }
  }

  /** Only an empty scan starts a worker leaving. */
  lemma NotYetLeaving(s: State, step: Step, w: nat)
    requires Inv(s) && Enabled(s, step) && !Fails(s, step) && w < |s.workers| && !Leaving(s.workers[w])
    requires step.Scan? ==> FirstFor(s.queue, step.w) < |s.queue|
    ensures w < |Apply(s, step).workers| && !Leaving(Apply(s, step).workers[w])
  {
    hide AccountOk, OrderOk, ShutdownOk, ControlOk, FirstFor, Without, Acting, RunsCode, Count, Passes;
    if !(ByOneWorker(step) && step.w == w) {
      hide Apply;
      OthersStay(s, step, w);
    }
  }

  /** The step is no reading by which a worker finds something left in the way of a dead timer. */
  predicate ReadsInTime(s: State, step: Step) {
    ByOneWorker(step) && step.w < |s.workers| && MidRead(s.workers[step.w].phase) ==>
      SchedulerStopping(s) && (s.workers[step.w].phase.NoTimers? ==> s.pending == 0)
  }

  lemma NotHeldStays(s: State, step: Step)
    requires Inv(s) && !Held(s) && Enabled(s, step) && !Fails(s, step) && Settles(s, step)
    requires step.Scan? ==> s.queue == [] || FirstFor(s.queue, step.w) < |s.queue|
    requires s.timers.dead > 0 ==> ReadsInTime(s, step)
    requires NeedsCode(Apply(s, step)) ==> CodeToCome(Apply(s, step))
    ensures !Held(Apply(s, step))
  {
    hide Inv, Apply, Fails, FirstFor, Manned, Enabled, CodeToCome, AwaitsPending, PastTimers, Settles;
    CodeNoFarther(s, step);
    if s.timers.dead > 0 {
      StaysPastTimers(s, step);
      forall task | task in Apply(s, step).queue ensures Manned(Apply(s, step), task) {
        StaysManned(s, step, task);
      }
    }
  }

  lemma StaysPastTimers(s: State, step: Step)
    requires Inv(s) && !MustRead(s) && Enabled(s, step) && !Fails(s, step) && ReadsInTime(s, step)
    ensures !MustRead(Apply(s, step))
  {
    hide Inv, Apply, Fails, FirstFor, Enabled, Decided, SchedulerStopping;
    InvControl(s);
    if ByOneWorker(step) {
      OwnFrame(s, step);
      DecidesByReading(s, step);
      assert PastTimers(s.workers[step.w]);
      if !Decided(s.workers[step.w]) { ReadsOn(s, step); }
    } else {
      SharedFrame(s, step);
    }
  }

  lemma StaysManned(s: State, step: Step, task: ScheduleTask)
    requires Inv(s) && !MustRead(s) && !SomeUnmanned(s) && Enabled(s, step) && !Fails(s, step) && Settles(s, step)
    requires step.Scan? ==> s.queue == [] || FirstFor(s.queue, step.w) < |s.queue|
    requires task in Apply(s, step).queue
    ensures Manned(Apply(s, step), task)
  {
    hide Inv, Apply, Fails, FirstFor, Enabled, Decided, Leaving, Without;
    InvControl(s);
    StaysInQueue(s, step, task);
    var v: nat :| v < |s.workers| && Eligible(task.thread, v) && !Leaving(s.workers[v]) && Decided(s.workers[v]);
    NotYetLeaving(s, step, v);
    if ByOneWorker(step) {
      OwnFrame(s, step);
      DecidesByReading(s, step);
    } else {
      SharedFrame(s, step);
    }
    assert Decided(Apply(s, step).workers[v]);
  }

  lemma StaysInQueue(s: State, step: Step, task: ScheduleTask)
    requires Inv(s) && !MustRead(s) && Enabled(s, step) && !Fails(s, step) && Settles(s, step)
    requires task in Apply(s, step).queue
    ensures task in s.queue
  {
    hide Inv, Apply, Fails, FirstFor, Decided, PastTimers;
    InvControl(s);
    QueueAfter(s, step);
    if ByOneWorker(step) {
      OwnFrame(s, step);
      assert PastTimers(s.workers[step.w]);
      PendingOnlyCounted(s, step);
    } else {
      SharedQueue(s, step);
    }
  }

  lemma SharedQueue(s: State, step: Step)
    requires !ByOneWorker(step) && !step.Push? && Enabled(s, step) && !Fails(s, step)
    ensures Apply(s, step).queue == s.queue
  {}

  lemma StaysGood(s: State, step: Step)
    requires Good(s) && Enabled(s, step) && !Fails(s, step) && SafeReset(s, step) && Settles(s, step)
    requires forall task | task in Apply(s, step).queue :: task in s.queue || task.thread == ANY_THREAD
    requires step.Scan? ==> s.queue == [] || FirstFor(s.queue, step.w) < |s.queue|
    requires s.timers.dead > 0 ==> ReadsInTime(s, step)
    requires NeedsCode(Apply(s, step)) ==> CodeToCome(Apply(s, step))
    ensures Good(Apply(s, step))
  {
    hide Inv, NoneRevived, NoneAbandoned, Enabled, Fails, Apply, FirstFor, Held, SafeReset, Settles, ReadsInTime;
    StepKeepsInv(s, step);
    RevivesIff(s, step);
    AbandonsNothing(s, step);
    NotHeldStays(s, step);
  }
}
