/** A recurring timer without callback keeps a shutdown from completing: `cancel`, `refresh` and `reset` refuse it, and
    every expiry pass puts it back. When it does, and when the shutdown still slips past it. */
module SchedulerHeld {
  import opened SchedulerModel
  import opened SchedulerProofs
  import opened SchedulerRuns
  import opened SchedulerShutdown

  /** A dead timer leaves the set: only a colliding deadline does that. */
  predicate Collides(s: State, step: Step) {
    match step
    case Adjust(_, timers, _) => timers.dead < s.timers.dead
    case Collect(_, _, left) => left.dead < s.timers.dead
    case _ => false
  }

  predicate CollisionFree(s: State, steps: seq<Step>)
    decreases |steps|
  {
    steps == [] || !Enabled(s, steps[0]) || Fails(s, steps[0]) ||
    (!Collides(s, steps[0]) && CollisionFree(Apply(s, steps[0]), steps[1..]))
  }

  /** The idle fiber has decided or has already read that there are no timers. */
  predicate PastTimers(worker: Worker) { Decided(worker) || MidRead(worker.phase) }

  /** Some worker has still to read that there are no timers. */
  predicate MustRead(s: State) { exists w | 0 <= w < |s.workers| :: !PastTimers(s.workers[w]) }

  /** The task can be taken by a worker that need not read the timers for it. */
  predicate Manned(s: State, task: ScheduleTask) {
    exists v | 0 <= v < |s.workers| ::
      Eligible(task.thread, v) && !Leaving(s.workers[v]) && Decided(s.workers[v])
  }

  predicate SomeUnmanned(s: State) { exists task | task in s.queue :: !Manned(s, task) }

  predicate CodePhase(phase: Phase) { phase.Taken? || phase.Locked? || phase.Checked? || phase.Running? }

  /** Code of users may run that deregisters an event. */
  predicate CodeToCome(s: State) {
    !s.stopping || s.queue != [] || exists w | 0 <= w < |s.workers| :: CodePhase(s.workers[w].phase)
  }

  /** A worker has still to read that no event is pending, and some are. */
  predicate AwaitsPending(s: State) {
    s.pending > 0 && exists w | 0 <= w < |s.workers| :: s.workers[w].phase.NoTimers?
  }

  /** A dead timer keeps some worker from leaving: one that has to read the timers, now or after taking a queued task,
      or after finding an event pending that nobody is going to deregister. */
  predicate Held(s: State) {
    s.timers.dead > 0 && (MustRead(s) || SomeUnmanned(s) || (AwaitsPending(s) && !CodeToCome(s)))
  }

  // ---------------------------------------------------------------- it stays so

  lemma DeadStays(s: State, step: Step)
    requires Enabled(s, step) && !Fails(s, step) && !Collides(s, step)
    ensures Apply(s, step).timers.dead >= s.timers.dead
  {
    hide FirstFor, Without, Acting, RunsCode, Count, Passes, Fails;
  }

  lemma MustReadStays(s: State, step: Step)
    requires Inv(s) && s.timers != UNARMED && MustRead(s) && Enabled(s, step) && !Fails(s, step)
    ensures MustRead(Apply(s, step))
  {
    hide AccountOk, OrderOk, ShutdownOk, ControlOk, Apply, Fails, Decided;
    var w: nat :| 0 <= w < |s.workers| && !PastTimers(s.workers[w]);
    if ByOneWorker(step) {
      DecidesByReading(s, step);
      OwnFrame(s, step);
      OwnStepReads(s, step);
    } else {
      SharedFrame(s, step);
    }
    assert !PastTimers(Apply(s, step).workers[w]);
  }

  /** A step by a worker that is past reading the timers and has not decided is one of the two other reads. */
  lemma ReadsOn(s: State, step: Step)
    requires ControlOk(s) && ByOneWorker(step) && Enabled(s, step) && !Fails(s, step) && !Decided(s.workers[step.w])
    requires MidRead(s.workers[step.w].phase)
    ensures var (s', phase) := (Apply(s, step), s.workers[step.w].phase);
      && s'.queue == s.queue && s'.pending == s.pending && s'.stopping == s.stopping && s'.timers == s.timers
      && step == (if phase.NoTimers? then ReadPending(step.w) else ReadQueue(step.w))
      && s'.workers[step.w].phase == (
        if phase.NoTimers? then if s.pending == 0 then NoPending else IdlePass
        else if SchedulerStopping(s) then IdleOver else IdlePass)
      && (Decided(s'.workers[step.w]) <==> s'.workers[step.w].phase == IdleOver)
  {
    hide FirstFor, Without, Acting, RunsCode, Count, Passes, Fails, TaskOk, FiberOk;
    assert WorkerOk(s, step.w);
  }

  lemma UnmannedStays(s: State, step: Step, task: ScheduleTask)
    requires Inv(s) && !MustRead(s) && task in s.queue && !Manned(s, task) && Enabled(s, step) && !Fails(s, step)
    ensures var s' := Apply(s, step); MustRead(s') || (task in s'.queue && !Manned(s', task))
  {
    hide Inv, FirstFor, Without, Apply, Fails, Leaving, Decided, SchedulerStopping, Enabled;
    InvControl(s);
    QueueAfter(s, step);
    var s' := Apply(s, step);
    if !ByOneWorker(step) {
      SharedFrame(s, step);
    } else {
      OwnFrame(s, step);
      DecidesByReading(s, step);
      assert PastTimers(s.workers[step.w]);
      if Decided(s.workers[step.w]) {
        UnmannedTaken(s, step, task);
      } else {
        ReadsOn(s, step);
        QueueStops(s);
        assert !Decided(s'.workers[step.w]);
        if MidRead(s'.workers[step.w].phase) { UnmannedFrame(s, step, task); }
        else { assert !PastTimers(s'.workers[step.w]); }
      }
    }
  }

  lemma QueueStops(s: State)
    requires s.queue != []
    ensures !SchedulerStopping(s)
  {}

  /** Nobody has decided, or gone back from leaving, whom the task waits for. */
  lemma UnmannedFrame(s: State, step: Step, task: ScheduleTask)
    requires ControlOk(s) && ByOneWorker(step) && Enabled(s, step) && !Fails(s, step) && !Manned(s, task)
    requires Decided(Apply(s, step).workers[step.w]) ==> Decided(s.workers[step.w])
    ensures !Manned(Apply(s, step), task)
  {
    hide ControlOk, Apply, Enabled, Fails, Leaving, Decided, FirstFor;
    OwnFrame(s, step);
    forall v | 0 <= v < |s.workers| && Leaving(s.workers[v]) ensures Leaving(Apply(s, step).workers[v]) {
      StaysLeaving(s, step, v);
    }
  }

  lemma UnmannedTaken(s: State, step: Step, task: ScheduleTask)
    requires Inv(s) && ByOneWorker(step) && Enabled(s, step) && !Fails(s, step) && Decided(s.workers[step.w])
    requires task in s.queue && !Manned(s, task)
    ensures task in Apply(s, step).queue && !Manned(Apply(s, step), task)
  {
    hide Inv, FirstFor, Without, Apply, Fails, Leaving, Decided;
    InvControl(s);
    QueueAfter(s, step);
    UnmannedFrame(s, step, task);
    if step.Scan? {
      var k := FirstFor(s.queue, step.w);
      if k < |s.queue| {
        if Leaving(s.workers[step.w]) { StaysLeaving(s, step, step.w); }
        assert Eligible(s.queue[k].thread, step.w) && s.queue[k] != task;
        StaysQueued(s.queue, k, task);
      }
    }
  }

  /** With the queue empty no worker starts on a task. */
  lemma NoCodeStarts(s: State, step: Step)
    requires ByOneWorker(step) && Enabled(s, step) && !Fails(s, step) && s.queue == []
    requires !CodePhase(s.workers[step.w].phase)
    ensures step.w < |Apply(s, step).workers| && !CodePhase(Apply(s, step).workers[step.w].phase)
  {
    hide Without, Acting, RunsCode, Count, Passes, Fails;
  }

  lemma PendingOnlyCounted(s: State, step: Step)
    requires ControlOk(s) && ByOneWorker(step) && Enabled(s, step) && !Fails(s, step)
    requires PastTimers(s.workers[step.w])
    ensures Apply(s, step).pending == s.pending && !Schedules(step)
  {
    hide ControlOk, Apply, Fails;
    OwnStepReads(s, step);
    DecidesByReading(s, step);
  }

  lemma PendingStays(s: State, step: Step)
    requires Inv(s) && !MustRead(s) && AwaitsPending(s) && !CodeToCome(s) && Enabled(s, step) && !Fails(s, step)
    ensures var s' := Apply(s, step); MustRead(s') || (AwaitsPending(s') && !CodeToCome(s'))
  {
    hide Inv, FirstFor, Without, Apply, Fails, Decided, SchedulerStopping;
    InvControl(s);
    QueueAfter(s, step);
    var s', w: nat :| s' == Apply(s, step) && 0 <= w < |s.workers| && s.workers[w].phase.NoTimers?;
    if !ByOneWorker(step) {
      SharedFrame(s, step);
      QuietWithoutCode(s, step);
    } else {
      OwnFrame(s, step);
      DecidesByReading(s, step);
      NoCodeStarts(s, step);
      assert PastTimers(s.workers[step.w]);
      PendingOnlyCounted(s, step);
      if step.w == w {
        UndecidedReads(s, w);
        ReadsOn(s, step);
        assert !PastTimers(s'.workers[w]);
      } else {
        assert s'.workers[w].phase.NoTimers?;
      }
    }
  }

  lemma UndecidedReads(s: State, w: nat)
    requires ControlOk(s) && w < |s.workers| && MidRead(s.workers[w].phase)
    ensures !Decided(s.workers[w])
  {
    assert WorkerOk(s, w);
  }

  /** Where no code runs, the others only make fibers, reset them, or call `stop`. */
  lemma QuietWithoutCode(s: State, step: Step)
    requires !ByOneWorker(step) && !CodeToCome(s) && Enabled(s, step) && !Fails(s, step)
    ensures var s' := Apply(s, step);
      s'.pending == s.pending && s'.queue == s.queue && s'.stopping && s'.workers == s.workers
  {
    hide Count, FirstFor;
    if step.Push? || step.Adjust? { assert false; }
  }

  lemma HeldStays(s: State, step: Step)
    requires Inv(s) && Held(s) && Enabled(s, step) && !Fails(s, step) && !Collides(s, step)
    ensures Held(Apply(s, step))
  {
    hide Inv, Apply, Enabled, Fails, MustRead, Manned, AwaitsPending, CodeToCome, Collides;
    DeadStays(s, step);
    if MustRead(s) {
      MustReadStays(s, step);
    } else if task :| task in s.queue && !Manned(s, task) {
      UnmannedStays(s, step, task);
    } else {
      PendingStays(s, step);
    }
  }

  lemma HeldNotLeft(s: State)
    requires Inv(s) && Held(s)
    ensures !AllLeft(s)
  {
    hide AccountOk, OrderOk, Manned;
    if AllLeft(s) {
      forall w | 0 <= w < |s.workers| ensures Decided(s.workers[w]) { assert WorkerOk(s, w); }
    }
  }

  /** While deadlines do not collide, no continuation of a held state lets all workers leave. */
  lemma {:induction false} HeldBlocksShutdown(s: State, steps: seq<Step>)
    requires Inv(s) && Held(s) && Run(s, steps).Some? && CollisionFree(s, steps)
    ensures Held(Run(s, steps).value) && !AllLeft(Run(s, steps).value)
    decreases |steps|
  {
    hide Inv, Held, Enabled, Fails, Apply, AllLeft, Collides;
    if steps == [] {
      HeldNotLeft(s);
    } else {
      StepKeepsInv(s, steps[0]);
      HeldStays(s, steps[0]);
      HeldBlocksShutdown(Apply(s, steps[0]), steps[1..]);
    }
  }

  // ---------------------------------------------------------------- while something is armed

  /** The set of timers is empty at no point of the run before its end. */
  predicate NeverEmpty(s: State, steps: seq<Step>)
    decreases |steps|
  {
    steps == [] || !Enabled(s, steps[0]) || Fails(s, steps[0]) ||
    (s.timers != UNARMED && NeverEmpty(Apply(s, steps[0]), steps[1..]))
  }

  /** Whatever keeps the set from being empty, a recurring timer that no code cancels for one, holds a worker that has
      still to read the timers. */
  lemma {:induction false} ArmedHolds(s: State, steps: seq<Step>)
    requires Inv(s) && MustRead(s) && Run(s, steps).Some? && NeverEmpty(s, steps)
    ensures MustRead(Run(s, steps).value) && !AllLeft(Run(s, steps).value)
    decreases |steps|
  {
    hide Inv, Enabled, Fails, Apply, AllLeft, MustRead;
    if steps == [] {
      ReaderStays(s);
    } else {
      StepKeepsInv(s, steps[0]);
      MustReadStays(s, steps[0]);
      ArmedHolds(Apply(s, steps[0]), steps[1..]);
    }
  }

  lemma ReaderStays(s: State)
    requires Inv(s) && MustRead(s)
    ensures !AllLeft(s)
  {
    hide AccountOk, OrderOk;
    if AllLeft(s) {
      forall w | 0 <= w < |s.workers| ensures Decided(s.workers[w]) { assert WorkerOk(s, w); }
    }
  }

  // ---------------------------------------------------------------- with collisions too

  predicate OwesNothing(phase: Phase) { phase.Scheduling? ==> phase.owed == 0 }

  /** `stop` was called, nothing is queued, in hand, collected or pending, only dead timers are armed, and some worker
      has still to read the timers. */
  predicate Doomed(s: State) {
    && s.timers == Armed(0, 0, 0, s.timers.dead) && s.timers.dead > 0 && s.pending == 0 && !CodeToCome(s) && MustRead(s)
    && forall w | 0 <= w < |s.workers| :: OwesNothing(s.workers[w].phase)
  }

  /** In such a state an idle pass does nothing. */
  lemma PassIsIdle(s: State, step: Step)
    requires Doomed(s) && ByOneWorker(step) && Enabled(s, step) && !Fails(s, step)
    ensures var s' := Apply(s, step);
      && step.w < |s.workers| && !Schedules(step) && s'.pending == 0 && OwesNothing(s'.workers[step.w].phase)
      && s'.timers == Armed(0, 0, 0, s'.timers.dead) && s'.timers.dead > 0
  {
    hide FirstFor, Without, Acting, RunsCode, Count, Fails, CodeToCome, MustRead;
  }

  lemma DoomedStays(s: State, step: Step)
    requires Inv(s) && Doomed(s) && Enabled(s, step) && !Fails(s, step)
    ensures Doomed(Apply(s, step))
  {
    hide Inv, Apply, Enabled, Fails, MustRead, OwesNothing, FirstFor, Without;
    InvControl(s);
    MustReadStays(s, step);
    QueueAfter(s, step);
    if ByOneWorker(step) {
      PassIsIdle(s, step);
      OwnFrame(s, step);
      NoCodeStarts(s, step);
    } else {
      SharedFrame(s, step);
      QuietWithoutCode(s, step);
      DoomedAdjust(s, step);
    }
  }

  lemma DoomedAdjust(s: State, step: Step)
    requires !CodeToCome(s) && Enabled(s, step)
    ensures !step.Adjust?
  {
    hide Count, FirstFor;
    if step.Adjust? { assert false; }
  }

  /** Then no continuation at all lets all workers leave, colliding deadlines included: no code is left that could
      insert one. */
  lemma {:induction false} DoomedForGood(s: State, steps: seq<Step>)
    requires Inv(s) && Doomed(s) && Run(s, steps).Some?
    ensures Doomed(Run(s, steps).value) && !AllLeft(Run(s, steps).value)
    decreases |steps|
  {
    hide Inv, Enabled, Fails, Apply, AllLeft, MustRead, CodeToCome;
    if steps == [] {
      assert Held(s);
      HeldNotLeft(s);
    } else {
      StepKeepsInv(s, steps[0]);
      DoomedStays(s, steps[0]);
      DoomedForGood(Apply(s, steps[0]), steps[1..]);
    }
  }
}
