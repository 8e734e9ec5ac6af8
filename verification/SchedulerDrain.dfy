/** When a shutdown can still complete: while no queued task is abandoned, no ended fiber revived and no dead timer in
    the way, and only then. */
module SchedulerDrain {
  import opened Common
  import opened SchedulerModel
  import opened SchedulerProofs
  import opened SchedulerRuns
  import opened SchedulerShutdown
  import opened SchedulerHeld
  import opened SchedulerProgress

  /** Some continuation without colliding deadlines lets all workers leave. */
  ghost predicate CanComplete(s: State) {
    exists steps :: Run(s, steps).Some? && CollisionFree(s, steps) && AllLeft(Run(s, steps).value)
  }

  /** Some continuation in which code of users only cancels, deregisters and ends does. */
  ghost predicate CanSettle(s: State) {
    exists steps :: Run(s, steps).Some? && AllSettle(s, steps) && AllLeft(Run(s, steps).value)
  }

  /** The steps are a part of such a continuation that brings its end nearer. */
  ghost predicate Advances(s: State, steps: seq<Step>) {
    Run(s, steps).Some? && AllSettle(s, steps) && Nearer(s, Run(s, steps).value) && Good(Run(s, steps).value)
  }

  lemma SettleCons(s: State, step: Step, steps: seq<Step>)
    requires Enabled(s, step) && !Fails(s, step) && Settles(s, step) && AllSettle(Apply(s, step), steps)
    ensures AllSettle(s, [step] + steps)
  {
    hide Enabled, Fails, Apply, Settles;
    assert ([step] + steps)[1..] == steps;
  }

  lemma OneStep(s: State, step: Step)
    requires Enabled(s, step) && !Fails(s, step) && Settles(s, step)
    requires Nearer(s, Apply(s, step)) && Good(Apply(s, step))
    ensures Advances(s, [step])
  {
    hide Enabled, Fails, Apply, Settles, Nearer, Good;
    RunOne(s, step, Apply(s, step));
    SettleCons(s, step, []);
    assert [step] + [] == [step];
  }

  lemma TwoSteps(s: State, first: Step, second: Step)
    requires Enabled(s, first) && !Fails(s, first) && Settles(s, first)
    requires var s' := Apply(s, first); Enabled(s', second) && !Fails(s', second) && Settles(s', second)
    requires var s'' := Apply(Apply(s, first), second); Nearer(s, s'') && Good(s'')
    ensures Advances(s, [first, second])
  {
    hide Enabled, Fails, Apply, Settles, Nearer, Good;
    RunTwo(s, first, Apply(s, first), second, Apply(Apply(s, first), second));
    SettleCons(Apply(s, first), second, []);
    SettleCons(s, first, [second]);
    assert [second] + [] == [second] && [first] + [second] == [first, second];
  }

  // ---------------------------------------------------------------- cancelling

  /** With a dead timer in the set and not in the way, no idle pass is under way. */
  lemma NoPassNow(s: State)
    requires Inv(s) && s.timers.dead > 0 && !Held(s)
    ensures Count(s.workers, IsCounting) == 0
  {
    hide AccountOk, OrderOk, Manned, CodeToCome;
    forall w | 0 <= w < |s.workers| ensures !IsCounting(s.workers[w].phase) {
      assert WorkerOk(s, w) && PastTimers(s.workers[w]);
    }
    NoneCounted(s.workers, IsCounting);
  }

  /** Code of users cancels the recurring timers, and deregisters what a dead timer makes a worker wait for. */
  lemma Cancelling(s: State, who: Pusher)
    requires Good(s) && Acting(s, who) && (s.timers.recurring > 0 || NeedsCode(s))
    ensures exists steps :: Advances(s, steps)
  {
    hide Inv, NoneRevived, NoneAbandoned, Held, Count, Sure;
    var step := Adjust(who, s.timers.(recurring := 0), if s.timers.dead > 0 then 0 else s.pending);
    assert PendingOk(s) by { InvPending(s); }
    if s.timers.dead > 0 { NoPassNow(s); }
    StaysGood(s, step);
    CodeNoFarther(s, step);
    OneStep(s, step);
  }

  lemma InvPending(s: State)
    requires Inv(s)
    ensures PendingOk(s)
  {}

  lemma Stopping(s: State)
    requires Good(s) && !s.stopping && !NeedsCode(s)
    ensures exists steps :: Advances(s, steps)
  {
    hide Inv, NoneRevived, NoneAbandoned, Held, NeedsCode, Sure;
    assert Enabled(s, Stop) && !Fails(s, Stop);
    CodeNoFarther(s, Stop);
    StaysGood(s, Stop);
    StepsNoFarther(s, Stop);
    StopsNearer(s, Apply(s, Stop));
    OneStep(s, Stop);
  }

  lemma StopsNearer(s: State, s': State)
    requires NoFarther(s, s') && StopWeight(s') < StopWeight(s)
    ensures Nearer(s, s')
  {
    hide CodeWeight, RecurringWeight, StopWeight, TaskWeight, LeaveWeight;
  }

  // ---------------------------------------------------------------- tasks in hand

  /** A task in hand comes nearer to its end. */
  lemma HandMoves(s: State, w: nat)
    requires ControlOk(s) && w < |s.workers| && InHand(s.workers[w].phase).Some?
    requires Enabled(s, NextOf(s, w)) && !Fails(s, NextOf(s, w))
    ensures var s' := Apply(s, NextOf(s, w));
      && ByOneWorker(NextOf(s, w)) && NextOf(s, w).w == w && w < |s'.workers| && !NextOf(s, w).Scan?
      && s'.queue == s.queue && s'.timers == s.timers && s'.pending == s.pending
      && HandWeight(s'.workers[w]) < HandWeight(s.workers[w])
  {
    hide ControlOk, FirstFor, Without, Acting, RunsCode, Count, Passes;
  }

  /** The weight of the tasks changes with the worker's own. */
  lemma TasksNearer(s: State, step: Step)
    requires ByOneWorker(step) && Enabled(s, step) && !Fails(s, step)
    ensures var s' := Apply(s, step);
      && step.w < |s.workers| == |s'.workers|
      && Sum(s'.workers, HandWeight)
        == Sum(s.workers, HandWeight) - HandWeight(s.workers[step.w]) + HandWeight(s'.workers[step.w])
  {
    hide Apply, Enabled, Fails, Sum, HandWeight;
    OwnFrame(s, step);
    var s' := Apply(s, step);
    assert s'.workers == s.workers[step.w := s'.workers[step.w]];
    SumUpdate(s.workers, step.w, s'.workers[step.w], HandWeight);
  }

  /** Code that was to come still is, when a hand moves on that does not run it out. */
  lemma CodeStays(s: State, w: nat)
    requires ControlOk(s) && w < |s.workers| && InHand(s.workers[w].phase).Some? && !s.workers[w].phase.Running?
    requires s.workers[w].phase.Locked? ==>
      s.workers[w].phase.f < |s.fibers| && s.fibers[s.workers[w].phase.f].state != TERM
    requires Enabled(s, NextOf(s, w)) && !Fails(s, NextOf(s, w)) && CodeToCome(s)
    ensures CodeToCome(Apply(s, NextOf(s, w)))
  {
    hide ControlOk, Apply, Fails, Enabled;
    HandMoves(s, w);
    var step, s' := NextOf(s, w), Apply(s, NextOf(s, w));
    OwnFrame(s, step);
    if v :| 0 <= v < |s.workers| && CodePhase(s.workers[v].phase) {
      if v == w { CodeMoves(s, w); } else { assert CodePhase(s'.workers[v].phase); }
    }
  }

  lemma CodeMoves(s: State, w: nat)
    requires w < |s.workers| && CodePhase(s.workers[w].phase) && !s.workers[w].phase.Running?
    requires s.workers[w].phase.Locked? ==>
      s.workers[w].phase.f < |s.fibers| && s.fibers[s.workers[w].phase.f].state != TERM
    requires Enabled(s, NextOf(s, w)) && !Fails(s, NextOf(s, w))
    ensures w < |Apply(s, NextOf(s, w)).workers| && CodePhase(Apply(s, NextOf(s, w)).workers[w].phase)
  {
    hide FirstFor, Without, Acting, RunsCode, Count, Passes;
  }

  /** The worker is about to find that the fiber of its task has ended. */
  predicate AtEnded(s: State, w: nat) {
    && w < |s.workers| && s.workers[w].phase.Locked? && s.workers[w].phase.f < |s.fibers|
    && s.fibers[s.workers[w].phase.f].state == TERM
  }

  /** What moving a hand on does. */
  lemma HandGoes(s: State, w: nat)
    requires Good(s) && w < |s.workers| && InHand(s.workers[w].phase).Some? && (NeedsCode(s) ==> !AtEnded(s, w))
    requires s.workers[w].phase.Taken? && s.workers[w].phase.task.fiber.Some? ==>
      forall v | 0 <= v < |s.workers| :: MutexOf(s.workers[v].phase).None?
    requires s.workers[w].phase.Running? ==> s.timers.recurring == 0 && !NeedsCode(s)
    ensures var step := NextOf(s, w);
      && Enabled(s, step) && !Fails(s, step) && Settles(s, step) && Good(Apply(s, step))
      && NoFarther(s, Apply(s, step)) && TaskWeight(Apply(s, step)) < TaskWeight(s)
  {
    hide Inv, NoneRevived, NoneAbandoned, Held, Enabled, Fails, Apply, NextOf, Sum, Settles, NeedsCode, NoFarther,
      CodeToCome, HandWeight, Sure;
    NextIsEnabled(s, w);
    var step, s' := NextOf(s, w), Apply(s, NextOf(s, w));
    InvControl(s);
    HandMoves(s, w);
    HandKind(s, w);
    TasksNearer(s, step);
    CodeNoFarther(s, step);
    if NeedsCode(s) {
      if s.workers[w].phase.Locked? { LockedInRange(s, w); }
      assert CodeToCome(s) by { NeededCodeComes(s); }
      CodeStays(s, w);
    }
    StaysGood(s, step);
    StepsNoFarther(s, step);
  }

  lemma HandAdvances(s: State, w: nat)
    requires Good(s) && w < |s.workers| && InHand(s.workers[w].phase).Some? && (NeedsCode(s) ==> !AtEnded(s, w))
    requires s.workers[w].phase.Taken? && s.workers[w].phase.task.fiber.Some? ==>
      forall v | 0 <= v < |s.workers| :: MutexOf(s.workers[v].phase).None?
    requires s.workers[w].phase.Running? ==> s.timers.recurring == 0 && !NeedsCode(s)
    ensures exists steps :: Advances(s, steps)
  {
    hide Good, Enabled, Fails, Apply, NextOf, Nearer, Settles, NeedsCode, NoFarther, TaskWeight;
    HandGoes(s, w);
    NearerFrom(s, Apply(s, NextOf(s, w)));
    OneStep(s, NextOf(s, w));
  }

  /** A fiber that has ended is made READY again while its mutex is held, so that its task runs code. */
  lemma ResetsHeld(s: State, w: nat)
    requires Good(s) && NeedsCode(s) && AtEnded(s, w)
    ensures var step := Reset(FromOutside, s.workers[w].phase.f);
      && Enabled(s, step) && !Fails(s, step) && Settles(s, step) && Good(Apply(s, step))
      && NoFarther(s, Apply(s, step)) && TaskWeight(Apply(s, step)) == TaskWeight(s)
      && Apply(s, step).workers == s.workers && !AtEnded(Apply(s, step), w)
  {
    hide Inv, NoneRevived, NoneAbandoned, Held, Sum, NeedsCode, NoFarther, HandWeight, Sure, Count, FirstFor;
    var step := Reset(FromOutside, s.workers[w].phase.f);
    InvControl(s);
    LockedInRange(s, w);
    forall v | 0 <= v < |s.workers| && s.workers[v].phase.Ending? ensures s.workers[v].phase.f != step.f {
      assert WorkerOk(s, v);
    }
    assert CodePhase(s.workers[w].phase);
    StaysGood(s, step);
    StepsNoFarther(s, step);
  }

  lemma EndedAdvances(s: State, w: nat)
    requires Good(s) && NeedsCode(s) && AtEnded(s, w)
    ensures exists steps :: Advances(s, steps)
  {
    hide Good, Enabled, Fails, Apply, Nearer, Settles, NeedsCode, TaskWeight, CodeWeight, RecurringWeight, StopWeight;
    var step := Reset(FromOutside, s.workers[w].phase.f);
    ResetsHeld(s, w);
    var s1 := Apply(s, step);
    HandGoes(s1, w);
    NearerFrom(s, Apply(s1, NextOf(s1, w)));
    TwoSteps(s, step, NextOf(s1, w));
  }

  lemma HandKind(s: State, w: nat)
    requires w < |s.workers| && InHand(s.workers[w].phase).Some?
    ensures !MidRead(s.workers[w].phase) && !NextOf(s, w).Yield?
      && (NextOf(s, w).Finish? ==> s.workers[w].phase.Running?)
  {}

  lemma LockedInRange(s: State, w: nat)
    requires ControlOk(s) && w < |s.workers| && s.workers[w].phase.Locked?
    ensures s.workers[w].phase.f < |s.fibers| && s.fibers[s.workers[w].phase.f].holder == Some(w)
  {
    assert WorkerOk(s, w);
  }

  lemma NeededCodeComes(s: State)
    requires !Held(s) && NeedsCode(s)
    ensures CodeToCome(s)
  {}

  // ---------------------------------------------------------------- idle passes

  predicate Owes(phase: Phase) { phase.Counting? || (phase.Scheduling? && phase.owed > 0) }

  /** A worker in its pass, or anywhere else before its reads, meets no dead timer. */
  lemma NoDeadTimer(s: State, w: nat)
    requires !Held(s) && w < |s.workers| && !PastTimers(s.workers[w])
    ensures s.timers.dead == 0
  {}

  lemma InPassReads(s: State, w: nat)
    requires ControlOk(s) && w < |s.workers|
    requires s.workers[w].phase.IdlePass? || s.workers[w].phase.Scheduling? || s.workers[w].phase.Counting?
    ensures !PastTimers(s.workers[w])
  {
    assert WorkerOk(s, w);
  }

  lemma OwedMoves(s: State, w: nat)
    requires w < |s.workers| && Owes(s.workers[w].phase) && Enabled(s, NextOf(s, w)) && !Fails(s, NextOf(s, w))
    ensures var s' := Apply(s, NextOf(s, w));
      && ByOneWorker(NextOf(s, w)) && NextOf(s, w).w == w && w < |s'.workers|
      && !NextOf(s, w).Scan? && !NextOf(s, w).Finish? && !NextOf(s, w).Yield? && s'.timers == s.timers
      && 10 * |s'.queue| + 12 * s'.pending + HandWeight(s'.workers[w])
         < 10 * |s.queue| + 12 * s.pending + HandWeight(s.workers[w])
      && forall task | task in s'.queue :: task in s.queue || task.thread == ANY_THREAD
  {
    hide FirstFor, Without, Acting, RunsCode, Count, Passes, Fails;
  }

  /** What the pass owes to the queue, or to the count of events, is settled. */
  lemma OwedAdvances(s: State, w: nat)
    requires Good(s) && w < |s.workers| && Owes(s.workers[w].phase)
    ensures exists steps :: Advances(s, steps)
  {
    hide Inv, NoneRevived, NoneAbandoned, Held, Enabled, Fails, Apply, NextOf, Nearer, Sum, Settles, NoFarther,
      CodeToCome, HandWeight, Sure, AwaitsPending;
    NextIsEnabled(s, w);
    var step, s' := NextOf(s, w), Apply(s, NextOf(s, w));
    InvControl(s);
    InPassReads(s, w);
    NoDeadTimer(s, w);
    OwedMoves(s, w);
    TasksNearer(s, step);
    CodeNoFarther(s, step);
    StaysGood(s, step);
    StepsNoFarther(s, step);
    NearerFrom(s, s');
    OneStep(s, step);
  }

  lemma TriggerMoves(s: State, w: nat)
    requires In(s, w, Scheduling(0)) && s.pending > 0 && Count(s.workers, IsCounting) == 0
    ensures Enabled(s, Trigger(w, None)) && !Fails(s, Trigger(w, None))
    ensures var s1 := Apply(s, Trigger(w, None));
      && Enabled(s1, CountEvent(w)) && !Fails(s1, CountEvent(w))
      && var s2 := Apply(s1, CountEvent(w));
        s2 == s.(queue := s.queue + [ScheduleTask(|s.pins|, None, true, ANY_THREAD)], pins := s.pins + [ANY_THREAD],
        pending := s.pending - 1)
  {
    hide FirstFor, Without, Acting, RunsCode, Count, Passes;
    var s2 := Apply(Apply(s, Trigger(w, None)), CountEvent(w));
    assert s2.workers == s.workers;
  }

  /** A pending event is reported: its waiter is scheduled and the event counted out. */
  lemma TriggerAdvances(s: State, w: nat)
    requires Good(s) && In(s, w, Scheduling(0)) && s.pending > 0 && Count(s.workers, IsCounting) == 0
    ensures exists steps :: Advances(s, steps)
  {
    hide Inv, NoneRevived, NoneAbandoned, Held, Enabled, Fails, Apply, Nearer, Sum, NoFarther,
      CodeToCome, HandWeight, Sure, AwaitsPending, Count, StopWeight, RecurringWeight;
    InvControl(s);
    InPassReads(s, w);
    NoDeadTimer(s, w);
    TriggerMoves(s, w);
    var first, second := Trigger(w, None), CountEvent(w);
    var s1 := Apply(s, first);
    var s2 := Apply(s1, second);
    CodeNoFarther(s, first);
    QueueAfter(s, first);
    TriggerQueues(s, w);
    StaysGood(s, first);
    StepsNoFarther(s, first);
    CodeNoFarther(s1, second);
    StaysGood(s1, second);
    StepsNoFarther(s1, second);
    FartherTwice(s, s1, s2);
    NearerFrom(s, s2);
    TwoSteps(s, first, second);
  }

  lemma TriggerQueues(s: State, w: nat)
    requires Enabled(s, Trigger(w, None)) && Enabled(Apply(s, Trigger(w, None)), CountEvent(w))
    ensures var s1 := Apply(s, Trigger(w, None));
      && s1.queue == s.queue + [ScheduleTask(|s.pins|, None, true, ANY_THREAD)]
      && Apply(s1, CountEvent(w)).queue == s1.queue
  {
    hide Count;
  }

  lemma FartherTwice(s: State, s1: State, s2: State)
    requires NoFarther(s, s1) && NoFarther(s1, s2)
    ensures NoFarther(s, s2)
  {
    hide CodeWeight, RecurringWeight, StopWeight;
  }

  // ---------------------------------------------------------------- leaving

  /** `stop` was called, and no worker has a task in hand or owed. */
  predicate Settled(s: State) {
    s.stopping && forall w | 0 <= w < |s.workers| :: InHand(s.workers[w].phase).None? && !Owes(s.workers[w].phase)
  }

  /** A worker on its way to scanning or leaving. */
  predicate OnTheWay(worker: Worker) {
    InHand(worker.phase).None? && !Owes(worker.phase) && !worker.phase.Scanning? && !worker.phase.Exited?
  }

  /** With nobody holding a task the active count is zero. */
  lemma NobodyActive(s: State)
    requires Inv(s) && Settled(s)
    ensures s.active == 0 && Count(s.workers, IsCounting) == 0
  {
    hide ControlOk, OrderOk;
    NoneCounted(s.workers, Busy);
    forall w | 0 <= w < |s.workers| ensures !IsCounting(s.workers[w].phase) { assert !Owes(s.workers[w].phase); }
    NoneCounted(s.workers, IsCounting);
  }

  lemma NoneSure(s: State)
    requires Settled(s) && s.queue == []
    ensures !Sure(s) && !CodeToCome(s)
  {
    forall w | 0 <= w < |s.workers| ensures !SureWorker(s.workers[w]) && !CodePhase(s.workers[w].phase) {
      assert InHand(s.workers[w].phase).None? && !Owes(s.workers[w].phase);
    }
  }

  lemma CollectMoves(s: State, w: nat)
    requires In(s, w, IdlePass) && s.queue == []
    ensures var s' := Apply(s, NextOf(s, w));
      && NextOf(s, w) == Collect(w, s.timers, Kept(s.timers)) && Enabled(s, NextOf(s, w)) && !Fails(s, NextOf(s, w))
      && s' == At(s, w, Scheduling(s.timers.once + s.timers.recurring)).(timers := Kept(s.timers))
      && Settles(s, NextOf(s, w))
  {}

  /** Every timer expires: the callbacks are owed, and the recurring timers stay. */
  lemma CollectAdvances(s: State, w: nat)
    requires Good(s) && Settled(s) && In(s, w, IdlePass) && s.queue == []
    ensures exists steps :: Advances(s, steps)
  {
    hide Inv, NoneRevived, NoneAbandoned, Held, Enabled, Fails, Apply, NextOf, Sum, NeedsCode, Settles, Nearer, Sure,
      Settled, NoFarther, Count;
    CollectMoves(s, w);
    var step, s' := NextOf(s, w), Apply(s, NextOf(s, w));
    InvControl(s);
    InPassReads(s, w);
    NoDeadTimer(s, w);
    NoneSure(s);
    CodeNoFarther(s, step);
    assert !NeedsCode(s') by { Undead(s'); }
    StaysGood(s, step);
    StepsNoFarther(s, step);
    CollectNearer(s, w, s');
    OneStep(s, step);
  }

  lemma Undead(s: State)
    requires s.timers.dead == 0
    ensures !NeedsCode(s)
  {}

  lemma CollectNearer(s: State, w: nat, s': State)
    requires In(s, w, IdlePass) && s.queue == [] && s.timers.dead == 0 && !Sure(s) && NoFarther(s, s')
    requires s' == At(s, w, Scheduling(s.timers.once + s.timers.recurring)).(timers := Kept(s.timers))
    ensures Nearer(s, s')
  {
    hide Sum;
    Undead(s);
    Undead(s');
    SumUpdate(s.workers, w, s'.workers[w], HandWeight);
    SumUpdate(s.workers, w, s'.workers[w], ToLeave(s.timers != UNARMED, s.pending > 0));
    if s.timers.recurring > 0 {
      assert SureWorker(s'.workers[w]);
    } else {
      NearerFrom(s, s');
    }
  }

  /** The pass does no more than look, or the step is not of a pass. */
  predicate Walks(s: State, w: nat) {
    && w < |s.workers| && OnTheWay(s.workers[w])
    && (s.queue == [] ==> !s.workers[w].phase.IdlePass? && !(s.workers[w].phase.Scheduling? && s.pending > 0))
  }

  lemma WalkMoves(s: State, w: nat)
    requires ControlOk(s) && s.stopping && s.active == 0 && Walks(s, w)
    requires Enabled(s, NextOf(s, w)) && !Fails(s, NextOf(s, w))
    ensures ByOneWorker(NextOf(s, w)) && NextOf(s, w).w == w && !NextOf(s, w).Scan?
    ensures !NextOf(s, w).Finish? && !NextOf(s, w).Yield?
    ensures var s' := Apply(s, NextOf(s, w));
      && w < |s'.workers| && s'.queue == s.queue
      && HandWeight(s.workers[w]) == HandWeight(s'.workers[w]) == 0
      && s'.timers == s.timers && s'.pending == s.pending
  {
    hide FirstFor, Without, Acting, RunsCode, FiberOk, TaskOk, Count, Passes;
    assert WorkerOk(s, w);
  }

  lemma WalkWeighs(s: State, w: nat)
    requires ControlOk(s) && s.stopping && s.active == 0 && Walks(s, w)
    requires Enabled(s, NextOf(s, w)) && !Fails(s, NextOf(s, w))
    ensures var s' := Apply(s, NextOf(s, w));
      && w < |s'.workers|
      && (s.queue != [] ==> ToScan(s'.workers[w]) < ToScan(s.workers[w]))
      && (s.queue == [] ==> var weight := ToLeave(s.timers != UNARMED, s.pending > 0);
            weight(s'.workers[w]) < weight(s.workers[w]))
  {
    hide FirstFor, Without, Acting, RunsCode, FiberOk, TaskOk, Count, Passes;
    assert WorkerOk(s, w);
  }

  lemma WalkNearer(s: State, w: nat)
    requires ControlOk(s) && s.stopping && s.active == 0 && Walks(s, w)
    requires Enabled(s, NextOf(s, w)) && !Fails(s, NextOf(s, w))
    ensures var s' := Apply(s, NextOf(s, w)); TaskWeight(s') == TaskWeight(s) && LeaveWeight(s') < LeaveWeight(s)
  {
    hide ControlOk, Enabled, Fails, Apply, Sum, NextOf, ToScan, ToLeave, HandWeight;
    WalkMoves(s, w);
    WalkWeighs(s, w);
    OwnFrame(s, NextOf(s, w));
    TasksNearer(s, NextOf(s, w));
    var s' := Apply(s, NextOf(s, w));
    assert s'.workers == s.workers[w := s'.workers[w]];
    SumUpdate(s.workers, w, s'.workers[w], ToScan);
    SumUpdate(s.workers, w, s'.workers[w], ToLeave(s.timers != UNARMED, s.pending > 0));
  }

  /** A worker that is past reading the timers reads on only when it will find nothing in the way. */
  lemma WalkInTime(s: State, w: nat)
    requires Good(s) && Settled(s) && Walks(s, w) && s.timers.dead > 0 && (s.queue == [] || Decided(s.workers[w]))
    ensures ReadsInTime(s, NextOf(s, w))
  {
    hide AccountOk, OrderOk, PendingOk, NoneRevived, NoneAbandoned, NextOf, Manned, CodeToCome, MustRead;
    NobodyActive(s);
    if MidRead(s.workers[w].phase) {
      UndecidedReads(s, w);
      NoneSure(s);
    }
    NextIsOwn(s, w);
  }

  lemma NextIsOwn(s: State, w: nat)
    requires w < |s.workers| && s.workers[w].phase != Exited
    ensures ByOneWorker(NextOf(s, w)) && NextOf(s, w).w == w
  {}

  /** With no code to come, nothing needs any. */
  lemma NeedsNone(s: State)
    requires !Held(s) && Settled(s)
    ensures NeedsCode(s) ==> s.queue != []
  {
    hide Manned, MustRead, AwaitsPending, Settled, CodeToCome;
    if s.queue == [] { NoneSure(s); }
  }

  lemma WalkAdvances(s: State, w: nat)
    requires Good(s) && Settled(s) && Walks(s, w)
    requires s.timers.dead > 0 ==> s.queue == [] || Decided(s.workers[w])
    ensures exists steps :: Advances(s, steps)
  {
    hide Inv, NoneRevived, NoneAbandoned, Held, Enabled, Fails, Apply, NextOf, Sum, NeedsCode, Settles, Nearer, Sure,
      Settled, NoFarther, Count, ReadsInTime, TaskWeight, LeaveWeight, Decided, Walks;
    assert s.stopping && w < |s.workers| && !s.workers[w].phase.Taken? by { WalksOn(s, w); }
    NobodyActive(s);
    NextIsEnabled(s, w);
    InvControl(s);
    var step, s' := NextOf(s, w), Apply(s, NextOf(s, w));
    WalkMoves(s, w);
    WalkNearer(s, w);
    if s.timers.dead > 0 { WalkInTime(s, w); }
    CodeNoFarther(s, step);
    NeedsNone(s);
    StaysGood(s, step);
    StepsNoFarther(s, step);
    NearerFrom(s, s');
    OneStep(s, step);
  }

  lemma WalksOn(s: State, w: nat)
    requires Settled(s) && Walks(s, w)
    ensures s.stopping && w < |s.workers| && !s.workers[w].phase.Taken?
  {}

  lemma ScanMoves(s: State, w: nat)
    requires In(s, w, Scanning) && (s.queue == [] || FirstFor(s.queue, w) < |s.queue|) && !Fails(s, Scan(w))
    ensures Enabled(s, Scan(w)) && Settles(s, Scan(w))
    ensures var s' := Apply(s, Scan(w));
      && s'.timers == s.timers && s'.pending == s.pending && s'.stopping == s.stopping
      && (s.queue == [] ==> s' == At(s, w, NoTask))
      && (s.queue != [] ==> |s'.queue| == |s.queue| - 1 && w < |s'.workers| && CodePhase(s'.workers[w].phase)
                            && HandWeight(s'.workers[w]) == 9)
      && (forall task | task in s'.queue :: task in s.queue)
  {
    hide FirstFor, Without;
    var k := FirstFor(s.queue, w);
    if s.queue != [] { WithoutIsPart(s.queue, k); }
  }

  lemma WithoutIsPart(queue: seq<ScheduleTask>, k: nat)
    requires k < |queue|
    ensures |Without(queue, k)| == |queue| - 1 && forall task | task in Without(queue, k) :: task in queue
  {}

  /** A scan takes a task, or with the queue empty lets the worker go on to leave. */
  lemma ScanAdvances(s: State, w: nat)
    requires Good(s) && Settled(s) && In(s, w, Scanning) && (s.queue == [] || FirstFor(s.queue, w) < |s.queue|)
    ensures exists steps :: Advances(s, steps)
  {
    hide Inv, NoneRevived, NoneAbandoned, Held, Fails, Apply, Sum, NeedsCode, Settles, Nearer, Sure,
      Settled, NoFarther, Count, FirstFor;
    var step := Scan(w);
    AssertionFailsIff(s, step);
    ScanMoves(s, w);
    var s' := Apply(s, step);
    CodeNoFarther(s, step);
    NeedsNone(s);
    StaysGood(s, step);
    StepsNoFarther(s, step);
    TasksNearer(s, step);
    if s.queue == [] {
      SumUpdate(s.workers, w, s'.workers[w], ToLeave(s.timers != UNARMED, s.pending > 0));
    }
    NearerFrom(s, s');
    OneStep(s, step);
  }

  /** With all other workers at their scans, gone or left waiting, a queued task that is not abandoned has a worker to
      take it. */
  lemma TakerOf(s: State) returns (w: nat)
    requires Good(s) && Settled(s) && s.queue != []
    requires forall v | 0 <= v < |s.workers| && (s.timers.dead > 0 ==> Decided(s.workers[v])) ::
      !OnTheWay(s.workers[v])
    ensures In(s, w, Scanning) && FirstFor(s.queue, w) < |s.queue|
  {
    hide NoneRevived, AccountOk, OrderOk, FirstFor, Manned, MustRead;
    var task := s.queue[0];
    assert task in s.queue && !Abandoned(s, task);
    if s.timers.dead > 0 {
      assert Manned(s, task);
      w := MannedBy(s, task);
    } else if task.thread == ANY_THREAD {
      QueuedMeansSomeoneStays(s);
      w :| 0 <= w < |s.workers| && !Decided(s.workers[w]);
      assert WorkerOk(s, w);
    } else {
      w := task.thread;
    }
    assert InHand(s.workers[w].phase).None?;
    TakesSomething(s.queue, w);
  }

  lemma MannedBy(s: State, task: ScheduleTask) returns (w: nat)
    requires Manned(s, task)
    ensures w < |s.workers| && Eligible(task.thread, w) && !Leaving(s.workers[w]) && Decided(s.workers[w])
  {
    w :| 0 <= w < |s.workers| && Eligible(task.thread, w) && !Leaving(s.workers[w]) && Decided(s.workers[w]);
  }

  lemma TakesSomething(queue: seq<ScheduleTask>, w: nat)
    requires queue != [] && Eligible(queue[0].thread, w)
    ensures FirstFor(queue, w) < |queue|
  {}

  // ---------------------------------------------------------------- progress

  /** While a task is in hand some worker can bring its task on: one that holds a fiber's mutex, if there is one. */
  lemma HandProgress(s: State)
    requires Good(s) && exists w | 0 <= w < |s.workers| :: InHand(s.workers[w].phase).Some?
    ensures exists steps :: Advances(s, steps)
  {
    hide Inv, NoneRevived, NoneAbandoned, Held, Advances, NeedsCode, AtEnded, Acting;
    var w: nat :| 0 <= w < |s.workers| && InHand(s.workers[w].phase).Some?;
    if v :| 0 <= v < |s.workers| && MutexOf(s.workers[v].phase).Some? { w := v; }
    if s.workers[w].phase.Running? && (s.timers.recurring > 0 || NeedsCode(s)) {
      TaskActs(s, w);
      Cancelling(s, ByWorker(w));
    } else if NeedsCode(s) && AtEnded(s, w) {
      EndedAdvances(s, w);
    } else {
      HandAdvances(s, w);
    }
  }

  lemma TaskActs(s: State, w: nat)
    requires w < |s.workers| && s.workers[w].phase.Running?
    ensures Acting(s, ByWorker(w))
  {}

  lemma IdleProgress(s: State, w: nat)
    requires Good(s) && Settled(s) && w < |s.workers| && OnTheWay(s.workers[w])
    requires s.timers.dead > 0 ==> s.queue == [] || Decided(s.workers[w])
    ensures exists steps :: Advances(s, steps)
  {
    hide Inv, NoneRevived, NoneAbandoned, Held, Advances, NeedsCode, Settled, Decided;
    NobodyActive(s);
    if s.queue == [] && s.workers[w].phase.IdlePass? {
      CollectAdvances(s, w);
    } else if s.queue == [] && s.workers[w].phase.Scheduling? && s.pending > 0 {
      TriggerAdvances(s, w);
    } else {
      WalkAdvances(s, w);
    }
  }

  lemma SettledProgress(s: State)
    requires Good(s) && Settled(s) && !AllLeft(s)
    ensures exists steps :: Advances(s, steps)
  {
    hide Inv, NoneRevived, NoneAbandoned, Held, Advances, NeedsCode, Decided, FirstFor;
    if w :| 0 <= w < |s.workers| && OnTheWay(s.workers[w])
            && (s.timers.dead > 0 ==> s.queue == [] || Decided(s.workers[w])) {
      IdleProgress(s, w);
    } else if s.queue == [] {
      var w: nat :| 0 <= w < |s.workers| && s.workers[w].phase != Exited;
      assert InHand(s.workers[w].phase).None? && !OnTheWay(s.workers[w]);
      ScanAdvances(s, w);
    } else {
      var w := TakerOf(s);
      ScanAdvances(s, w);
    }
  }

  lemma Progress(s: State)
    requires Good(s) && !AllLeft(s)
    ensures exists steps :: Advances(s, steps)
  {
    hide Inv, NoneRevived, NoneAbandoned, Held, Advances, NeedsCode, AllLeft;
    if !s.stopping && NeedsCode(s) {
      Cancelling(s, FromOutside);
    } else if !s.stopping {
      Stopping(s);
    } else if w :| 0 <= w < |s.workers| && InHand(s.workers[w].phase).Some? {
      HandProgress(s);
    } else if w :| 0 <= w < |s.workers| && Owes(s.workers[w].phase) {
      OwedAdvances(s, w);
    } else {
      SettledProgress(s);
    }
  }

  lemma {:induction false} SettleThen(s: State, first: seq<Step>, second: seq<Step>)
    requires Run(s, first).Some? && AllSettle(s, first) && AllSettle(Run(s, first).value, second)
    ensures AllSettle(s, first + second)
    decreases |first|
  {
    hide Enabled, Fails, Apply, Settles;
    if first == [] {
      assert first + second == second;
    } else {
      SettleThen(Apply(s, first[0]), first[1..], second);
      assert first + second == [first[0]] + (first[1..] + second);
      SettleCons(s, first[0], first[1..] + second);
    }
  }

  /** From any good state, a continuation that lets all workers leave. */
  lemma {:induction false} Completion(s: State) returns (steps: seq<Step>)
    requires Good(s)
    ensures Run(s, steps).Some? && AllSettle(s, steps) && AllLeft(Run(s, steps).value)
    decreases CodeWeight(s), RecurringWeight(s), StopWeight(s), TaskWeight(s), LeaveWeight(s)
  {
    hide Good, Run, AllLeft, AllSettle, StopWeight, TaskWeight, RecurringWeight, CodeWeight, LeaveWeight;
    if AllLeft(s) {
      steps := [];
      RunNothing(s);
      SettleNothing(s);
    } else {
      Progress(s);
      var first :| Advances(s, first);
      var rest := Completion(Run(s, first).value);
      steps := first + rest;
      RunThen(s, first, rest);
      SettleThen(s, first, rest);
    }
  }

  lemma SettleNothing(s: State)
    ensures AllSettle(s, [])
  {}

  /** A shutdown can still complete, as long as deadlines do not collide, if and only if no queued task is abandoned, no
      ended fiber has been revived and no dead timer holds a worker; and then it can by code that only cancels. */
  lemma CompletesIff(s: State)
    requires Inv(s)
    ensures CanComplete(s) <==> NoneAbandoned(s) && NoneRevived(s) && !Held(s)
    ensures CanComplete(s) <==> CanSettle(s)
  {
    hide Inv, Abandoned, NoneRevived, Held, CollisionFree, AllSettle;
    if NoneAbandoned(s) && NoneRevived(s) && !Held(s) {
      var steps := Completion(s);
      SettlingIsCollisionFree(s, steps);
      assert Run(s, steps).Some? && CollisionFree(s, steps) && AllLeft(Run(s, steps).value);
      assert Run(s, steps).Some? && AllSettle(s, steps) && AllLeft(Run(s, steps).value);
    }
    if CanSettle(s) {
      var steps :| Run(s, steps).Some? && AllSettle(s, steps) && AllLeft(Run(s, steps).value);
      SettlingIsCollisionFree(s, steps);
      assert CanComplete(s);
    }
    if CanComplete(s) {
      var steps :| Run(s, steps).Some? && CollisionFree(s, steps) && AllLeft(Run(s, steps).value);
      if task :| task in s.queue && Abandoned(s, task) {
        AbandonedBlocksShutdown(s, steps, task);
      } else if !NoneRevived(s) {
        var w := WhoIsRevived(s);
        RevivedFails(s, steps, w);
      } else if Held(s) {
        HeldBlocksShutdown(s, steps);
      }
    }
  }

  lemma WhoIsRevived(s: State) returns (w: nat)
    requires Inv(s) && !NoneRevived(s)
    ensures Revived(s, w)
  {
    hide AccountOk, OrderOk, ShutdownOk;
    w :| 0 <= w < |s.workers| && s.workers[w].phase.Ending? &&
      !(s.workers[w].phase.f < |s.fibers| && s.fibers[s.workers[w].phase.f].state == TERM);
    assert WorkerOk(s, w);
  }
}
