/** What holds of every interleaving of the workers: fibers run one at a time, no task is lost or repeated,
    tasks are taken in push order, and a shutdown that completes has run everything. */
module SchedulerRuns {
  import opened Common
  import opened SchedulerModel
  import opened SchedulerProofs

  // ---------------------------------------------------------------- putting runs together

  lemma RunOne(s: State, step: Step, s': State)
    requires Enabled(s, step) && !Fails(s, step) && s' == Apply(s, step)
    ensures Run(s, [step]) == Some(s')
  {
    hide Enabled, Fails, Apply;
  }

  lemma {:induction false} RunThen(s: State, first: seq<Step>, second: seq<Step>)
    requires Run(s, first).Some?
    ensures Run(s, first + second) == Run(Run(s, first).value, second)
    decreases |first|
  {
    hide Enabled, Fails, Apply;
    if first == [] {
      assert first + second == second;
    } else {
      RunThen(Apply(s, first[0]), first[1..], second);
      assert (first + second)[1..] == first[1..] + second;
    }
  }

  lemma RunTwo(s: State, first: Step, mid: State, second: Step, end: State)
    requires Enabled(s, first) && !Fails(s, first) && Apply(s, first) == mid
    requires Enabled(mid, second) && !Fails(mid, second) && Apply(mid, second) == end
    ensures Run(s, [first, second]) == Some(end)
  {
    hide Run, Enabled, Fails, Apply;
    RunOne(s, first, mid);
    RunOne(mid, second, end);
    RunThen(s, [first], [second]);
    assert [first] + [second] == [first, second];
  }

  // ---------------------------------------------------------------- fibers

  /** Of all the assertions in `run`, `resume` and `yield` only one can fail: the last `yield` of a fiber whose
      function has returned, and exactly when the fiber was made READY again before it had switched away. */
  lemma AssertionFailsIff(s: State, step: Step)
    requires Inv(s) && Enabled(s, step)
    ensures Fails(s, step) <==>
      step.FinalYield? && s.workers[step.w].phase.f < |s.fibers| && s.fibers[s.workers[step.w].phase.f].state == READY
  {
    hide AccountOk, OrderOk, ShutdownOk;
    if ByOneWorker(step) { assert WorkerOk(s, step.w); }
    if step.Scan? && FirstFor(s.queue, step.w) < |s.queue| { assert TaskOk(s, s.queue[FirstFor(s.queue, step.w)]); }
  }

  /** Only `reset` of that fiber, between its end and its switch, opens the way to that failure. */
  lemma OnlyResetRevives(s: State, step: Step, w: nat)
    requires Inv(s) && Enabled(s, step) && !Fails(s, step) && w < |s.workers| && s.workers[w].phase.Ending?
    requires s.workers[w].phase.f < |s.fibers| && s.fibers[s.workers[w].phase.f].state == TERM
    ensures var (s', f) := (Apply(s, step), s.workers[w].phase.f);
      f < |s'.fibers| && (s'.fibers[f].state == READY <==> step.Reset? && step.f == f)
  {
    hide AccountOk, OrderOk, ShutdownOk, Apply, Fails, FiberOk;
    var f := s.workers[w].phase.f;
    assert WorkerOk(s, w);
    if step.Reset? && step.f == f {
      ResetMakesReady(s, step);
    } else if ByOneWorker(step) && step.w == w {
      SwitchesAway(s, step);
    } else {
      HeldUntouched(s, step, w, f);
    }
  }

  lemma ResetMakesReady(s: State, step: Step)
    requires step.Reset? && Enabled(s, step)
    ensures !Fails(s, step) && step.f < |Apply(s, step).fibers| && Apply(s, step).fibers[step.f].state == READY
    ensures Apply(s, step).workers == s.workers
  {}

  /** The one step of a worker whose fiber has ended. */
  lemma SwitchesAway(s: State, step: Step)
    requires ControlOk(s) && ByOneWorker(step) && Enabled(s, step) && !Fails(s, step)
    requires s.workers[step.w].phase.Ending?
    ensures var (s', f) := (Apply(s, step), s.workers[step.w].phase.f);
      && step.FinalYield? && s'.workers[step.w].phase.Unlocking? && f < |s.fibers| && f < |s'.fibers|
      && s.fibers[f].state == TERM && s'.fibers[f].state == TERM
  {
    hide FirstFor, Without, Acting, RunsCode, Count, Passes, TaskOk;
    assert WorkerOk(s, step.w);
  }

  /** A new fiber is free and waits to be resumed; the others are as they were. */
  lemma NewFiberIsReady(s: State, who: Pusher)
    requires Enabled(s, NewFiber(who))
    ensures !Fails(s, NewFiber(who))
    ensures var fibers := Apply(s, NewFiber(who)).fibers;
      |fibers| == |s.fibers| + 1 && s.fibers <= fibers && fibers[|s.fibers|] == Fiber(READY, None)
  {}

  /** The step resets no fiber that has ended on some worker and not yet switched away. */
  predicate SafeReset(s: State, step: Step) {
    step.Reset? ==> forall w | 0 <= w < |s.workers| && s.workers[w].phase.Ending? :: s.workers[w].phase.f != step.f
  }

  /** A caller that sees the fiber's mutex free resets it safely. */
  lemma FreeMutexIsSafe(s: State, who: Pusher, f: FiberId)
    requires Inv(s) && f < |s.fibers| && s.fibers[f].holder.None?
    ensures SafeReset(s, Reset(who, f))
  {
    hide AccountOk, OrderOk, ShutdownOk;
    forall w | 0 <= w < |s.workers| && s.workers[w].phase.Ending? ensures s.workers[w].phase.f != f {
      assert WorkerOk(s, w);
    }
  }

  /** No fiber that has ended and not yet switched away has been made READY. */
  predicate NoneRevived(s: State) {
    forall w | 0 <= w < |s.workers| && s.workers[w].phase.Ending? ::
      s.workers[w].phase.f < |s.fibers| && s.fibers[s.workers[w].phase.f].state == TERM
  }

  /** A step revives a fiber if and only if it is an unsafe reset. */
  lemma RevivesIff(s: State, step: Step)
    requires Inv(s) && NoneRevived(s) && Enabled(s, step) && !Fails(s, step)
    ensures NoneRevived(Apply(s, step)) <==> SafeReset(s, step)
  {
    hide AccountOk, OrderOk, ShutdownOk, FirstFor, Without, TaskOk, NoneRevived, Apply, Enabled, Fails;
    var s' := Apply(s, step);
    SameWorkers(s, step);
    if SafeReset(s, step) {
      forall w | 0 <= w < |s'.workers| ensures EndsAsTerm(s', w) { StaysTerm(s, step, w); }
      assert NoneRevived(s') by { AllEndAsTerm(s'); }
    } else {
      var w :| 0 <= w < |s.workers| && s.workers[w].phase.Ending? && s.workers[w].phase.f == step.f;
      ResetRevives(s, step, w);
    }
  }

  predicate EndsAsTerm(s: State, w: nat)
    requires w < |s.workers|
  {
    s.workers[w].phase.Ending? ==> s.workers[w].phase.f < |s.fibers| && s.fibers[s.workers[w].phase.f].state == TERM
  }

  lemma AllEndAsTerm(s: State)
    requires forall w | 0 <= w < |s.workers| :: EndsAsTerm(s, w)
    ensures NoneRevived(s)
  {
    forall w | 0 <= w < |s.workers| && s.workers[w].phase.Ending?
      ensures s.workers[w].phase.f < |s.fibers| && s.fibers[s.workers[w].phase.f].state == TERM
    {
      assert EndsAsTerm(s, w);
    }
  }

  lemma StaysTerm(s: State, step: Step, w: nat)
    requires Inv(s) && NoneRevived(s) && Enabled(s, step) && !Fails(s, step) && SafeReset(s, step)
    requires w < |s.workers| == |Apply(s, step).workers|
    ensures EndsAsTerm(Apply(s, step), w)
  {
    hide AccountOk, OrderOk, ShutdownOk, Apply, Fails, FiberOk;
    assert WorkerOk(s, w);
    if ByOneWorker(step) && step.w == w {
      if s.workers[w].phase.Ending? { SwitchesAway(s, step); } else { EndsByFinish(s, step); }
    } else if s.workers[w].phase.Ending? {
      HeldUntouched(s, step, w, s.workers[w].phase.f);
    } else {
      OthersStay(s, step, w);
    }
  }

  lemma EndsByFinish(s: State, step: Step)
    requires ControlOk(s) && ByOneWorker(step) && Enabled(s, step) && !Fails(s, step)
    requires !s.workers[step.w].phase.Ending? && step.w < |Apply(s, step).workers|
    ensures EndsAsTerm(Apply(s, step), step.w)
  {
    hide FirstFor, Without, Acting, RunsCode, Count, Passes, TaskOk;
    assert WorkerOk(s, step.w);
  }

  lemma OthersStay(s: State, step: Step, w: nat)
    requires ControlOk(s) && Enabled(s, step) && !Fails(s, step) && w < |s.workers|
    requires ByOneWorker(step) ==> step.w != w
    ensures w < |Apply(s, step).workers| && Apply(s, step).workers[w] == s.workers[w]
  {
    hide Apply, Fails, ControlOk;
    SameWorkers(s, step);
    if ByOneWorker(step) { DecidesByReading(s, step); } else { SharedWorkers(s, step); }
  }

  lemma SharedWorkers(s: State, step: Step)
    requires !ByOneWorker(step) && Enabled(s, step) && !Fails(s, step)
    ensures Apply(s, step).workers == s.workers
  {}

  lemma ResetRevives(s: State, step: Step, w: nat)
    requires step.Reset? && Enabled(s, step) && w < |s.workers| && s.workers[w].phase.Ending?
    requires s.workers[w].phase.f == step.f
    ensures w < |Apply(s, step).workers| && !EndsAsTerm(Apply(s, step), w)
    ensures !NoneRevived(Apply(s, step))
  {
    assert !EndsAsTerm(Apply(s, step), w);
  }

  /** Every reset of the run is safe when it comes. */
  predicate ResetsSafely(s: State, steps: seq<Step>)
    decreases |steps|
  {
    steps == [] || !Enabled(s, steps[0]) || Fails(s, steps[0]) ||
    (SafeReset(s, steps[0]) && ResetsSafely(Apply(s, steps[0]), steps[1..]))
  }

  lemma {:induction false} SafeRunKeeps(s: State, steps: seq<Step>)
    requires Inv(s) && NoneRevived(s) && Run(s, steps).Some? && ResetsSafely(s, steps)
    ensures Inv(Run(s, steps).value) && NoneRevived(Run(s, steps).value)
    decreases |steps|
  {
    hide Inv, Enabled, Fails, Apply, NoneRevived, SafeReset;
    if steps != [] {
      StepKeepsInv(s, steps[0]);
      RevivesIff(s, steps[0]);
      SafeRunKeeps(Apply(s, steps[0]), steps[1..]);
    }
  }

  /** In a run whose resets are safe no assertion ever fails. */
  lemma SafeRunNeverFails(s0: State, steps: seq<Step>, next: Step)
    requires Init(s0) && Run(s0, steps).Some? && ResetsSafely(s0, steps) && Enabled(Run(s0, steps).value, next)
    ensures !Fails(Run(s0, steps).value, next)
  {
    hide Run, Inv, Fails, ResetsSafely;
    InitInv(s0);
    SafeRunKeeps(s0, steps);
    AssertionFailsIff(Run(s0, steps).value, next);
  }

  /** The worker's fiber has ended and has been made READY before it switched away. */
  predicate Revived(s: State, w: nat) {
    && w < |s.workers| && s.workers[w].phase.Ending? && s.workers[w].phase.f < |s.fibers|
    && s.fibers[s.workers[w].phase.f].state == READY
  }

  lemma StaysRevived(s: State, step: Step, w: nat)
    requires Inv(s) && Enabled(s, step) && !Fails(s, step) && Revived(s, w)
    ensures Revived(Apply(s, step), w)
  {
    hide AccountOk, OrderOk, ShutdownOk, Apply, Fails, FiberOk;
    assert WorkerOk(s, w);
    if ByOneWorker(step) && step.w == w { SwitchesAway(s, step); }
    else { HeldUntouched(s, step, w, s.workers[w].phase.f); }
  }

  /** Once a fiber is revived its worker goes no further: whatever the others do, its last `yield` fails. */
  lemma {:induction false} RevivedFails(s: State, steps: seq<Step>, w: nat)
    requires Inv(s) && Revived(s, w) && Run(s, steps).Some?
    ensures var s' := Run(s, steps).value; Revived(s', w) && Enabled(s', FinalYield(w)) && Fails(s', FinalYield(w))
    decreases |steps|
  {
    hide Enabled, Fails, Apply, Inv, Revived;
    if steps == [] {
      RevivedYieldFails(s, w);
    } else {
      StepKeepsInv(s, steps[0]);
      StaysRevived(s, steps[0], w);
      RevivedFails(Apply(s, steps[0]), steps[1..], w);
    }
  }

  lemma RevivedYieldFails(s: State, w: nat)
    requires Inv(s) && Revived(s, w)
    ensures Enabled(s, FinalYield(w)) && Fails(s, FinalYield(w))
  {
    hide AccountOk, OrderOk, ShutdownOk;
    assert WorkerOk(s, w);
  }

  /** An unsafe reset is fatal in every continuation. */
  lemma UnsafeResetFails(s: State, who: Pusher, f: FiberId, steps: seq<Step>) returns (w: nat)
    requires Inv(s) && Enabled(s, Reset(who, f)) && !SafeReset(s, Reset(who, f))
    requires Run(Apply(s, Reset(who, f)), steps).Some?
    ensures var s' := Run(Apply(s, Reset(who, f)), steps).value; Enabled(s', FinalYield(w)) && Fails(s', FinalYield(w))
  {
    hide Enabled, Fails, Apply, Inv, Run, Revived;
    w :| 0 <= w < |s.workers| && s.workers[w].phase.Ending? && s.workers[w].phase.f == f;
    BecomesRevived(s, who, f, w);
    StepKeepsInv(s, Reset(who, f));
    RevivedFails(Apply(s, Reset(who, f)), steps, w);
  }

  lemma BecomesRevived(s: State, who: Pusher, f: FiberId, w: nat)
    requires Enabled(s, Reset(who, f)) && w < |s.workers| && s.workers[w].phase.Ending? && s.workers[w].phase.f == f
    ensures !Fails(s, Reset(who, f)) && Revived(Apply(s, Reset(who, f)), w)
  {}

  /** A worker that runs user code has the task's fiber current, and that fiber is RUNNING. */
  lemma UserCodeIsRunning(s0: State, steps: seq<Step>, w: nat)
    requires Init(s0) && Run(s0, steps).Some? && w < |Run(s0, steps).value.workers|
    requires Run(s0, steps).value.workers[w].phase.Running?
    ensures var s := Run(s0, steps).value;
      && s.workers[w].current == OnTask(s.workers[w].phase.f)
      && s.workers[w].phase.f < |s.fibers| && s.fibers[s.workers[w].phase.f].state == RUNNING
  {
    hide AccountOk, OrderOk, ShutdownOk, Run;
    InitInv(s0);
    RunKeepsInv(s0, steps);
    assert WorkerOk(Run(s0, steps).value, w);
  }

  /** In every reachable state a fiber whose mutex is free is READY or TERM, and a RUNNING one is current on exactly
      one worker, which holds its mutex. */
  lemma RunsOnOneWorker(s0: State, steps: seq<Step>, f: FiberId)
    requires Init(s0) && Run(s0, steps).Some? && f < |Run(s0, steps).value.fibers|
    ensures var s := Run(s0, steps).value;
      && (s.fibers[f].holder.None? ==> s.fibers[f].state in {READY, TERM})
      && (s.fibers[f].state == RUNNING ==>
            && s.fibers[f].holder.Some? && s.fibers[f].holder.value < |s.workers|
            && forall w | 0 <= w < |s.workers| :: s.workers[w].current == OnTask(f) <==> s.fibers[f].holder == Some(w))
  {
    hide AccountOk, OrderOk, ShutdownOk, Run;
    InitInv(s0);
    RunKeepsInv(s0, steps);
    var s := Run(s0, steps).value;
    assert FiberOk(s, f);
    forall w | 0 <= w < |s.workers| && (s.workers[w].current == OnTask(f) || s.fibers[f].holder == Some(w))
      ensures WorkerOk(s, w) {}
  }

  /** A task whose fiber was scheduled while still running waits for the mutex, then finds the fiber ready to
      resume or ended; it is resumed exactly when it has not ended. */
  lemma LockThenResume(s: State, w: nat)
    requires Inv(s) && Enabled(s, Lock(w))
    ensures var f := s.workers[w].phase.task.fiber.value;
      && (forall v | 0 <= v < |s.workers| ::
         MutexOf(s.workers[v].phase) != Some(f) && s.workers[v].current != OnTask(f))
      && var s1 := Apply(s, Lock(w));
      && Enabled(s1, Check(w))
      && var s2 := Apply(s1, Check(w));
      && (s.fibers[f].state != TERM ==> Enabled(s2, Resume(w)) && !Fails(s2, Resume(w)))
      && (s.fibers[f].state == TERM ==> Enabled(s2, Unlock(w)))
  {
    hide AccountOk, OrderOk, ShutdownOk, FirstFor, Without, TaskOk;
    var f := s.workers[w].phase.task.fiber.value;
    assert FiberOk(s, f);
    forall v | 0 <= v < |s.workers|
      ensures MutexOf(s.workers[v].phase) != Some(f) && s.workers[v].current != OnTask(f)
    {
      assert WorkerOk(s, v);
    }
  }

  // ---------------------------------------------------------------- tasks

  /** No push is lost or done twice, and the active count is the number of workers with a task in hand. */
  lemma EveryPushPlacedOnce(s0: State, steps: seq<Step>, token: nat)
    requires Init(s0) && Run(s0, steps).Some? && token < |Run(s0, steps).value.pins|
    ensures var s := Run(s0, steps).value;
      && TimesQueued(s.queue, token) + Count(s.workers, Holding(token)) + s.finished[token] == 1
      && s.active == Count(s.workers, Busy)
  {
    hide ControlOk, OrderOk, ShutdownOk, Run;
    InitInv(s0);
    RunKeepsInv(s0, steps);
    assert PlacedOnce(Run(s0, steps).value, token);
  }

  lemma {:induction false} NoneCounted(workers: seq<Worker>, p: Phase -> bool)
    requires forall w | 0 <= w < |workers| :: !p(workers[w].phase)
    ensures Count(workers, p) == 0
  {
    if workers != [] { NoneCounted(workers[1..], p); }
  }

  /** When `Scheduler::stopping` is true nothing is queued or in hand, and every push has been finished once. */
  lemma StoppingMeansDone(s: State)
    requires Inv(s) && SchedulerStopping(s)
    ensures forall w | 0 <= w < |s.workers| :: InHand(s.workers[w].phase).None?
    ensures forall token: nat | token < |s.pins| :: s.finished[token] == 1
  {
    hide ControlOk, OrderOk, ShutdownOk;
    forall w | 0 <= w < |s.workers| ensures InHand(s.workers[w].phase).None? { IdleHandsEmpty(s, w); }
    forall token: nat | token < |s.pins| ensures s.finished[token] == 1 {
      assert PlacedOnce(s, token);
      NoneCounted(s.workers, Holding(token));
    }
  }

  /** Two tasks are taken in push order if they chose the same thread, or none, or were taken by one worker. */
  lemma TakenInPushOrder(s0: State, steps: seq<Step>, i: nat, j: nat)
    requires Init(s0) && Run(s0, steps).Some?
    requires var s := Run(s0, steps).value;
      && i < j < |s.log| && s.log[i].token < |s.pins| && s.log[j].token < |s.pins|
      && (s.pins[s.log[i].token] == s.pins[s.log[j].token] || s.log[i].worker == s.log[j].worker)
    ensures var s := Run(s0, steps).value; s.log[i].token < s.log[j].token
  {
    hide ControlOk, AccountOk, ShutdownOk, Run;
    InitInv(s0);
    RunKeepsInv(s0, steps);
    var s := Run(s0, steps).value;
    assert s.log[i] in s.log && s.log[j] in s.log;
    assert Eligible(s.pins[s.log[i].token], s.log[i].worker) && Eligible(s.pins[s.log[j].token], s.log[j].worker);
  }

  /** The tasks left in the queue are in push order. */
  lemma UntakenKeepOrder(s0: State, steps: seq<Step>)
    requires Init(s0) && Run(s0, steps).Some?
    ensures QueueSorted(Run(s0, steps).value.queue)
  {
    hide ControlOk, AccountOk, ShutdownOk, Run, QueueSorted;
    InitInv(s0);
    RunKeepsInv(s0, steps);
  }

  // ---------------------------------------------------------------- shutdown

  predicate AllLeft(s: State) { forall w | 0 <= w < |s.workers| :: s.workers[w].phase == Exited }

  /** What an idle pass puts in the queue, and nothing else does it put there: the callback of an expired timer, or the
      waiter of an event, fiber or callback; one at a time, behind the rest, and for any thread. */
  lemma PassSchedules(s: State, step: Step)
    requires ByOneWorker(step) && !step.Scan? && Enabled(s, step) && !Fails(s, step)
    ensures var (s', fiber) := (Apply(s, step), if step.Trigger? then step.fiber else None);
      if Schedules(step) then s'.queue == s.queue + [ScheduleTask(|s.pins|, fiber, fiber.None?, -1)]
      else s'.queue == s.queue
  {
    hide FirstFor, Without, Acting, RunsCode, Count, Passes, Fails;
  }

  /** When every worker has left `run` no task is left, pinned or not, every push was finished once, and the
      assertion of the destructor holds. */
  lemma LeftMeansDone(s0: State, steps: seq<Step>)
    requires Init(s0) && Run(s0, steps).Some? && AllLeft(Run(s0, steps).value)
    ensures var s := Run(s0, steps).value;
      SchedulerStopping(s) && forall token: nat | token < |s.pins| :: s.finished[token] == 1
  {
    hide AccountOk, OrderOk, Run;
    InitInv(s0);
    RunKeepsInv(s0, steps);
    var s := Run(s0, steps).value;
    forall w | 0 <= w < |s.workers| ensures Decided(s.workers[w]) { assert WorkerOk(s, w); }
    assert Decided(s.workers[0]);
    StoppingMeansDone(s);
  }

  /** While a task is queued or in hand some worker's idle fiber has not ended, so some worker is still to scan. */
  lemma QueuedMeansSomeoneStays(s: State)
    requires Inv(s) && (s.queue != [] || exists w | 0 <= w < |s.workers| :: InHand(s.workers[w].phase).Some?)
    ensures exists w | 0 <= w < |s.workers| :: !Decided(s.workers[w])
  {
    hide OrderOk, ControlOk;
    if s.queue == [] {
      var w :| 0 <= w < |s.workers| && InHand(s.workers[w].phase).Some?;
      if s.active == 0 { IdleHandsEmpty(s, w); }
    }
  }

  /** The worker has left, or has made its final empty scan with an ended idle fiber. */
  predicate Leaving(worker: Worker) { worker.phase == Exited || (worker.phase == NoTask && worker.idle == TERM) }

  /** A queued task that only a worker leaving for good, or no worker at all, might take. */
  predicate Abandoned(s: State, task: ScheduleTask) {
    && task in s.queue && task.thread != ANY_THREAD
    && (0 <= task.thread < |s.workers| ==> Leaving(s.workers[task.thread]))
  }

  lemma StaysQueued(queue: seq<ScheduleTask>, k: nat, task: ScheduleTask)
    requires k < |queue| && task in queue && queue[k] != task
    ensures task in Without(queue, k)
  {
    var i :| 0 <= i < |queue| && queue[i] == task;
    if i < k { assert Without(queue, k)[i] == task; } else { assert Without(queue, k)[i - 1] == task; }
  }

  lemma InvControl(s: State)
    requires Inv(s)
    ensures ControlOk(s)
  {}

  /** A leaving worker takes no step but the last. */
  lemma StaysLeaving(s: State, step: Step, w: nat)
    requires ControlOk(s) && Enabled(s, step) && !Fails(s, step) && w < |s.workers| && Leaving(s.workers[w])
    ensures w < |Apply(s, step).workers| && Leaving(Apply(s, step).workers[w])
    ensures step.Scan? ==> step.w != w
  {
    hide ControlOk, FirstFor, Without, Acting, RunsCode, Count, Passes, Fails;
    if !(ByOneWorker(step) && step.w == w) {
      hide Apply;
      OthersStay(s, step, w);
    }
  }

  /** Only a scan takes a task out of the queue. */
  lemma QueueAfter(s: State, step: Step)
    requires Enabled(s, step) && !Fails(s, step)
    ensures var (q, q') := (s.queue, Apply(s, step).queue);
      if step.Scan? then
        var k := FirstFor(q, step.w); q' == if k < |q| then Without(q, k) else q
      else q <= q'
  {
    hide FirstFor, Without, CurrentTask;
  }

  lemma StaysAbandoned(s: State, step: Step, task: ScheduleTask)
    requires Inv(s) && Enabled(s, step) && !Fails(s, step) && Abandoned(s, task)
    ensures Abandoned(Apply(s, step), task)
  {
    hide Inv, FirstFor, Without, Apply, Fails, Leaving;
    InvControl(s);
    QueueAfter(s, step);
    SameWorkers(s, step);
    if 0 <= task.thread < |s.workers| { StaysLeaving(s, step, task.thread); }
    if step.Scan? {
      var k := FirstFor(s.queue, step.w);
      if k < |s.queue| {
        assert Eligible(s.queue[k].thread, step.w) && s.queue[k] != task;
        StaysQueued(s.queue, k, task);
      }
    }
  }

  /** Such a task is never taken, and the shutdown then never completes: in no continuation do all workers leave. */
  lemma {:induction false} AbandonedBlocksShutdown(s: State, steps: seq<Step>, task: ScheduleTask)
    requires Inv(s) && Run(s, steps).Some? && Abandoned(s, task)
    ensures task in Run(s, steps).value.queue && !AllLeft(Run(s, steps).value)
    decreases |steps|
  {
    hide Enabled, Fails, Apply, AccountOk, OrderOk;
    if steps == [] {
      assert forall w | 0 <= w < |s.workers| && s.workers[w].phase == Exited :: WorkerOk(s, w);
    } else {
      StepKeepsInv(s, steps[0]);
      StaysAbandoned(s, steps[0], task);
      AbandonedBlocksShutdown(Apply(s, steps[0]), steps[1..], task);
    }
  }

  /** A running task abandons another by choosing the thread of a worker that is leaving. */
  lemma LatePinIsAbandoned(s: State, w: nat, gone: nat)
    requires Inv(s) && w < |s.workers| && s.workers[w].phase.Running? && gone < |s.workers| && Leaving(s.workers[gone])
    ensures var push := Push(ByWorker(w), None, true, gone);
      Enabled(s, push) && Abandoned(Apply(s, push), ScheduleTask(|s.pins|, None, true, gone))
  {
    var task := ScheduleTask(|s.pins|, None, true, gone);
    assert Apply(s, Push(ByWorker(w), None, true, gone)).queue == s.queue + [task];
  }
}
