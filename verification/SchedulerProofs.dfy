/** Every step of the scheduler keeps its invariant. */
module SchedulerProofs {
  import opened Common
  import opened SchedulerModel

  /** The other workers and fibers stay in agreement when worker `w` moves. */
  lemma ControlFrame(s: State, s': State, w: nat)
    requires ControlOk(s) && w < |s.workers| == |s'.workers| && s.pins <= s'.pins && |s.fibers| <= |s'.fibers|
    requires forall v | 0 <= v < |s.workers| && v != w :: s'.workers[v] == s.workers[v]
    requires forall f | 0 <= f < |s.fibers| && s'.fibers[f] != s.fibers[f] :: s.fibers[f].holder in {None, Some(w)}
    requires forall f | 0 <= f < |s'.fibers| ::
      f >= |s.fibers| || s'.fibers[f] != s.fibers[f] || MutexOf(s.workers[w].phase) == Some(f) ==> FiberOk(s', f)
    requires WorkerOk(s', w)
    requires forall i | 0 <= i < |s'.queue| :: s'.queue[i] in s.queue || TaskOk(s', s'.queue[i])
    ensures ControlOk(s')
  {
    forall v | 0 <= v < |s.workers| && v != w ensures WorkerOk(s', v) { assert WorkerOk(s, v); }
    forall f | 0 <= f < |s.fibers| ensures FiberOk(s', f) { assert FiberOk(s, f); }
  }

  predicate ByOneWorker(step: Step) {
    !(step.Push? || step.NewFiber? || step.Reset? || step.Stop? || step.Adjust?)
  }

  /** A worker moves and no fiber changes. */
  lemma WorkerOnly(s: State, s': State, w: nat)
    requires ControlOk(s) && w < |s.workers| && s'.fibers == s.fibers && s'.pins == s.pins
    requires |s'.workers| == |s.workers| && s'.workers == s.workers[w := s'.workers[w]]
    requires MutexOf(s'.workers[w].phase) == MutexOf(s.workers[w].phase) && WorkerOk(s', w)
    requires forall i | 0 <= i < |s'.queue| :: s'.queue[i] in s.queue
    ensures ControlOk(s')
  {
    hide WorkerOk;
    if MutexOf(s.workers[w].phase).Some? {
      assert MutexOf(s.workers[w].phase).value < |s.fibers| by { assert WorkerOk(s, w); MutexInRange(s, w); }
      assert FiberOk(s, MutexOf(s.workers[w].phase).value);
    }
    ControlFrame(s, s', w);
  }

  lemma MutexInRange(s: State, w: nat)
    requires w < |s.workers| && WorkerOk(s, w) && MutexOf(s.workers[w].phase).Some?
    ensures MutexOf(s.workers[w].phase).value < |s.fibers|
  {}

  lemma ScanControl(s: State, w: nat)
    requires ControlOk(s) && Enabled(s, Scan(w)) && !Fails(s, Scan(w))
    ensures ControlOk(Apply(s, Scan(w)))
  {
    hide CurrentTask;
    assert WorkerOk(s, w);
    WorkerOnly(s, Apply(s, Scan(w)), w);
  }

  /** A worker looks at the fiber of the task in hand, or counts the task out. */
  lemma HandControl(s: State, step: Step)
    requires ControlOk(s) && (step.Check? || step.Release?) && Enabled(s, step) && !Fails(s, step)
    ensures ControlOk(Apply(s, step))
  {
    hide Fails, CurrentTask, FirstFor, Without, TaskOk;
    assert WorkerOk(s, step.w);
    var s', w := Apply(s, step), step.w;
    assert InHand(s'.workers[w].phase).Some? ==> InHand(s'.workers[w].phase) == InHand(s.workers[w].phase);
    SameTasksOk(s, s');
    WorkerOnly(s, s', w);
  }

  lemma SameTasksOk(s: State, s': State)
    requires |s'.fibers| == |s.fibers| && s'.pins == s.pins
    ensures forall task :: TaskOk(s, task) == TaskOk(s', task)
  {}

  predicate AroundIdle(step: Step) {
    LeavesLoop(step) || InsideIdle(step) || OfPass(step) || step.IdleYield? || step.IdleReturn?
  }

  predicate LeavesLoop(step: Step) { step.Enter? || step.IdleResume? || step.Exit? }

  predicate InsideIdle(step: Step) { step.ReadTimers? || step.ReadPending? || step.ReadQueue? }

  predicate OfPass(step: Step) { step.Collect? || step.CountEvent? || Schedules(step) }

  /** The idle pass pushes a task. */
  predicate Schedules(step: Step) { step.Fire? || step.Trigger? }

  /** A worker enters, resumes its idle fiber, or leaves. */
  lemma LoopControl(s: State, step: Step)
    requires ControlOk(s) && LeavesLoop(step) && Enabled(s, step) && !Fails(s, step)
    ensures ControlOk(Apply(s, step))
  {
    hide TaskOk, CurrentTask, FirstFor, Without;
    assert WorkerOk(s, step.w);
    WorkerOnly(s, Apply(s, step), step.w);
  }

  /** The idle fiber reads one of the conditions of `stopping`. */
  lemma ReadControl(s: State, step: Step)
    requires ControlOk(s) && InsideIdle(step) && Enabled(s, step) && !Fails(s, step)
    ensures ControlOk(Apply(s, step))
  {
    hide TaskOk, CurrentTask, FirstFor, Without, Fails;
    assert WorkerOk(s, step.w);
    WorkerOnly(s, Apply(s, step), step.w);
  }

  /** The idle fiber goes on with its pass. */
  lemma PassControl(s: State, step: Step)
    requires ControlOk(s) && OfPass(step) && !Schedules(step) && Enabled(s, step) && !Fails(s, step)
    ensures ControlOk(Apply(s, step))
  {
    hide CurrentTask, FirstFor, Without, Fails, Count, Passes, TaskOk;
    assert WorkerOk(s, step.w);
    WorkerOnly(s, Apply(s, step), step.w);
  }

  /** The idle pass pushes a task. */
  lemma ScheduleControl(s: State, step: Step)
    requires ControlOk(s) && Schedules(step) && Enabled(s, step) && !Fails(s, step)
    ensures ControlOk(Apply(s, step))
  {
    hide CurrentTask, FirstFor, Without, Fails, Count, Passes;
    assert WorkerOk(s, step.w);
    ControlFrame(s, Apply(s, step), step.w);
  }

  /** The idle fiber switches back. */
  lemma IdleBackControl(s: State, step: Step)
    requires ControlOk(s) && (step.IdleYield? || step.IdleReturn?) && Enabled(s, step) && !Fails(s, step)
    ensures ControlOk(Apply(s, step))
  {
    hide TaskOk, CurrentTask, FirstFor, Without;
    assert WorkerOk(s, step.w);
    WorkerOnly(s, Apply(s, step), step.w);
  }

  lemma LockControl(s: State, w: nat)
    requires ControlOk(s) && Enabled(s, Lock(w)) && !Fails(s, Lock(w))
    ensures ControlOk(Apply(s, Lock(w)))
  {
    hide FirstFor, Without, Acting, RunsCode, Count, Passes, Fails, TaskOk;
    assert WorkerOk(s, w);
    assert FiberOk(s, s.workers[w].phase.task.fiber.value);
    SameTasksOk(s, Apply(s, Lock(w)));
    ControlFrame(s, Apply(s, Lock(w)), w);
  }

  /** A callback's own fiber is locked before anyone else can know it. */
  lemma SpawnControl(s: State, w: nat)
    requires ControlOk(s) && Enabled(s, Spawn(w)) && !Fails(s, Spawn(w))
    ensures ControlOk(Apply(s, Spawn(w)))
  {
    hide FirstFor, Without, Acting, RunsCode, Count, Passes, Fails;
    assert WorkerOk(s, w);
    ControlFrame(s, Apply(s, Spawn(w)), w);
  }

  lemma UnlockControl(s: State, w: nat)
    requires ControlOk(s) && Enabled(s, Unlock(w)) && !Fails(s, Unlock(w))
    ensures ControlOk(Apply(s, Unlock(w)))
  {
    hide FirstFor, Without, Acting, RunsCode, Count, Passes, Fails, TaskOk;
    assert WorkerOk(s, w);
    assert FiberOk(s, s.workers[w].phase.f);
    SameTasksOk(s, Apply(s, Unlock(w)));
    ControlFrame(s, Apply(s, Unlock(w)), w);
  }

  /** A worker resumes the fiber whose mutex it holds. */
  lemma ResumeControl(s: State, w: nat)
    requires ControlOk(s) && Enabled(s, Resume(w)) && !Fails(s, Resume(w))
    ensures ControlOk(Apply(s, Resume(w)))
  {
    hide FirstFor, Without, Acting, RunsCode, Count, Passes, TaskOk;
    assert WorkerOk(s, w);
    assert FiberOk(s, s.workers[w].phase.f);
    SameTasksOk(s, Apply(s, Resume(w)));
    ControlFrame(s, Apply(s, Resume(w)), w);
  }

  lemma FinishControl(s: State, w: nat)
    requires ControlOk(s) && Enabled(s, Finish(w)) && !Fails(s, Finish(w))
    ensures ControlOk(Apply(s, Finish(w)))
  {
    hide FirstFor, Without, Acting, RunsCode, Count, Passes, TaskOk;
    assert WorkerOk(s, w);
    assert FiberOk(s, s.workers[w].phase.f);
    SameTasksOk(s, Apply(s, Finish(w)));
    ControlFrame(s, Apply(s, Finish(w)), w);
  }

  /** The fiber switches back to the worker, to be resumed or for the last time. */
  lemma YieldControl(s: State, w: nat)
    requires ControlOk(s) && Enabled(s, Yield(w)) && !Fails(s, Yield(w))
    ensures ControlOk(Apply(s, Yield(w)))
  {
    hide FirstFor, Without, Acting, RunsCode, Count, Passes, TaskOk;
    assert WorkerOk(s, w);
    assert FiberOk(s, s.workers[w].phase.f);
    SameTasksOk(s, Apply(s, Yield(w)));
    ControlFrame(s, Apply(s, Yield(w)), w);
  }

  lemma FinalYieldControl(s: State, w: nat)
    requires ControlOk(s) && Enabled(s, FinalYield(w)) && !Fails(s, FinalYield(w))
    ensures ControlOk(Apply(s, FinalYield(w)))
  {
    hide FirstFor, Without, Acting, RunsCode, Count, Passes, TaskOk;
    assert WorkerOk(s, w);
    assert FiberOk(s, s.workers[w].phase.f);
    SameTasksOk(s, Apply(s, FinalYield(w)));
    ControlFrame(s, Apply(s, FinalYield(w)), w);
  }

  /** A push, a new fiber, a fiber used again, or `stop`. */
  lemma SharedStepControl(s: State, step: Step)
    requires ControlOk(s) && !ByOneWorker(step) && Enabled(s, step) && !Fails(s, step)
    ensures ControlOk(Apply(s, step))
  {
    var s' := Apply(s, step);
    forall v | 0 <= v < |s.workers| ensures WorkerOk(s', v) { assert WorkerOk(s, v); }
    forall f | 0 <= f < |s'.fibers| ensures FiberOk(s', f) { if f < |s.fibers| { assert FiberOk(s, f); } }
  }

  /** A worker's own step changes no fiber whose mutex another worker holds. */
  lemma OwnFootprint(s: State, step: Step)
    requires ControlOk(s) && ByOneWorker(step) && Enabled(s, step) && !Fails(s, step)
    ensures |s.fibers| <= |Apply(s, step).fibers|
    ensures forall f | 0 <= f < |s.fibers| && Apply(s, step).fibers[f] != s.fibers[f] ::
      s.fibers[f].holder == None || s.fibers[f].holder == Some(step.w)
  {
    hide FirstFor, Without, Acting, RunsCode, Count, Passes, TaskOk, FiberOk;
    assert WorkerOk(s, step.w);
  }

  /** What a worker is at and the fiber it holds are untouched by the steps of others, `reset` of that fiber apart. */
  lemma HeldUntouched(s: State, step: Step, w: nat, f: FiberId)
    requires ControlOk(s) && Enabled(s, step) && !Fails(s, step)
    requires w < |s.workers| && MutexOf(s.workers[w].phase) == Some(f) && f < |s.fibers|
    requires (ByOneWorker(step) ==> step.w != w) && (step.Reset? ==> step.f != f)
    ensures var s' := Apply(s, step);
      w < |s'.workers| && s'.workers[w] == s.workers[w] && f < |s'.fibers| && s'.fibers[f] == s.fibers[f]
  {
    hide FirstFor, Without, Acting, RunsCode, Count, Passes, TaskOk;
    assert WorkerOk(s, w);
    if ByOneWorker(step) {
      hide Apply, Enabled, Fails, WorkerOk, FiberOk;
      OwnFootprint(s, step);
      DecidesByReading(s, step);
      SameWorkers(s, step);
    }
  }

  // ---------------------------------------------------------------- accounting

  function One(b: bool): nat { if b then 1 else 0 }

  lemma {:induction false} CountUpdate(workers: seq<Worker>, w: nat, worker: Worker, p: Phase -> bool)
    requires w < |workers|
    ensures Count(workers[w := worker], p) == Count(workers, p) - One(p(workers[w].phase)) + One(p(worker.phase))
  {
    if w > 0 {
      CountUpdate(workers[1..], w - 1, worker, p);
      assert workers[w := worker][1..] == workers[1..][w - 1 := worker];
    } else {
      assert workers[w := worker][1..] == workers[1..];
    }
  }

  lemma {:induction false} QueuedWithout(queue: seq<ScheduleTask>, k: nat, token: nat)
    requires k < |queue|
    ensures TimesQueued(queue, token) == TimesQueued(Without(queue, k), token) + One(queue[k].token == token)
    decreases |queue|
  {
    var last := |queue| - 1;
    if k < last {
      QueuedWithout(queue[..last], k, token);
      assert Without(queue, k)[..last - 1] == Without(queue[..last], k);
    } else {
      assert Without(queue, k) == queue[..last];
    }
  }

  lemma QueuedAppend(queue: seq<ScheduleTask>, task: ScheduleTask, token: nat)
    ensures TimesQueued(queue + [task], token) == TimesQueued(queue, token) + One(task.token == token)
  {
    assert (queue + [task])[..|queue|] == queue;
  }

  /** A step of worker `w` that takes no task and counts none out. */
  lemma AccountFrame(s: State, s': State, w: nat)
    requires AccountOk(s) && w < |s.workers| == |s'.workers| && s'.workers == s.workers[w := s'.workers[w]]
    requires InHand(s'.workers[w].phase) == InHand(s.workers[w].phase)
    requires s'.queue == s.queue && s'.pins == s.pins && s'.finished == s.finished && s'.active == s.active
    requires s'.idlers == s.idlers - One(InIdle(s.workers[w].phase)) + One(InIdle(s'.workers[w].phase))
    ensures AccountOk(s')
  {
    CountUpdate(s.workers, w, s'.workers[w], Busy);
    CountUpdate(s.workers, w, s'.workers[w], InIdle);
    forall token: nat ensures PlacedOnce(s', token) {
      assert PlacedOnce(s, token);
      CountUpdate(s.workers, w, s'.workers[w], Holding(token));
    }
  }

  lemma TakeAccount(s: State, w: nat)
    requires AccountOk(s) && Enabled(s, Scan(w)) && !Fails(s, Scan(w)) && FirstFor(s.queue, w) < |s.queue|
    ensures AccountOk(Apply(s, Scan(w)))
  {
    hide FirstFor, Count, TimesQueued;
    var s', k := Apply(s, Scan(w)), FirstFor(s.queue, w);
    CountUpdate(s.workers, w, s'.workers[w], Busy);
    CountUpdate(s.workers, w, s'.workers[w], InIdle);
    forall token: nat ensures PlacedOnce(s', token) {
      assert PlacedOnce(s, token);
      CountUpdate(s.workers, w, s'.workers[w], Holding(token));
      QueuedWithout(s.queue, k, token);
    }
  }

  lemma ReleaseAccount(s: State, w: nat)
    requires AccountOk(s) && Enabled(s, Release(w)) && !Fails(s, Release(w))
    ensures AccountOk(Apply(s, Release(w)))
  {
    hide FirstFor, Count, TimesQueued;
    var s' := Apply(s, Release(w));
    CountUpdate(s.workers, w, s'.workers[w], Busy);
    CountUpdate(s.workers, w, s'.workers[w], InIdle);
    forall token: nat ensures PlacedOnce(s', token) {
      assert PlacedOnce(s, token);
      CountUpdate(s.workers, w, s'.workers[w], Holding(token));
    }
  }

  /** The idle pass pushes one task. */
  lemma ScheduleAccount(s: State, step: Step)
    requires AccountOk(s) && Schedules(step) && Enabled(s, step) && !Fails(s, step)
    ensures AccountOk(Apply(s, step))
  {
    hide FirstFor, Count, TimesQueued;
    var s', w := Apply(s, step), step.w;
    CountUpdate(s.workers, w, s'.workers[w], Busy);
    CountUpdate(s.workers, w, s'.workers[w], InIdle);
    var task := s'.queue[|s.queue|];
    forall token: nat ensures PlacedOnce(s', token) {
      assert PlacedOnce(s, token);
      CountUpdate(s.workers, w, s'.workers[w], Holding(token));
      QueuedAppend(s.queue, task, token);
    }
  }

  /** What a worker's own step does to the events it has still to count out, and to their count. */
  lemma OwnPending(s: State, step: Step)
    requires PendingOk(s) && ByOneWorker(step) && Enabled(s, step) && !Fails(s, step)
    ensures PendingOk(Apply(s, step))
  {
    hide Count;
    OwnCounting(s, step);
    CountUpdate(s.workers, step.w, Apply(s, step).workers[step.w], IsCounting);
  }

  lemma OwnCounting(s: State, step: Step)
    requires ByOneWorker(step) && Enabled(s, step) && !Fails(s, step)
    ensures var s' := Apply(s, step);
      && step.w < |s.workers| == |s'.workers| && s'.workers == s.workers[step.w := s'.workers[step.w]]
      && (s'.workers[step.w].phase.Counting? <==> step.Trigger?)
      && (s.workers[step.w].phase.Counting? <==> step.CountEvent?)
      && s'.pending == if step.CountEvent? then s.pending - 1 else s.pending
  {
    hide FirstFor, Without, Acting, RunsCode, Count, Passes;
  }

  lemma SharedAccount(s: State, step: Step)
    requires AccountOk(s) && !ByOneWorker(step) && Enabled(s, step) && !Fails(s, step)
    ensures AccountOk(Apply(s, step))
  {
    hide Count, TimesQueued;
    var s' := Apply(s, step);
    forall token: nat ensures PlacedOnce(s', token) {
      assert PlacedOnce(s, token);
      if step.Push? && (step.fiber.Some? || step.cb) {
        QueuedAppend(s.queue, ScheduleTask(|s.pins|, step.fiber, step.cb, step.thread), token);
      }
    }
  }

  lemma SharedPending(s: State, step: Step)
    requires PendingOk(s) && !ByOneWorker(step) && Enabled(s, step) && !Fails(s, step)
    ensures PendingOk(Apply(s, step))
  {
    hide Count;
  }

  lemma OwnAccount(s: State, step: Step)
    requires AccountOk(s) && ByOneWorker(step) && Enabled(s, step) && !Fails(s, step)
    ensures AccountOk(Apply(s, step))
  {
    hide Count, TimesQueued, PlacedOnce, AccountOk, FirstFor, Acting, RunsCode;
    if step.Scan? && FirstFor(s.queue, step.w) < |s.queue| {
      TakeAccount(s, step.w);
    } else if step.Release? {
      ReleaseAccount(s, step.w);
    } else if Schedules(step) {
      ScheduleAccount(s, step);
    } else {
      if LeavesLoop(step) { QuietLoopStep(s, step); }
      else if InsideIdle(step) { QuietReadStep(s, step); }
      else if OfPass(step) { QuietPassStep(s, step); }
      else if AroundIdle(step) { QuietBackStep(s, step); }
      else { QuietTaskStep(s, step); }
      AccountFrame(s, Apply(s, step), step.w);
    }
  }

  /** What accounting sees of a step that takes no task and counts none out. */
  predicate Quiet(s: State, s': State, w: nat)
    requires w < |s.workers|
  {
    && |s'.workers| == |s.workers| && s'.workers == s.workers[w := s'.workers[w]]
    && InHand(s'.workers[w].phase) == InHand(s.workers[w].phase)
    && s'.queue == s.queue && s'.pins == s.pins && s'.finished == s.finished && s'.active == s.active
    && s'.idlers == s.idlers - One(InIdle(s.workers[w].phase)) + One(InIdle(s'.workers[w].phase))
  }

  lemma QuietLoopStep(s: State, step: Step)
    requires LeavesLoop(step) && Enabled(s, step) && !Fails(s, step)
    ensures Quiet(s, Apply(s, step), step.w)
  {
    hide FirstFor, Without, Acting, RunsCode, Count, Passes;
  }

  lemma QuietReadStep(s: State, step: Step)
    requires InsideIdle(step) && Enabled(s, step) && !Fails(s, step)
    ensures Quiet(s, Apply(s, step), step.w)
  {
    hide FirstFor, Without, Acting, RunsCode, Count, Passes, Fails;
  }

  lemma QuietPassStep(s: State, step: Step)
    requires OfPass(step) && !Schedules(step) && Enabled(s, step) && !Fails(s, step)
    ensures Quiet(s, Apply(s, step), step.w)
  {
    hide FirstFor, Without, Acting, RunsCode, Fails, Count, Passes;
  }

  lemma QuietBackStep(s: State, step: Step)
    requires (step.IdleYield? || step.IdleReturn?) && Enabled(s, step) && !Fails(s, step)
    ensures Quiet(s, Apply(s, step), step.w)
  {
    hide FirstFor, Without, Acting, RunsCode, Count, Passes;
  }

  lemma QuietTaskStep(s: State, step: Step)
    requires ByOneWorker(step) && !AroundIdle(step) && !step.Release? && Enabled(s, step) && !Fails(s, step)
    requires step.Scan? ==> FirstFor(s.queue, step.w) == |s.queue|
    ensures Quiet(s, Apply(s, step), step.w)
  {
    hide FirstFor, Without, Acting, RunsCode, Count, Passes;
  }

  // ---------------------------------------------------------------- order

  lemma TakeOrder(s: State, w: nat)
    requires ControlOk(s) && OrderOk(s) && Enabled(s, Scan(w)) && !Fails(s, Scan(w)) && FirstFor(s.queue, w) < |s.queue|
    ensures OrderOk(Apply(s, Scan(w)))
  {
    hide FirstFor, WorkerOk, FiberOk, QueueSorted, Without;
    var s', k := Apply(s, Scan(w)), FirstFor(s.queue, w);
    assert TaskOk(s, s.queue[k]);
    SortedWithout(s.queue, k, w);
    assert s.queue[k] in s.queue;
  }

  /** What stays queued and might have been taken comes after what was. */
  lemma SortedWithout(queue: seq<ScheduleTask>, k: nat, w: nat)
    requires QueueSorted(queue) && k < |queue| && forall i | 0 <= i < k :: !Eligible(queue[i].thread, w)
    ensures QueueSorted(Without(queue, k))
    ensures forall task | task in Without(queue, k) ::
      task in queue && (Eligible(task.thread, w) ==> queue[k].token < task.token)
  {
    forall i | 0 <= i < |queue| - 1 ensures Without(queue, k)[i] == queue[if i < k then i else i + 1] {}
  }

  lemma PushOrder(s: State, s': State)
    requires ControlOk(s) && OrderOk(s) && s'.log == s.log
    requires (s'.queue == s.queue && s'.pins == s.pins) || exists task: ScheduleTask ::
      task.token == |s.pins| && s'.queue == s.queue + [task] && s'.pins == s.pins + [task.thread]
    ensures OrderOk(s')
  {
    forall task | task in s.queue ensures task.token < |s.pins| { assert TaskOk(s, task); }
  }

  lemma StepOrder(s: State, step: Step)
    requires ControlOk(s) && OrderOk(s) && Enabled(s, step) && !Fails(s, step)
    ensures OrderOk(Apply(s, step))
  {
    hide ControlOk, OrderOk, FirstFor, Acting, RunsCode, Count, Passes;
    if !step.Scan? && !step.Push? && !Schedules(step) {
      hide *;
      QueueStays(s, step);
      OrderFrame(s, Apply(s, step));
      return;
    }
    match step
    case Scan(w) => if FirstFor(s.queue, w) < |s.queue| { TakeOrder(s, w); } else { OrderFrame(s, Apply(s, step)); }
    case Push(_, fiber, cb, thread) => PushOrder(s, Apply(s, step));
    case Fire(_) => PushOrder(s, Apply(s, step));
    case Trigger(_, _) => PushOrder(s, Apply(s, step));
    case _ =>
  }

  lemma QueueStays(s: State, step: Step)
    requires Enabled(s, step) && !Fails(s, step) && !step.Scan? && !step.Push? && !Schedules(step)
    ensures var s' := Apply(s, step); s'.queue == s.queue && s'.log == s.log && s'.pins == s.pins
  {
    hide FirstFor, Without, Acting, RunsCode, Count, Passes, Fails;
  }

  lemma OrderFrame(s: State, s': State)
    requires OrderOk(s) && s'.queue == s.queue && s'.log == s.log && s'.pins == s.pins
    ensures OrderOk(s')
  {}

  // ---------------------------------------------------------------- shutdown

  lemma {:induction false} CountedIfThere(workers: seq<Worker>, w: nat, p: Phase -> bool)
    requires w < |workers| && p(workers[w].phase)
    ensures Count(workers, p) > 0
  {
    if w > 0 { CountedIfThere(workers[1..], w - 1, p); }
  }

  /** With nothing counted as active no worker has a task in hand. */
  lemma IdleHandsEmpty(s: State, w: nat)
    requires AccountOk(s) && s.active == 0 && w < |s.workers|
    ensures InHand(s.workers[w].phase).None?
  {
    if Busy(s.workers[w].phase) { CountedIfThere(s.workers, w, Busy); }
  }

  /** A worker's idle fiber decides to end by finding `stopping` true, and in no other way. */
  lemma DecidesByReading(s: State, step: Step)
    requires ControlOk(s) && ByOneWorker(step) && Enabled(s, step) && !Fails(s, step)
    ensures var s' := Apply(s, step);
      Decided(s'.workers[step.w]) <==> Decided(s.workers[step.w]) || (step.ReadQueue? && SchedulerStopping(s))
    ensures var s' := Apply(s, step); forall v | 0 <= v < |s.workers| && v != step.w :: s'.workers[v] == s.workers[v]
    ensures Apply(s, step).stopping == s.stopping
    ensures Apply(s, step).queue == s.queue || step.Scan? || Schedules(step)
    ensures OfPass(step) ==> !Decided(s.workers[step.w])
    ensures Apply(s, step).active == s.active || step.Scan? || step.Release?
  {
    hide ControlOk, Apply, Enabled, Fails;
    OwnFrame(s, step);
    OwnDecides(s, step);
  }

  lemma OwnFrame(s: State, step: Step)
    requires ByOneWorker(step) && Enabled(s, step) && !Fails(s, step)
    ensures var s' := Apply(s, step);
      && step.w < |s.workers| == |s'.workers|
      && (forall v | 0 <= v < |s.workers| && v != step.w :: s'.workers[v] == s.workers[v])
      && s'.stopping == s.stopping && (s'.queue == s.queue || step.Scan? || Schedules(step))
      && (s'.active == s.active || step.Scan? || step.Release?)
  {
    hide FirstFor, Acting, RunsCode, Without, Count, Passes, Fails;
  }

  lemma OwnDecides(s: State, step: Step)
    requires ControlOk(s) && ByOneWorker(step) && Enabled(s, step) && !Fails(s, step)
    ensures step.w < |s.workers| == |Apply(s, step).workers| && (OfPass(step) ==> !Decided(s.workers[step.w]))
    ensures Decided(Apply(s, step).workers[step.w]) <==>
      Decided(s.workers[step.w]) || (step.ReadQueue? && SchedulerStopping(s))
  {
    hide FirstFor, Acting, RunsCode, TaskOk, FiberOk, Without, Count, Passes;
    assert WorkerOk(s, step.w);
    if InsideIdle(step) || OfPass(step) { InIdleDecides(s, step); }
  }

  /** Inside `idle` only the last reading decides. */
  lemma InIdleDecides(s: State, step: Step)
    requires (InsideIdle(step) || OfPass(step)) && Enabled(s, step) && !Fails(s, step) && WorkerOk(s, step.w)
    ensures step.w < |s.workers| == |Apply(s, step).workers| && !Decided(s.workers[step.w])
    ensures Decided(Apply(s, step).workers[step.w]) <==> step.ReadQueue? && SchedulerStopping(s)
  {
    hide FirstFor, Acting, RunsCode, TaskOk, Without, Count, Passes, Fails, MutexOf, InHand, SchedulerStopping;
  }

  lemma OwnShutdown(s: State, step: Step)
    requires Inv(s) && ByOneWorker(step) && Enabled(s, step) && !Fails(s, step)
    ensures ShutdownOk(Apply(s, step))
  {
    hide AccountOk, OrderOk, ControlOk, Apply, Decided, Fails;
    DecidesByReading(s, step);
    var s' := Apply(s, step);
    SameWorkers(s, step);
    if forall v | 0 <= v < |s.workers| :: Decided(s'.workers[v]) {
      if Decided(s.workers[step.w]) {
        assert forall v | 0 <= v < |s.workers| :: Decided(s.workers[v]);
        IdleHandsEmpty(s, step.w);
        if step.Scan? { NothingToTake(s, step.w); }
      }
    }
  }

  lemma NothingToTake(s: State, w: nat)
    requires Enabled(s, Scan(w)) && s.queue == []
    ensures !Fails(s, Scan(w)) && Apply(s, Scan(w)) == At(s, w, NoTask)
  {}

  lemma SharedShutdown(s: State, step: Step)
    requires Inv(s) && !ByOneWorker(step) && Enabled(s, step) && !Fails(s, step)
    ensures ShutdownOk(Apply(s, step))
  {
    hide AccountOk, OrderOk;
    var s' := Apply(s, step);
    if step.Push? && forall w | 0 <= w < |s.workers| :: Decided(s.workers[w]) {
      assert Decided(s.workers[0]) && s.stopping;
      var w := step.who.w;
      assert WorkerOk(s, w);
      IdleHandsEmpty(s, w);
      assert false;
    }
  }

  lemma StepControl(s: State, step: Step)
    requires ControlOk(s) && Enabled(s, step) && !Fails(s, step)
    ensures ControlOk(Apply(s, step))
  {
    hide ControlOk, Enabled, Fails, Apply;
    if !ByOneWorker(step) { SharedStepControl(s, step); }
    else if LeavesLoop(step) { LoopControl(s, step); }
    else if InsideIdle(step) { ReadControl(s, step); }
    else if Schedules(step) { ScheduleControl(s, step); }
    else if OfPass(step) { PassControl(s, step); }
    else if step.IdleYield? || step.IdleReturn? { IdleBackControl(s, step); }
    else if step.Scan? { ScanControl(s, step.w); }
    else if step.Check? || step.Release? { HandControl(s, step); }
    else if step.Lock? { LockControl(s, step.w); }
    else if step.Spawn? { SpawnControl(s, step.w); }
    else if step.Unlock? { UnlockControl(s, step.w); }
    else if step.Resume? { ResumeControl(s, step.w); }
    else if step.Finish? { FinishControl(s, step.w); }
    else if step.Yield? { YieldControl(s, step.w); }
    else { FinalYieldControl(s, step.w); }
  }

  lemma SameWorkers(s: State, step: Step)
    requires Enabled(s, step) && !Fails(s, step)
    ensures |Apply(s, step).workers| == |s.workers|
  {
    hide FirstFor, Without, Acting, RunsCode, Count, Passes, Fails;
  }

  lemma StepKeepsInv(s: State, step: Step)
    requires Inv(s) && Enabled(s, step) && !Fails(s, step)
    ensures Inv(Apply(s, step))
  {
    hide ControlOk, AccountOk, PendingOk, OrderOk, ShutdownOk, Enabled, Fails, Apply;
    SameWorkers(s, step);
    StepControl(s, step);
    StepOrder(s, step);
    if ByOneWorker(step) { OwnAccount(s, step); OwnPending(s, step); OwnShutdown(s, step); }
    else { SharedAccount(s, step); SharedPending(s, step); SharedShutdown(s, step); }
  }

  lemma {:induction false} NothingCounted(workers: seq<Worker>, p: Phase -> bool)
    requires !p(Outside) && forall w | 0 <= w < |workers| :: workers[w].phase == Outside
    ensures Count(workers, p) == 0
  {
    if workers != [] { NothingCounted(workers[1..], p); }
  }

  lemma InitInv(s: State)
    requires Init(s)
    ensures Inv(s)
  {
    NothingCounted(s.workers, Busy);
    NothingCounted(s.workers, InIdle);
    NothingCounted(s.workers, IsCounting);
    forall token: nat ensures PlacedOnce(s, token) { NothingCounted(s.workers, Holding(token)); }
  }

  lemma {:induction false} RunKeepsInv(s: State, steps: seq<Step>)
    requires Inv(s) && Run(s, steps).Some?
    ensures Inv(Run(s, steps).value)
    decreases |steps|
  {
    hide Inv, Enabled, Fails, Apply;
    if steps != [] {
      StepKeepsInv(s, steps[0]);
      RunKeepsInv(Apply(s, steps[0]), steps[1..]);
    }
  }
}
