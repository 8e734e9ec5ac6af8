/** One worker running one task whose fiber nobody else holds, from the lock to the count. */
module SchedulerTasks {
  import opened Common
  import opened SchedulerModel
  import opened SchedulerRuns
  import opened SchedulerWitnesses

  /** What the fiber does once it is found in `state`, if its function then returns or yields. */
  function FiberSteps(w: nat, state: FiberState, ends: bool): seq<Step> {
    if state == TERM then []
    else if ends then [Resume(w)] + [Finish(w), FinalYield(w)]
    else [Resume(w)] + [Yield(w)]
  }

  function TaskSteps(w: nat, state: FiberState, ends: bool): seq<Step> {
    [Lock(w), Check(w)] + FiberSteps(w, state, ends) + [Unlock(w), Release(w)]
  }

  function StateAfter(state: FiberState, ends: bool): FiberState {
    if state == TERM || ends then TERM else READY
  }

  /** Worker `w` at `phase`, the fiber's record as given. */
  function Having(s: State, w: nat, phase: Phase, current: Current, f: FiberId, fiber: Fiber): State
    requires w < |s.workers| && f < |s.fibers|
  {
    Moved(s, w, phase, s.workers[w].idle, current).(fibers := s.fibers[f := fiber])
  }

  lemma LocksAndChecks(s: State, w: nat, task: ScheduleTask, f: FiberId)
    requires In(s, w, Taken(task)) && s.workers[w].current == OnScheduler
    requires task.fiber == Some(f) && f < |s.fibers| && s.fibers[f].holder.None?
    ensures Run(s, [Lock(w), Check(w)]) == Some(
      Having(s, w, if s.fibers[f].state == TERM then Unlocking(task, f) else Checked(task, f), OnScheduler, f,
        Fiber(s.fibers[f].state, Some(w))))
  {
    hide Run;
    var locked := Fiber(s.fibers[f].state, Some(w));
    var s1 := Having(s, w, Locked(task, f), OnScheduler, f, locked);
    var next := if s.fibers[f].state == TERM then Unlocking(task, f) else Checked(task, f);
    RunOne(s, Lock(w), s1);
    Checks(s1, w, task, f);
    RunThen(s, [Lock(w)], [Check(w)]);
    assert [Lock(w)] + [Check(w)] == [Lock(w), Check(w)];
    assert At(s1, w, next).workers == Having(s, w, next, OnScheduler, f, locked).workers;
  }

  lemma Checks(s: State, w: nat, task: ScheduleTask, f: FiberId)
    requires In(s, w, Locked(task, f)) && f < |s.fibers|
    ensures Run(s, [Check(w)]) ==
      Some(At(s, w, if s.fibers[f].state == TERM then Unlocking(task, f) else Checked(task, f)))
  {
    hide Run, Enabled, Fails, Apply;
    CheckLooks(s, w, task, f);
    RunOne(s, Check(w), At(s, w, if s.fibers[f].state == TERM then Unlocking(task, f) else Checked(task, f)));
  }

  lemma CheckLooks(s: State, w: nat, task: ScheduleTask, f: FiberId)
    requires In(s, w, Locked(task, f)) && f < |s.fibers|
    ensures Enabled(s, Check(w)) && !Fails(s, Check(w))
    ensures Apply(s, Check(w)) == At(s, w, if s.fibers[f].state == TERM then Unlocking(task, f) else Checked(task, f))
  {}

  lemma Resumes(s: State, w: nat, task: ScheduleTask, f: FiberId)
    requires In(s, w, Checked(task, f)) && f < |s.fibers| && s.fibers[f] == Fiber(READY, Some(w))
    ensures Run(s, [Resume(w)]) == Some(Having(s, w, Running(task, f), OnTask(f), f, Fiber(RUNNING, Some(w))))
  {
    hide Run;
    RunOne(s, Resume(w), Having(s, w, Running(task, f), OnTask(f), f, Fiber(RUNNING, Some(w))));
  }

  lemma Yields(s: State, w: nat, task: ScheduleTask, f: FiberId)
    requires In(s, w, Running(task, f)) && f < |s.fibers| && s.fibers[f] == Fiber(RUNNING, Some(w))
    requires s.workers[w].current == OnTask(f)
    ensures Run(s, [Yield(w)]) == Some(Having(s, w, Unlocking(task, f), OnScheduler, f, Fiber(READY, Some(w))))
  {
    hide Run;
    RunOne(s, Yield(w), Having(s, w, Unlocking(task, f), OnScheduler, f, Fiber(READY, Some(w))));
  }

  lemma ResumesAndYields(s: State, w: nat, task: ScheduleTask, f: FiberId)
    requires In(s, w, Checked(task, f)) && f < |s.fibers| && s.fibers[f] == Fiber(READY, Some(w))
    ensures Run(s, [Resume(w)] + [Yield(w)]) ==
      Some(Having(s, w, Unlocking(task, f), OnScheduler, f, Fiber(READY, Some(w))))
  {
    hide Run, Enabled, Fails, Apply;
    var s1 := Having(s, w, Running(task, f), OnTask(f), f, Fiber(RUNNING, Some(w)));
    Resumes(s, w, task, f);
    Yields(s1, w, task, f);
    RunThen(s, [Resume(w)], [Yield(w)]);
    Overwrites(s, s1, w, f, Unlocking(task, f), OnScheduler, Fiber(READY, Some(w)));
  }

  lemma ResumesAndReturns(s: State, w: nat, task: ScheduleTask, f: FiberId)
    requires In(s, w, Checked(task, f)) && f < |s.fibers| && s.fibers[f] == Fiber(READY, Some(w))
    ensures Run(s, [Resume(w)] + [Finish(w), FinalYield(w)]) ==
      Some(Having(s, w, Unlocking(task, f), OnScheduler, f, Fiber(TERM, Some(w))))
  {
    hide Run, Enabled, Fails, Apply;
    var s1 := Having(s, w, Running(task, f), OnTask(f), f, Fiber(RUNNING, Some(w)));
    Resumes(s, w, task, f);
    FunctionReturns(s1, w, task, f);
    RunThen(s, [Resume(w)], [Finish(w), FinalYield(w)]);
    Overwrites(s, s1, w, f, Unlocking(task, f), OnScheduler, Fiber(TERM, Some(w)));
  }

  lemma Overwrites(s: State, s1: State, w: nat, f: FiberId, phase: Phase, current: Current, fiber: Fiber)
    requires w < |s.workers| && f < |s.fibers| && exists p, c, g :: s1 == Having(s, w, p, c, f, g)
    ensures w < |s1.workers| && f < |s1.fibers|
    ensures Having(s1, w, phase, current, f, fiber) == Having(s, w, phase, current, f, fiber)
  {}

  /** All of it succeeds; the fiber is left READY if it yielded and TERM if it has ended, and its mutex is free. */
  lemma TaskRuns(s: State, w: nat, ends: bool)
    requires Inv(s) && Enabled(s, Lock(w))
    ensures var task := s.workers[w].phase.task; var f := task.fiber.value; var state := s.fibers[f].state;
      Run(s, TaskSteps(w, state, ends)) == Some(CountedOut(s, w, task, f, StateAfter(state, ends)))
  {
    var task := s.workers[w].phase.task;
    LockFindsFree(s, w);
    PiecesFit(s, w, task, task.fiber.value, ends);
  }

  lemma LockFindsFree(s: State, w: nat)
    requires Inv(s) && Enabled(s, Lock(w))
    ensures var f := s.workers[w].phase.task.fiber.value;
      s.workers[w].current == OnScheduler && s.fibers[f].holder.None? && s.fibers[f].state != RUNNING
  {
    hide AccountOk, OrderOk, ShutdownOk;
    assert WorkerOk(s, w) && FiberOk(s, s.workers[w].phase.task.fiber.value);
  }

  lemma PiecesFit(s: State, w: nat, task: ScheduleTask, f: FiberId, ends: bool)
    requires In(s, w, Taken(task)) && s.workers[w].current == OnScheduler
    requires task.fiber == Some(f) && f < |s.fibers| && s.fibers[f].holder.None? && s.fibers[f].state != RUNNING
    ensures Run(s, TaskSteps(w, s.fibers[f].state, ends)) ==
      Some(CountedOut(s, w, task, f, StateAfter(s.fibers[f].state, ends)))
  {
    hide Run, Enabled, Fails, Apply;
    var state, head, tail := s.fibers[f].state, [Lock(w), Check(w)], [Unlock(w), Release(w)];
    LocksAndChecks(s, w, task, f);
    var s2, after := Run(s, head).value, StateAfter(state, ends);
    var s3 := Having(s, w, Unlocking(task, f), OnScheduler, f, Fiber(after, Some(w)));
    FiberGoes(s, s2, w, task, f, state, ends);
    CountsOut(s3, w, task, f);
    RunThen(s, head, FiberSteps(w, state, ends));
    RunThen(s, head + FiberSteps(w, state, ends), tail);
    assert s3.fibers[f := Fiber(after, None)] == s.fibers[f := Fiber(after, None)];
    assert Moved(s3, w, Scanning, s.workers[w].idle, OnScheduler).workers ==
      Moved(s, w, Scanning, s.workers[w].idle, OnScheduler).workers;
  }

  lemma FiberGoes(s: State, s2: State, w: nat, task: ScheduleTask, f: FiberId, state: FiberState, ends: bool)
    requires w < |s.workers| && f < |s.fibers| && state != RUNNING
    requires s2 == Having(s, w, if state == TERM then Unlocking(task, f) else Checked(task, f), OnScheduler, f,
      Fiber(state, Some(w)))
    ensures Run(s2, FiberSteps(w, state, ends)) ==
      Some(Having(s, w, Unlocking(task, f), OnScheduler, f, Fiber(StateAfter(state, ends), Some(w))))
  {
    hide Enabled, Fails, Apply;
    if state == READY {
      Overwrites(s, s2, w, f, Unlocking(task, f), OnScheduler, Fiber(StateAfter(state, ends), Some(w)));
      if ends { ResumesAndReturns(s2, w, task, f); } else { ResumesAndYields(s2, w, task, f); }
    }
  }
}
