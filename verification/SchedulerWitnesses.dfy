/** Concrete runs of the scheduler that its assertions and its shutdown do not survive. */
module SchedulerWitnesses {
  import opened Common
  import opened SchedulerModel
  import opened SchedulerProofs
  import opened SchedulerRuns
  import opened SchedulerHeld

  function Moved(s: State, w: nat, phase: Phase, idle: FiberState, current: Current): State
    requires w < |s.workers|
  {
    s.(workers := s.workers[w := Worker(phase, idle, current)])
  }

  function Reads(w: nat): seq<Step> { [Scan(w), IdleResume(w), ReadTimers(w), ReadPending(w), ReadQueue(w)] }

  /** A worker that finds nothing to do resumes its idle fiber. */
  lemma IdleStarts(s: State, w: nat)
    requires In(s, w, Scanning) && s.workers[w].idle == READY && s.queue == []
    ensures Run(s, [Scan(w), IdleResume(w)]) == Some(Moved(s, w, IdleTop, RUNNING, OnIdle).(idlers := s.idlers + 1))
  {
    hide Run, Enabled, Fails, Apply;
    FindsNothing(s, w);
    IdleResumes(At(s, w, NoTask), w);
    var s2 := Moved(s, w, IdleTop, RUNNING, OnIdle).(idlers := s.idlers + 1);
    assert Moved(At(s, w, NoTask), w, IdleTop, RUNNING, OnIdle).workers == s2.workers;
    RunTwo(s, Scan(w), At(s, w, NoTask), IdleResume(w), s2);
  }

  lemma FindsNothing(s: State, w: nat)
    requires In(s, w, Scanning) && s.queue == []
    ensures Enabled(s, Scan(w)) && !Fails(s, Scan(w)) && Apply(s, Scan(w)) == At(s, w, NoTask)
  {}

  lemma IdleResumes(s: State, w: nat)
    requires In(s, w, NoTask) && s.workers[w].idle == READY
    ensures Enabled(s, IdleResume(w)) && !Fails(s, IdleResume(w))
    ensures Apply(s, IdleResume(w)) == Moved(s, w, IdleTop, RUNNING, OnIdle).(idlers := s.idlers + 1)
  {}

  /** With nothing armed or pending, the first two reads of `stopping` pass. */
  lemma ReadsPass(s: State, w: nat)
    requires In(s, w, IdleTop) && s.timers == UNARMED && s.pending == 0
    ensures Run(s, [ReadTimers(w), ReadPending(w)]) == Some(At(s, w, NoPending))
  {
    hide Run;
    RunTwo(s, ReadTimers(w), At(s, w, NoTimers), ReadPending(w), At(s, w, NoPending));
  }

  lemma IdleRound(s: State, w: nat)
    requires In(s, w, Scanning) && s.workers[w].idle == READY && s.queue == [] && s.timers == UNARMED && s.pending == 0
    ensures Run(s, Reads(w)) ==
      Some(Moved(s, w, if SchedulerStopping(s) then IdleOver else IdlePass, RUNNING, OnIdle).(idlers := s.idlers + 1))
  {
    hide Run;
    var s2 := Moved(s, w, IdleTop, RUNNING, OnIdle).(idlers := s.idlers + 1);
    var s4 := At(s2, w, NoPending);
    IdleStarts(s, w);
    ReadsPass(s2, w);
    RunOne(s4, ReadQueue(w), Moved(s, w, if SchedulerStopping(s) then IdleOver else IdlePass, RUNNING, OnIdle)
      .(idlers := s.idlers + 1));
    RunThen(s, [Scan(w), IdleResume(w)], [ReadTimers(w), ReadPending(w)]);
    RunThen(s, [Scan(w), IdleResume(w)] + [ReadTimers(w), ReadPending(w)], [ReadQueue(w)]);
    assert [Scan(w), IdleResume(w)] + [ReadTimers(w), ReadPending(w)] + [ReadQueue(w)] == Reads(w);
  }

  /** A worker takes the one queued callback and runs it on a fiber of its own. */
  lemma CallbackStarts(s: State, w: nat, task: ScheduleTask)
    requires In(s, w, Scanning) && s.queue == [task] && task.fiber.None? && task.cb && task.thread == ANY_THREAD
    ensures Run(s, [Scan(w), Spawn(w), Resume(w)]) == Some(
      Moved(s, w, Running(task, |s.fibers|), s.workers[w].idle, OnTask(|s.fibers|)).(
        queue := [], active := s.active + 1, log := s.log + [Take(task.token, w)],
        fibers := s.fibers + [Fiber(RUNNING, Some(w))]))
  {
    hide Run;
    var f := |s.fibers|;
    var s1 := At(s, w, Taken(task)).(queue := [], active := s.active + 1, log := s.log + [Take(task.token, w)]);
    var s2 := At(s1, w, Checked(task, f)).(fibers := s.fibers + [Fiber(READY, Some(w))]);
    var s3 := On(s1, w, Running(task, f), OnTask(f)).(fibers := s.fibers + [Fiber(RUNNING, Some(w))]);
    RunTwoTakes(s, w, task, s1, s2);
    assert s3.fibers == s2.fibers[f := Fiber(RUNNING, Some(w))];
    RunOne(s2, Resume(w), s3);
    RunThen(s, [Scan(w), Spawn(w)], [Resume(w)]);
    assert [Scan(w), Spawn(w)] + [Resume(w)] == [Scan(w), Spawn(w), Resume(w)];
    assert s3.workers == Moved(s, w, Running(task, f), s.workers[w].idle, OnTask(f)).workers;
  }

  lemma RunTwoTakes(s: State, w: nat, task: ScheduleTask, s1: State, s2: State)
    requires In(s, w, Scanning) && s.queue == [task] && task.fiber.None? && task.cb && task.thread == ANY_THREAD
    requires s1 == At(s, w, Taken(task)).(queue := [], active := s.active + 1, log := s.log + [Take(task.token, w)])
    requires s2 == At(s1, w, Checked(task, |s.fibers|)).(fibers := s.fibers + [Fiber(READY, Some(w))])
    ensures Run(s, [Scan(w), Spawn(w)]) == Some(s2)
  {
    hide Run, Enabled, Fails, Apply;
    TakesTheOnly(s, w, task);
    SpawnsOwn(s1, w, task);
    RunTwo(s, Scan(w), s1, Spawn(w), s2);
  }

  lemma TakesTheOnly(s: State, w: nat, task: ScheduleTask)
    requires In(s, w, Scanning) && s.queue == [task] && task.cb && task.thread == ANY_THREAD
    ensures Enabled(s, Scan(w)) && !Fails(s, Scan(w))
    ensures Apply(s, Scan(w)) ==
      At(s, w, Taken(task)).(queue := [], active := s.active + 1, log := s.log + [Take(task.token, w)])
  {
    assert Without(s.queue, 0) == [];
  }

  lemma SpawnsOwn(s: State, w: nat, task: ScheduleTask)
    requires In(s, w, Taken(task)) && task.fiber.None?
    ensures Enabled(s, Spawn(w)) && !Fails(s, Spawn(w))
    ensures Apply(s, Spawn(w)) == At(s, w, Checked(task, |s.fibers|)).(fibers := s.fibers + [Fiber(READY, Some(w))])
  {}

  lemma FunctionReturns(s: State, w: nat, task: ScheduleTask, f: FiberId)
    requires In(s, w, Running(task, f)) && f < |s.fibers| && s.workers[w].current == OnTask(f)
    ensures Run(s, [Finish(w), FinalYield(w)]) == Some(
      Moved(s, w, Unlocking(task, f), s.workers[w].idle, OnScheduler)
        .(fibers := s.fibers[f := s.fibers[f].(state := TERM)]))
  {
    hide Run, Enabled, Fails, Apply;
    var ended := s.fibers[f := s.fibers[f].(state := TERM)];
    var s1 := At(s, w, Ending(task, f)).(fibers := ended);
    var s2 := Moved(s, w, Unlocking(task, f), s.workers[w].idle, OnScheduler).(fibers := ended);
    FunctionEnds(s, w, task, f);
    SwitchesBack(s1, w, task, f);
    assert s1.fibers[f := s1.fibers[f].(state := TERM)] == ended;
    assert Moved(s1, w, Unlocking(task, f), s.workers[w].idle, OnScheduler).workers == s2.workers;
    RunTwo(s, Finish(w), s1, FinalYield(w), s2);
  }

  lemma FunctionEnds(s: State, w: nat, task: ScheduleTask, f: FiberId)
    requires In(s, w, Running(task, f)) && f < |s.fibers| && s.workers[w].current == OnTask(f)
    ensures Enabled(s, Finish(w)) && !Fails(s, Finish(w))
    ensures Apply(s, Finish(w)) ==
      At(s, w, Ending(task, f)).(fibers := s.fibers[f := s.fibers[f].(state := TERM)])
  {}

  lemma SwitchesBack(s: State, w: nat, task: ScheduleTask, f: FiberId)
    requires In(s, w, Ending(task, f)) && f < |s.fibers| && s.workers[w].current == OnTask(f)
    requires s.fibers[f].state == TERM
    ensures Enabled(s, FinalYield(w)) && !Fails(s, FinalYield(w))
    ensures Apply(s, FinalYield(w)) == Moved(s, w, Unlocking(task, f), s.workers[w].idle, OnScheduler)
      .(fibers := s.fibers[f := s.fibers[f].(state := TERM)])
  {}

  /** The worker gives the mutex back and counts its task out. */
  lemma CountsOut(s: State, w: nat, task: ScheduleTask, f: FiberId)
    requires In(s, w, Unlocking(task, f)) && f < |s.fibers| && s.workers[w].current == OnScheduler
    ensures Run(s, [Unlock(w), Release(w)]) == Some(
      Moved(s, w, Scanning, s.workers[w].idle, OnScheduler).(
        fibers := s.fibers[f := s.fibers[f].(holder := None)], active := s.active - 1,
        finished := s.finished + multiset{task.token}))
  {
    hide Run;
    var freed := s.fibers[f := s.fibers[f].(holder := None)];
    RunTwo(s, Unlock(w), Moved(s, w, Releasing(task), s.workers[w].idle, OnScheduler).(fibers := freed), Release(w),
        Moved(s, w, Scanning, s.workers[w].idle, OnScheduler).(
          fibers := freed, active := s.active - 1, finished := s.finished + multiset{task.token}));
  }

  /** The function of a running fiber returns, and the worker counts its task out. */
  lemma CallbackEnds(s: State, w: nat, task: ScheduleTask, f: FiberId)
    requires In(s, w, Running(task, f)) && f < |s.fibers| && s.workers[w].current == OnTask(f)
    ensures Run(s, [Finish(w), FinalYield(w), Unlock(w), Release(w)]) == Some(CountedOut(s, w, task, f, TERM))
  {
    hide Run, Enabled, Fails, Apply;
    FunctionReturns(s, w, task, f);
    var s2 := Run(s, [Finish(w), FinalYield(w)]).value;
    CountsOut(s2, w, task, f);
    RunThen(s, [Finish(w), FinalYield(w)], [Unlock(w), Release(w)]);
    assert [Finish(w), FinalYield(w)] + [Unlock(w), Release(w)] == [Finish(w), FinalYield(w), Unlock(w), Release(w)];
    assert s2.fibers[f := s2.fibers[f].(holder := None)] == s.fibers[f := Fiber(TERM, None)];
    assert s2.workers[w := Worker(Scanning, s.workers[w].idle, OnScheduler)] ==
      s.workers[w := Worker(Scanning, s.workers[w].idle, OnScheduler)];
  }

  /** Worker `w` is back at its loop, the task counted out and its fiber left free in `state`. */
  function CountedOut(s: State, w: nat, task: ScheduleTask, f: FiberId, state: FiberState): State
    requires w < |s.workers| && f < |s.fibers|
  {
    Moved(s, w, Scanning, s.workers[w].idle, OnScheduler).(
      fibers := s.fibers[f := Fiber(state, None)], active := s.active - 1,
      finished := s.finished + multiset{task.token})
  }

  lemma Leaves(s: State, w: nat)
    requires In(s, w, Scanning) && s.workers[w].idle == TERM && s.queue == []
    ensures Run(s, [Scan(w), Exit(w)]) == Some(At(s, w, Exited))
  {
    hide Run;
    RunTwo(s, Scan(w), At(s, w, NoTask), Exit(w), At(s, w, Exited));
  }

  function Fresh(workers: nat): (s: State)
    requires workers > 0
    ensures Init(s)
  {
    State(seq(workers, _ => Worker(Outside, READY, OnScheduler)), [], [], 0, 0, false, UNARMED, 0, [], multiset{}, [])
  }

  /** One worker runs a callback whose fiber is reset from outside after its function has returned and before it
      has switched away: the assertion of `yield` fails. */
  lemma ResetRaceIsReachable()
    ensures var s := Run(Fresh(1), [Push(FromOutside, None, true, ANY_THREAD), Enter(0)]
        + [Scan(0), Spawn(0), Resume(0)] + [Finish(0), Reset(FromOutside, 0)]);
      s.Some? && Enabled(s.value, FinalYield(0)) && Fails(s.value, FinalYield(0))
  {
    hide Run, Apply;
    var task := ScheduleTask(0, None, true, ANY_THREAD);
    var start, take := [Push(FromOutside, None, true, ANY_THREAD), Enter(0)], [Scan(0), Spawn(0), Resume(0)];
    var end := [Finish(0), Reset(FromOutside, 0)];
    var s1 := Fresh(1).(workers := [Worker(Scanning, READY, OnScheduler)], queue := [task], pins := [ANY_THREAD]);
    Begins(Fresh(1), s1, task);
    CallbackStarts(s1, 0, task);
    var s2 := Run(s1, take).value;
    EndsRevived(s2, task);
    RunThen(Fresh(1), start, take);
    RunThen(Fresh(1), start + take, end);
  }

  lemma Begins(s: State, s1: State, task: ScheduleTask)
    requires s == Fresh(1) && task == ScheduleTask(0, None, true, ANY_THREAD)
    requires s1 == s.(workers := [Worker(Scanning, READY, OnScheduler)], queue := [task], pins := [ANY_THREAD])
    ensures Run(s, [Push(FromOutside, None, true, ANY_THREAD), Enter(0)]) == Some(s1)
  {
    hide Run;
    var push, m := Push(FromOutside, None, true, ANY_THREAD), s.(queue := [task], pins := [ANY_THREAD]);
    RunTwo(s, push, m, Enter(0), s1);
  }

  lemma EndsRevived(s: State, task: ScheduleTask)
    requires s.workers == [Worker(Running(task, 0), READY, OnTask(0))] && s.fibers == [Fiber(RUNNING, Some(0))]
    ensures var s' := Run(s, [Finish(0), Reset(FromOutside, 0)]);
      s'.Some? && Enabled(s'.value, FinalYield(0)) && Fails(s'.value, FinalYield(0))
  {
    hide Run, Enabled, Fails, Apply;
    var s1 := s.(workers := [Worker(Ending(task, 0), READY, OnTask(0))], fibers := [Fiber(TERM, Some(0))]);
    var s2 := s1.(fibers := [Fiber(READY, Some(0))]);
    ReturnsThenReset(s, task, s1, s2);
    RevivedFails(s2, task);
  }

  lemma ReturnsThenReset(s: State, task: ScheduleTask, s1: State, s2: State)
    requires s.workers == [Worker(Running(task, 0), READY, OnTask(0))] && s.fibers == [Fiber(RUNNING, Some(0))]
    requires s1 == s.(workers := [Worker(Ending(task, 0), READY, OnTask(0))], fibers := [Fiber(TERM, Some(0))])
    requires s2 == s1.(fibers := [Fiber(READY, Some(0))])
    ensures Run(s, [Finish(0), Reset(FromOutside, 0)]) == Some(s2)
  {
    hide Run;
    RunTwo(s, Finish(0), s1, Reset(FromOutside, 0), s2);
  }

  lemma RevivedFails(s: State, task: ScheduleTask)
    requires s.workers == [Worker(Ending(task, 0), READY, OnTask(0))] && s.fibers == [Fiber(READY, Some(0))]
    ensures Enabled(s, FinalYield(0)) && Fails(s, FinalYield(0))
  {}

  // ---------------------------------------------------------------- a timer lost at shutdown

  function OneShot(): Armed { Armed(1, 0, 0, 0) }

  /** Worker 0 has collected an expired timer's callback and not yet scheduled it; worker 1 has decided to leave. */
  function Halfway(): State {
    State([Worker(Scheduling(1), RUNNING, OnIdle), Worker(Scanning, TERM, OnScheduler)], [], [], 0, 1, true, UNARMED, 0,
      [], multiset{}, [])
  }

  /** Before the workers start a timer is armed; worker 0 reads that one is and sleeps. */
  function ToPass(): seq<Step> {
    [Adjust(FromOutside, OneShot(), 0), Enter(0)] + [Scan(0), IdleResume(0)] + [ReadTimers(0)]
  }

  /** `stop` is called, the timer expires, and worker 1 enters and reads that there is nothing left. */
  function ToHalfway(): seq<Step> {
    ToPass() + [Stop, Collect(0, OneShot(), UNARMED)] + [Enter(1)] + Reads(1) + [IdleReturn(1)]
  }

  lemma ReachesPass()
    ensures Run(Fresh(2), ToPass()) == Some(Fresh(2).(timers := OneShot(), idlers := 1,
      workers := [Worker(IdlePass, RUNNING, OnIdle), Worker(Outside, READY, OnScheduler)]))
  {
    hide Run;
    var out, scan := Worker(Outside, READY, OnScheduler), Worker(Scanning, READY, OnScheduler);
    var s0 := Fresh(2);
    assert s0.workers == [out, out];
    NothingCounted(s0.workers, IsCounting);
    var s1 := s0.(timers := OneShot());
    var s2 := s1.(workers := [scan, out]);
    var s3 := s1.(workers := [Worker(IdleTop, RUNNING, OnIdle), out], idlers := 1);
    var s4 := s3.(workers := [Worker(IdlePass, RUNNING, OnIdle), out]);
    RunTwo(s0, Adjust(FromOutside, OneShot(), 0), s1, Enter(0), s2);
    IdleStarts(s2, 0);
    assert Moved(s2, 0, IdleTop, RUNNING, OnIdle).workers == s3.workers;
    RunOne(s3, ReadTimers(0), s4);
    RunThen(s0, [Adjust(FromOutside, OneShot(), 0), Enter(0)], [Scan(0), IdleResume(0)]);
    RunThen(s0, [Adjust(FromOutside, OneShot(), 0), Enter(0)] + [Scan(0), IdleResume(0)], [ReadTimers(0)]);
  }

  lemma ReachesHalfway()
    ensures Run(Fresh(2), ToHalfway()) == Some(Halfway())
  {
    hide Run;
    var out, took := Worker(Outside, READY, OnScheduler), Worker(Scheduling(1), RUNNING, OnIdle);
    var s0, pass := Fresh(2), Worker(IdlePass, RUNNING, OnIdle);
    var s2 := s0.(timers := OneShot(), idlers := 1, workers := [pass, out]);
    var s3 := s2.(stopping := true);
    var s4 := s3.(timers := UNARMED, workers := [took, out]);
    var s5 := s4.(workers := [took, Worker(Scanning, READY, OnScheduler)]);
    var s6 := s4.(workers := [took, Worker(IdleOver, RUNNING, OnIdle)], idlers := 2);
    ReachesPass();
    RunTwo(s2, Stop, s3, Collect(0, OneShot(), UNARMED), s4);
    RunOne(s4, Enter(1), s5);
    IdleRound(s5, 1);
    assert Moved(s5, 1, IdleOver, RUNNING, OnIdle).workers == s6.workers;
    RunOne(s6, IdleReturn(1), Halfway());
    RunThen(s0, ToPass(), [Stop, Collect(0, OneShot(), UNARMED)]);
    RunThen(s0, ToPass() + [Stop, Collect(0, OneShot(), UNARMED)], [Enter(1)]);
    RunThen(s0, ToPass() + [Stop, Collect(0, OneShot(), UNARMED)] + [Enter(1)], Reads(1));
    RunThen(s0, ToPass() + [Stop, Collect(0, OneShot(), UNARMED)] + [Enter(1)] + Reads(1), [IdleReturn(1)]);
  }

  function ToAbandoned(): seq<Step> {
    [Scan(1), Exit(1)] + [Fire(0), IdleYield(0)] + [Scan(0), Spawn(0), Resume(0)]
    + [Push(ByWorker(0), None, true, 1)]
  }

  /** Worker 1 leaves; then worker 0 schedules the callback it has collected, which pins another to worker 1. */
  lemma HalfwayAbandons()
    ensures var s := Run(Halfway(), ToAbandoned());
      s.Some? && Abandoned(s.value, ScheduleTask(1, None, true, 1))
  {
    hide Run, Abandoned;
    var s0, task := Halfway(), ScheduleTask(0, None, true, ANY_THREAD);
    var left := Worker(Exited, TERM, OnScheduler);
    var s1 := s0.(workers := [Worker(Scheduling(1), RUNNING, OnIdle), left]);
    var s2 := s1.(workers := [Worker(Scheduling(0), RUNNING, OnIdle), left], queue := [task], pins := [ANY_THREAD]);
    var s3 := s2.(workers := [Worker(Scanning, READY, OnScheduler), left], idlers := 0);
    Leaves(s0, 1);
    assert At(s0, 1, Exited) == s1 by { assert At(s0, 1, Exited).workers == s1.workers; }
    RunTwo(s1, Fire(0), s2, IdleYield(0), s3);
    CallbackStarts(s3, 0, task);
    var s4 := Run(s3, [Scan(0), Spawn(0), Resume(0)]).value;
    PinsToLeft(s4, left);
    RunThen(s0, [Scan(1), Exit(1)], [Fire(0), IdleYield(0)]);
    RunThen(s0, [Scan(1), Exit(1)] + [Fire(0), IdleYield(0)], [Scan(0), Spawn(0), Resume(0)]);
    RunThen(s0, [Scan(1), Exit(1)] + [Fire(0), IdleYield(0)] + [Scan(0), Spawn(0), Resume(0)],
      [Push(ByWorker(0), None, true, 1)]);
  }

  lemma PinsToLeft(s: State, left: Worker)
    requires |s.workers| == 2 && s.workers[0].phase.Running? && s.workers[1] == left && left.phase == Exited
    requires |s.pins| == 1
    ensures var s' := Run(s, [Push(ByWorker(0), None, true, 1)]);
      s'.Some? && Abandoned(s'.value, ScheduleTask(1, None, true, 1))
  {
    hide Run;
    var push := Push(ByWorker(0), None, true, 1);
    RunOne(s, push, Apply(s, push));
    assert Apply(s, push).queue == s.queue + [ScheduleTask(1, None, true, 1)];
  }

  /** Such a state is reached from a fresh system of two workers. */
  lemma AbandonedIsReachable() returns (steps: seq<Step>)
    ensures var s := Run(Fresh(2), steps); s.Some? && Abandoned(s.value, ScheduleTask(1, None, true, 1))
  {
    hide Run, Abandoned;
    var first := ToHalfway();
    ReachesHalfway();
    HalfwayAbandons();
    RunThen(Fresh(2), first, ToAbandoned());
    steps := first + ToAbandoned();
  }

  function TheTask(): ScheduleTask { ScheduleTask(0, None, true, ANY_THREAD) }

  /** Worker 0 has read that there is no timer while worker 1 runs the last task. */
  function Racing(): State {
    State([Worker(NoTimers, RUNNING, OnIdle), Worker(Running(TheTask(), 0), TERM, OnTask(0))],
      [Fiber(RUNNING, Some(1))], [], 1, 1, true, UNARMED, 0, [ANY_THREAD], multiset{}, [Take(0, 1)])
  }

  function ToRacing(): seq<Step> {
    [Fire(0), IdleYield(0)] + [Scan(1), Spawn(1), Resume(1)] + [Scan(0), IdleResume(0), ReadTimers(0)]
  }

  lemma ReachesRacing()
    ensures Run(Halfway(), ToRacing()) == Some(Racing())
  {
    hide Run;
    var gone, task := Worker(Scanning, TERM, OnScheduler), TheTask();
    var runs := Worker(Running(task, 0), TERM, OnTask(0));
    var s0 := Halfway();
    var s1 := s0.(workers := [Worker(Scheduling(0), RUNNING, OnIdle), gone], queue := [task], pins := [ANY_THREAD]);
    var s2 := s1.(workers := [Worker(Scanning, READY, OnScheduler), gone], idlers := 0);
    var s3 := Racing().(workers := [Worker(Scanning, READY, OnScheduler), runs], idlers := 0);
    var s5 := Racing().(workers := [Worker(IdleTop, RUNNING, OnIdle), runs]);
    RunTwo(s0, Fire(0), s1, IdleYield(0), s2);
    CallbackStarts(s2, 1, task);
    assert Moved(s2, 1, Running(task, 0), TERM, OnTask(0)).workers == s3.workers;
    assert s2.log + [Take(0, 1)] == s3.log && s2.fibers + [Fiber(RUNNING, Some(1))] == s3.fibers;
    IdleStarts(s3, 0);
    assert Moved(s3, 0, IdleTop, RUNNING, OnIdle).workers == s5.workers;
    RunOne(s5, ReadTimers(0), Racing());
    RunThen(s3, [Scan(0), IdleResume(0)], [ReadTimers(0)]);
    assert [Scan(0), IdleResume(0)] + [ReadTimers(0)] == [Scan(0), IdleResume(0), ReadTimers(0)];
    RunThen(s0, [Fire(0), IdleYield(0)], [Scan(1), Spawn(1), Resume(1)]);
    RunThen(s0, [Fire(0), IdleYield(0)] + [Scan(1), Spawn(1), Resume(1)], [Scan(0), IdleResume(0), ReadTimers(0)]);
  }

  function ToEnd(): seq<Step> {
    [Adjust(ByWorker(1), OneShot(), 0)] + [Finish(1), FinalYield(1), Unlock(1), Release(1)] + [Scan(1), Exit(1)]
      + [ReadPending(0), ReadQueue(0), IdleReturn(0)] + [Scan(0), Exit(0)]
  }

  /** The task arms a timer and ends; both workers leave, and the timer is never going to fire. */
  lemma RacingLosesTimer()
    ensures var s := Run(Racing(), ToEnd());
      && s.Some? && s.value.timers == OneShot()
      && forall w | 0 <= w < |s.value.workers| :: s.value.workers[w].phase == Exited
  {
    hide Run;
    var waits, gone := Worker(NoTimers, RUNNING, OnIdle), Worker(Scanning, TERM, OnScheduler);
    var left := Worker(Exited, TERM, OnScheduler);
    var s0 := Racing();
    var s1 := s0.(timers := OneShot());
    var s2 := s1.(workers := [waits, gone], fibers := [Fiber(TERM, None)], active := 0, finished := multiset{0});
    var s3 := s2.(workers := [waits, left]);
    var s4 := s3.(workers := [gone, left], idlers := 0);
    RunOne(s0, Adjust(ByWorker(1), OneShot(), 0), s1);
    CallbackEnds(s1, 1, TheTask(), 0);
    assert Moved(s1, 1, Scanning, TERM, OnScheduler).workers == s2.workers
      && s1.fibers[0 := Fiber(TERM, None)] == s2.fibers;
    assert s1.finished + multiset{0} == s2.finished;
    Leaves(s2, 1);
    assert At(s2, 1, Exited) == s3 by { assert At(s2, 1, Exited).workers == s3.workers; }
    LastReads(s3, s4, left);
    Leaves(s4, 0);
    RunThen(s0, [Adjust(ByWorker(1), OneShot(), 0)], [Finish(1), FinalYield(1), Unlock(1), Release(1)]);
    var first := [Adjust(ByWorker(1), OneShot(), 0)] + [Finish(1), FinalYield(1), Unlock(1), Release(1)];
    RunThen(s0, first, [Scan(1), Exit(1)]);
    RunThen(s0, first + [Scan(1), Exit(1)], [ReadPending(0), ReadQueue(0), IdleReturn(0)]);
    RunThen(s0, first + [Scan(1), Exit(1)] + [ReadPending(0), ReadQueue(0), IdleReturn(0)], [Scan(0), Exit(0)]);
  }

  lemma LastReads(s: State, s': State, left: Worker)
    requires s.workers == [Worker(NoTimers, RUNNING, OnIdle), left] && s.pending == 0 && SchedulerStopping(s)
    requires s' == s.(workers := [Worker(Scanning, TERM, OnScheduler), left], idlers := s.idlers - 1)
    ensures Run(s, [ReadPending(0), ReadQueue(0), IdleReturn(0)]) == Some(s')
  {
    hide Run, Enabled, Fails, Apply;
    var s1 := s.(workers := [Worker(NoPending, RUNNING, OnIdle), left]);
    var s2 := s.(workers := [Worker(IdleOver, RUNNING, OnIdle), left]);
    BothReadsPass(s, s1, s2, left);
    IdleEnds(s2, s', left);
    RunThen(s, [ReadPending(0), ReadQueue(0)], [IdleReturn(0)]);
    assert [ReadPending(0), ReadQueue(0)] + [IdleReturn(0)] == [ReadPending(0), ReadQueue(0), IdleReturn(0)];
  }

  lemma BothReadsPass(s: State, s1: State, s2: State, left: Worker)
    requires s.workers == [Worker(NoTimers, RUNNING, OnIdle), left] && s.pending == 0 && SchedulerStopping(s)
    requires s1 == s.(workers := [Worker(NoPending, RUNNING, OnIdle), left])
    requires s2 == s.(workers := [Worker(IdleOver, RUNNING, OnIdle), left])
    ensures Run(s, [ReadPending(0), ReadQueue(0)]) == Some(s2)
  {
    hide Run;
    RunTwo(s, ReadPending(0), s1, ReadQueue(0), s2);
  }

  lemma IdleEnds(s: State, s': State, left: Worker)
    requires s.workers == [Worker(IdleOver, RUNNING, OnIdle), left]
    requires s' == s.(workers := [Worker(Scanning, TERM, OnScheduler), left], idlers := s.idlers - 1)
    ensures Run(s, [IdleReturn(0)]) == Some(s')
  {
    hide Run;
    RunOne(s, IdleReturn(0), s');
  }

  /** A shutdown may complete with a timer still armed, because `stopping` reads the timers, the pending count and
      the queue one after another. */
  lemma ShutdownMayLoseATimer() returns (steps: seq<Step>)
    ensures var s := Run(Fresh(2), steps);
      && s.Some? && s.value.timers == OneShot()
      && forall w | 0 <= w < |s.value.workers| :: s.value.workers[w].phase == Exited
  {
    hide Run;
    var first := ToHalfway();
    ReachesHalfway();
    ReachesRacing();
    RacingLosesTimer();
    RunThen(Fresh(2), first, ToRacing());
    RunThen(Fresh(2), first + ToRacing(), ToEnd());
    steps := first + ToRacing() + ToEnd();
  }

  // ---------------------------------------------------------------- a dead timer

  /** A dead timer in the set when `stop` is called, and workers that have not started yet: they never all leave. */
  lemma DoomedIsReachable(workers: nat)
    requires workers > 0
    ensures var s := Run(Fresh(workers), [Adjust(FromOutside, Armed(0, 0, 0, 1), 0), Stop]);
      s.Some? && Inv(s.value) && Doomed(s.value)
  {
    hide Run, Inv;
    var s0 := Fresh(workers);
    var s1 := s0.(timers := Armed(0, 0, 0, 1));
    var s2 := s1.(stopping := true);
    NothingCounted(s0.workers, IsCounting);
    RunTwo(s0, Adjust(FromOutside, Armed(0, 0, 0, 1), 0), s1, Stop, s2);
    InitInv(s0);
    RunKeepsInv(s0, [Adjust(FromOutside, Armed(0, 0, 0, 1), 0), Stop]);
    assert !PastTimers(s2.workers[0]);
  }
}
