/** How blocking calls end: with what the last attempt reported, or with ETIMEDOUT exactly when they are flagged; and
    what a call does after each of its attempts and waits. */
module BlockingOutcomes {
  import opened Common
  import TM = TimerModel
  import T = TimerRuns
  import RM = ReactorModel
  import R = ReactorRuns
  import opened BlockingCall
  import opened BlockingProofs
  import opened BlockingRuns
  import opened BlockingTimeouts

  // ---------------------------------------------------------------- the last word on a call

  /** The step is the last of a call `c` of this kind, and this its result, a timeout apart. */
  predicate Concludes(kind: Kind, step: Step, c: nat, result: Result) {
    match result
    case Returned(n) =>
      || step == Attempted(c, Got(n))
      || (kind == Connect && n == 0 && step == Settled(c, false))
    case Error =>
      || step == Attempted(c, Failed)
      || (kind == DoIo && step == Abandon(c))
      || (kind == Connect && (step == Attempted(c, Interrupted) || step == Settled(c, true)))
    case TimedOut => false
  }

  /** The step ends call `c` with this result. */
  predicate Ends(s: Sys, step: Step, c: nat, result: Result) {
    && c < |s.calls|
    && if result == TimedOut then step == Decide(c) && s.calls[c].cancelled
       else Concludes(s.calls[c].kind, step, c, result)
  }

  lemma StepEndsIff(s: Sys, step: Step, c: nat, result: Result)
    requires Enabled(s, step) && c < |s.calls| && !s.calls[c].phase.Done?
    requires step.Settled? ==> s.calls[c].kind == Connect || step.c != c
    ensures c < |Apply(s, step).calls| && Apply(s, step).calls[c].kind == s.calls[c].kind
    ensures Apply(s, step).calls[c].phase == Done(result) <==> Ends(s, step, c, result)
  {
    hide Apply, Enabled;
    KindStays(s, step, c);
    if OwnStep(step, c) { OwnPhase(s, step, c); } else { OtherPhase(s, step, c); }
  }

  /** A step that the call itself takes. */
  predicate OwnStep(step: Step, c: nat) {
    match step
    case Begin(_, _, _, _, _) => false
    case RunCallback(_) => false
    case Timers(_) => false
    case Reactor(_) => false
    case _ => step.c == c
  }

  lemma OtherPhase(s: Sys, step: Step, c: nat)
    requires Enabled(s, step) && c < |s.calls| && !OwnStep(step, c)
    ensures c < |Apply(s, step).calls| && Apply(s, step).calls[c].phase == s.calls[c].phase
  {
    hide T.Apply, T.Enabled, R.Call, R.Reports, ReactorAllows, RM.Waiting;
  }

  lemma OwnPhase(s: Sys, step: Step, c: nat)
    requires Enabled(s, step) && c < |s.calls| && OwnStep(step, c)
    ensures c < |Apply(s, step).calls|
    ensures var (call, phase) := (s.calls[c], Apply(s, step).calls[c].phase);
      match step
      case Attempted(_, outcome) => call.phase == Try && phase == AfterAttempt(call.kind, outcome)
      case ArmTimer(_, _) => call.phase == Arm && phase == Armed
      case Register(_) => call.phase == Armed && (phase.Parked? || phase == AddFailed)
      case Abandon(_) => call.phase == AddFailed && phase == if call.kind == DoIo then Done(Error) else Settle
      case Wake(_) => call.phase.Parked? && phase == Resumed
      case Disarm(_) => call.phase == Resumed && phase == Check
      case Decide(_) => call.phase == Check && phase == (
        if call.cancelled then Done(TimedOut) else if call.kind == DoIo then Try else Settle)
      case Settled(_, error) => call.phase == Settle && phase == Done(if error then Error else Returned(0))
      case _ => true
  {
    hide T.Apply, T.Enabled, R.Call, R.Reports, ReactorAllows, RM.Waiting, AfterAttempt;
  }

  /** Only a connect goes on to ask for the socket's error. */
  ghost predicate SettlesOk(s: Sys) {
    forall c | 0 <= c < |s.calls| && s.calls[c].phase == Settle :: s.calls[c].kind == Connect
  }

  lemma SettlesKept(s: Sys, step: Step)
    requires Enabled(s, step) && SettlesOk(s)
    ensures SettlesOk(Apply(s, step)) && |s.calls| <= |Apply(s, step).calls|
  {
    hide T.Apply, T.Enabled, R.Call, R.Reports, ReactorAllows, RM.Waiting;
  }

  /** A call that begins has its first attempt before it. */
  lemma BeginsToTry(s: Sys, step: Step, c: nat)
    requires Enabled(s, step) && |s.calls| <= c < |Apply(s, step).calls|
    ensures step.Begin? && c == |s.calls| && Apply(s, step).calls[c].phase == Try
    ensures Apply(s, step).calls[c].kind == step.kind
  {
    hide T.Apply, T.Enabled, R.Call, R.Reports, ReactorAllows, RM.Waiting;
  }

  /** Some step of the run ends the call so. */
  ghost predicate EndsAlong(s: Sys, steps: seq<Step>, c: nat, result: Result)
    decreases |steps|
  {
    steps != [] && Enabled(s, steps[0]) &&
    (Ends(s, steps[0], c, result) || EndsAlong(Apply(s, steps[0]), steps[1..], c, result))
  }

  /** The call is done at the end of a run exactly as some step of the run ended it. */
  lemma {:induction false} DoneIff(s: Sys, steps: seq<Step>, c: nat, result: Result)
    requires SettlesOk(s) && Run(s, steps).Some? && (c < |s.calls| ==> !s.calls[c].phase.Done?)
    requires c < |Run(s, steps).value.calls|
    ensures Run(s, steps).value.calls[c].phase == Done(result) <==> EndsAlong(s, steps, c, result)
    decreases |steps|
  {
    hide Enabled, Apply, Ends, SettlesOk;
    if steps != [] {
      var s' := Apply(s, steps[0]);
      SettlesKept(s, steps[0]);
      if c < |s.calls| {
        DoneStep(s, steps, c, result);
      } else {
        NotYetBegun(s, steps[0], c, result);
        if c < |s'.calls| { BeginsToTry(s, steps[0], c); }
        DoneIff(s', steps[1..], c, result);
      }
    }
  }

  lemma NotYetBegun(s: Sys, step: Step, c: nat, result: Result)
    requires |s.calls| <= c
    ensures !Ends(s, step, c, result)
  {}

  lemma {:induction false} DoneStep(s: Sys, steps: seq<Step>, c: nat, result: Result)
    requires SettlesOk(s) && Run(s, steps).Some? && steps != [] && c < |s.calls| && !s.calls[c].phase.Done?
    ensures c < |Run(s, steps).value.calls|
    ensures Run(s, steps).value.calls[c].phase == Done(result) <==> EndsAlong(s, steps, c, result)
    decreases |steps|
  {
    hide Apply, Ends;
    var s' := Apply(s, steps[0]);
    SettlesKept(s, steps[0]);
    StepEndsIff(s, steps[0], c, result);
    if s'.calls[c].phase.Done? {
      FinishedForGood(s', steps[1..], c);
      NothingEndsDone(s', steps[1..], c, result);
    } else if steps[1..] != [] {
      DoneStep(s', steps[1..], c, result);
    }
  }

  lemma {:induction false} NothingEndsDone(s: Sys, steps: seq<Step>, c: nat, result: Result)
    requires Run(s, steps).Some? && c < |s.calls| && s.calls[c].phase.Done?
    ensures !EndsAlong(s, steps, c, result)
    decreases |steps|
  {
    hide Apply;
    if steps != [] {
      DoneIsOver(s, steps[0], c, result);
      FinishedIsUntouched(s, steps[0], c);
      NothingEndsDone(Apply(s, steps[0]), steps[1..], c, result);
    }
  }

  lemma DoneIsOver(s: Sys, step: Step, c: nat, result: Result)
    requires Enabled(s, step) && c < |s.calls| && s.calls[c].phase.Done?
    ensures !Ends(s, step, c, result)
  {
    hide T.Enabled, R.Enabled, ReactorAllows;
  }

  lemma KindStays(s: Sys, step: Step, c: nat)
    requires Enabled(s, step) && c < |s.calls|
    ensures c < |Apply(s, step).calls| && Apply(s, step).calls[c].kind == s.calls[c].kind
  {
    hide T.Apply, T.Enabled, R.Call, R.Reports, ReactorAllows, RM.Waiting;
  }

  lemma {:induction false} KindAlong(s: Sys, steps: seq<Step>, c: nat)
    requires Run(s, steps).Some? && c < |s.calls|
    ensures c < |Run(s, steps).value.calls| && Run(s, steps).value.calls[c].kind == s.calls[c].kind
    decreases |steps|
  {
    hide Enabled, Apply;
    if steps != [] {
      KindStays(s, steps[0], c);
      KindAlong(Apply(s, steps[0]), steps[1..], c);
    }
  }

  lemma ConcludesOwn(s: Sys, step: Step, c: nat, kind: Kind, result: Result)
    requires Enabled(s, step) && Concludes(kind, step, c, result)
    ensures c < |s.calls|
  {
    hide T.Enabled, ReactorAllows;
  }

  lemma {:induction false} EndsAlongIs(s: Sys, steps: seq<Step>, c: nat, result: Result)
    requires Run(s, steps).Some? && c < |Run(s, steps).value.calls| && result != TimedOut
    ensures EndsAlong(s, steps, c, result) <==>
      exists i | 0 <= i < |steps| :: Concludes(Run(s, steps).value.calls[c].kind, steps[i], c, result)
    decreases |steps|
  {
    hide Enabled, Apply, Concludes;
    if steps != [] {
      var kind, s', rest := Run(s, steps).value.calls[c].kind, Apply(s, steps[0]), steps[1..];
      EndsAlongIs(s', rest, c, result);
      if c < |s.calls| { KindAlong(s, steps, c); }
      if Concludes(kind, steps[0], c, result) { ConcludesOwn(s, steps[0], c, kind, result); }
      assert Ends(s, steps[0], c, result) <==> Concludes(kind, steps[0], c, result);
      assert forall i | 0 < i < |steps| :: steps[i] == rest[i - 1];
      assert forall i | 0 <= i < |rest| :: rest[i] == steps[i + 1];
    }
  }

  /** How any run leaves any call. A value is returned exactly when an attempt reported it, or a connect's socket then
      showed no error; an error exactly when an attempt failed, or registering did, or the socket showed one; and
      ETIMEDOUT exactly when the call decided after a wait, with its flag set. */
  lemma ResultIff(s0: Sys, steps: seq<Step>, c: nat, result: Result)
    requires Init(s0) && Run(s0, steps).Some? && c < |Run(s0, steps).value.calls|
    ensures var call := Run(s0, steps).value.calls[c];
      call.phase == Done(result) <==>
        if result == TimedOut then EndsAlong(s0, steps, c, TimedOut)
        else exists i | 0 <= i < |steps| :: Concludes(call.kind, steps[i], c, result)
  {
    DoneIff(s0, steps, c, result);
    if result != TimedOut { EndsAlongIs(s0, steps, c, result); }
  }

  // ---------------------------------------------------------------- what a call does next

  /** Every way to each of the points between a call's beginning and its end. */
  lemma GoesOnIff(s: Sys, step: Step, c: nat)
    requires Enabled(s, step) && c < |s.calls|
    ensures var (call, phase) := (s.calls[c], Apply(s, step).calls[c].phase);
      && (call.phase != Arm ==> (phase == Arm <==> step == Attempted(c, WouldBlock)))
      && (call.phase != Try ==> (phase == Try <==> step == Decide(c) && call.kind == DoIo && !call.cancelled))
      && (call.phase != Settle ==> (phase == Settle <==>
            call.kind == Connect && (step == Abandon(c) || (step == Decide(c) && !call.cancelled))))
      && (call.phase != Armed ==> (phase == Armed <==> step.ArmTimer? && step.c == c))
  {
    hide Apply, Enabled;
    if OwnStep(step, c) { OwnPhase(s, step, c); } else { OtherPhase(s, step, c); }
  }

  /** An interrupted `do_io` attempt is made again, and nothing else has happened. */
  lemma InterruptedTriesAgain(s: Sys, c: nat)
    requires At(s, c, Try) && s.calls[c].kind == DoIo
    ensures Enabled(s, Attempted(c, Interrupted)) && Apply(s, Attempted(c, Interrupted)) == s
  {
    assert s.calls[c := s.calls[c]] == s.calls;
  }

  /** A call that registers waits exactly when its descriptor has no such event yet. */
  lemma RegisterWaitsIff(s: Sys, c: nat)
    requires Inv(s) && Enabled(s, Register(c))
    ensures var (s', call) := (Apply(s, Register(c)), s.calls[c]);
      && (Waits(s', c) <==> !(call.fd < |s.rs.r.fds| && call.ev in s.rs.r.fds[call.fd].events))
      && (s'.calls[c].phase == AddFailed <==> call.fd < |s.rs.r.fds| && call.ev in s.rs.r.fds[call.fd].events)
  {
    hide T.Inv, R.SysInv, RM.Inv, Inv, RM.AddEvent, RM.Waiting, RM.EpollCtl;
    var call := s.calls[c];
    SizeOk(s);
    AddsIff(s.rs, call.fd, call.ev, call.fiber);
    if R.Call(s.rs, AddEventOp(call)).1 == RM.Success { RegisteredWaits(s.rs, call.fd, call.ev, call.fiber); }
  }

  lemma AddsIff(rs: R.Sys, fd: nat, ev: RM.Event, f: nat)
    requires R.SysInv(rs) && R.Enabled(rs, R.AddOp(fd, ev, 0, RM.FiberWaiter(f)))
    ensures R.Call(rs, R.AddOp(fd, ev, 0, RM.FiberWaiter(f))).1 ==
      if fd < |rs.r.fds| && ev in rs.r.fds[fd].events then RM.Absent else RM.Success
  {
    hide RM.Inv;
    RP.GrowKeeps(rs.r, fd);
    R.GrowOnce(rs.r, fd, ev, 0, RM.FiberWaiter(f));
    var g := RM.Grow(rs.r, fd);
    if ev !in g.fds[fd].events { RP.AddRegisters(g, fd, ev, 0, RM.FiberWaiter(f)); }
  }

  // ---------------------------------------------------------------- a wait that ends

  /** The call's fiber may be resumed. */
  ghost predicate Woken(s: Sys, c: nat) {
    c < |s.calls| && s.calls[c].phase.Parked? && RM.TimesScheduled(s.rs.r.tasks, s.calls[c].phase.reg) > 0
  }

  lemma OwnTimerIsThere(s: Sys, c: nat)
    requires Inv(s) && c < |s.calls| && HoldsTimer(s.calls[c].phase) && s.calls[c].timer.Some?
    ensures T.Enabled(s.ts, T.CancelOp(s.calls[c].timer.value))
  {
    hide R.SysInv, TM.Ordered;
    assert OwnedTimer(s, s.calls[c].timer.value);
  }

  /** After a wait: a flagged call fails with ETIMEDOUT; otherwise `do_io` tries again and a connect asks for the
      socket's error. */
  lemma AfterTheWait(s: Sys, c: nat)
    requires Inv(s) && Woken(s, c)
    ensures var end := Run(s, [Wake(c), Disarm(c), Decide(c)]);
      && end.Some? && c < |end.value.calls|
      && end.value.calls[c].phase == (
        if s.calls[c].cancelled then Done(TimedOut) else if s.calls[c].kind == DoIo then Try else Settle)
  {
    hide Inv, Run, T.Apply, T.Enabled, RM.TimesScheduled;
    var s1 := Apply(s, Wake(c));
    StepKeepsInv(s, Wake(c));
    assert s1.calls[c] == s.calls[c].(phase := Resumed);
    if s1.calls[c].timer.Some? { OwnTimerIsThere(s1, c); }
    var s2 := Apply(s1, Disarm(c));
    assert s2.calls[c] == s.calls[c].(phase := Check);
    RunCons(s2, Decide(c), []);
    RunCons(s1, Disarm(c), [Decide(c)]);
    RunCons(s, Wake(c), [Disarm(c), Decide(c)]);
    RunNothing(Apply(s2, Decide(c)));
    assert [Decide(c)] + [] == [Decide(c)] && [Disarm(c)] + [Decide(c)] == [Disarm(c), Decide(c)];
    assert [Wake(c)] + [Disarm(c), Decide(c)] == [Wake(c), Disarm(c), Decide(c)];
  }

  lemma RunNothing(s: Sys)
    ensures Run(s, []) == Some(s)
  {}

  lemma CancelAllowed(s: Sys, c: nat)
    requires Inv(s) && c < |s.calls|
    ensures ReactorAllows(s, CancelOf(s, c))
  {
    hide RM.Inv;
    SizeOk(s);
    R.CallFailsIff(s.rs, CancelOf(s, c));
  }

  /** The callback of a waiting call whose timeout is to come flags it and lets its fiber be resumed. */
  lemma CallbackFlags(s: Sys, i: nat, c: nat)
    requires Inv(s) && Waits(s, c) && Coming(s, c) && i < |s.queue| && s.queue[i] == Some(TimeoutOf(c))
    ensures Enabled(s, RunCallback(i))
    ensures var s' := Apply(s, RunCallback(i)); Woken(s', c) && s'.calls[c].cancelled
  {
    hide Inv, T.Inv, R.SysInv, RM.Inv, RM.Waiting, RM.TimesScheduled, R.Call, R.Reports, ReactorAllows;
    CancelAllowed(s, c);
    CallbackWakesIff(s, i, c);
  }

  /** So the timeout is delivered: once the callback has run and the fiber is resumed, the call fails with ETIMEDOUT. */
  lemma TimeoutIsDelivered(s: Sys, i: nat, c: nat)
    requires Inv(s) && Waits(s, c) && Coming(s, c) && i < |s.queue| && s.queue[i] == Some(TimeoutOf(c))
    ensures var end := Run(s, [RunCallback(i), Wake(c), Disarm(c), Decide(c)]);
      end.Some? && c < |end.value.calls| && end.value.calls[c].phase == Done(TimedOut)
  {
    hide Inv, Run, Enabled, Apply, Coming, Waits, Woken;
    CallbackFlags(s, i, c);
    StepKeepsInv(s, RunCallback(i));
    AfterTheWait(Apply(s, RunCallback(i)), c);
    RunCons(s, RunCallback(i), [Wake(c), Disarm(c), Decide(c)]);
    assert [RunCallback(i)] + [Wake(c), Disarm(c), Decide(c)] == [RunCallback(i), Wake(c), Disarm(c), Decide(c)];
  }

  /** A flagged call that waits, or has been resumed, has no other end. */
  ghost predicate BoundToTimeOut(s: Sys, c: nat) {
    && c < |s.calls|
    && (s.calls[c].phase == Done(TimedOut)
        || (s.calls[c].cancelled && (s.calls[c].phase.Parked? || s.calls[c].phase in {Resumed, Check})))
  }

  lemma StaysBound(s: Sys, step: Step, c: nat)
    requires Enabled(s, step) && BoundToTimeOut(s, c)
    ensures BoundToTimeOut(Apply(s, step), c)
  {
    hide T.Apply, T.Enabled, R.Call, R.Reports, ReactorAllows, RM.Waiting;
  }

  lemma {:induction false} FlaggedOnlyTimesOut(s: Sys, steps: seq<Step>, c: nat)
    requires Run(s, steps).Some? && BoundToTimeOut(s, c)
    ensures BoundToTimeOut(Run(s, steps).value, c)
    decreases |steps|
  {
    hide Enabled, Apply, BoundToTimeOut;
    if steps != [] {
      StaysBound(s, steps[0], c);
      FlaggedOnlyTimesOut(Apply(s, steps[0]), steps[1..], c);
    }
  }

  // ---------------------------------------------------------------- from the beginning

  /** The waiting call goes on waiting while its timer expires. */
  lemma WaitsOn(s: Sys, s': Sys, c: nat)
    requires Waits(s, c) && s'.rs == s.rs && s'.calls == s.calls && s'.queue == [Some(TimeoutOf(c))]
    requires !s.calls[c].cancelled
    ensures Waits(s', c) && Coming(s', c)
  {
    assert Some(TimeoutOf(c)) in s'.queue;
  }

  /** From a fresh system, for every timeout: no data comes, and the call fails with ETIMEDOUT at its deadline. */
  lemma TimeoutFromFresh(s0: Sys, kind: Kind, fd: nat, ev: RM.Event, f: nat, ms: nat)
    requires Init(s0) && fd < RM.INITIAL_FDS
    ensures var late := s0.ts.clock + ms * 1_000_000;
      var end := Run(s0, [Begin(kind, fd, ev, f, Some(ms)), Attempted(0, WouldBlock), ArmTimer(0, s0.ts.clock)]
        + [Register(0), Timers(T.Tick(late)), Timers(T.ExpireOp(late))] +
          [RunCallback(0), Wake(0), Disarm(0), Decide(0)]);
      end.Some? && |end.value.calls| > 0 && end.value.calls[0].phase == Done(TimedOut)
  {
    hide Inv, Run, Apply, Enabled, T.Inv, R.SysInv, RM.Inv, Waits, Coming;
    var late := s0.ts.clock + TM.Delay(ms);
    var first := [Begin(kind, fd, ev, f, Some(ms)), Attempted(0, WouldBlock), ArmTimer(0, s0.ts.clock)];
    var mid := [Register(0), Timers(T.Tick(late)), Timers(T.ExpireOp(late))];
    var last := [RunCallback(0), Wake(0), Disarm(0), Decide(0)];
    var s3 := Prepare(s0, kind, fd, ev, f, ms, mid + last);
    RegistersAndWaits(s3, 0);
    var s4 := Apply(s3, Register(0));
    StepKeepsInv(s3, Register(0));
    TimersInv(s4);
    OnlyTimerExpires(s4, late);
    var s5 := Apply(s4, Timers(T.Tick(late)));
    var s6 := Apply(s5, Timers(T.ExpireOp(late)));
    WaitsOn(s4, s6, 0);
    TimeoutIsDelivered(s6, 0, 0);
    RunCons(s5, Timers(T.ExpireOp(late)), last);
    RunCons(s4, Timers(T.Tick(late)), [Timers(T.ExpireOp(late))] + last);
    RunCons(s3, Register(0), [Timers(T.Tick(late))] + ([Timers(T.ExpireOp(late))] + last));
    assert mid + last == [Register(0)] + ([Timers(T.Tick(late))] + ([Timers(T.ExpireOp(late))] + last));
    assert first + mid + last == first + (mid + last);
  }
}
