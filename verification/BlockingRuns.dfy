/** What holds of every run of blocking calls: what a finished call leaves, when it may report a timeout, and when it is
    stranded, waiting with its flag already set. */
module BlockingRuns {
  import opened Common
  import TM = TimerModel
  import TE = TimerExpiry
  import T = TimerRuns
  import TMap = TimerMap
  import RM = ReactorModel
  import R = ReactorRuns
  import RP = ReactorProofs
  import opened BlockingCall
  import opened BlockingProofs

  /** However a call ends, and after any number of rounds, none of its timers is in the timer set and none
      of its waits is registered. */
  lemma ExitLeavesNothing(s0: Sys, steps: seq<Step>, c: nat)
    requires Init(s0) && Run(s0, steps).Some? && c < |Run(s0, steps).value.calls|
    requires Run(s0, steps).value.calls[c].phase.Done?
    ensures var s := Run(s0, steps).value;
      && (forall t | t in s.owner && s.owner[t] == c :: t !in s.ts.tm.order)
      && (forall r | r in s.waiter && s.waiter[r] == c :: r < |s.rs.r.regs| && RM.Waiting(s.rs.r, r) == 0)
  {
    hide Run, Inv, RM.Waiting;
    InitInv(s0);
    RunKeepsInv(s0, steps);
    DoneHoldsNothing(Run(s0, steps).value, c);
  }

  lemma DoneHoldsNothing(s: Sys, c: nat)
    requires Inv(s) && c < |s.calls| && s.calls[c].phase.Done?
    ensures forall t | t in s.owner && s.owner[t] == c :: t !in s.ts.tm.order
    ensures forall r | r in s.waiter && s.waiter[r] == c :: r < |s.rs.r.regs| && RM.Waiting(s.rs.r, r) == 0
  {
    hide T.Inv, R.SysInv, RM.Waiting;
    forall t | t in s.owner && s.owner[t] == c ensures t !in s.ts.tm.order { assert OwnedTimer(s, t); }
    forall r | r in s.waiter && s.waiter[r] == c ensures r < |s.rs.r.regs| && RM.Waiting(s.rs.r, r) == 0 {
      assert OwnedWait(s, r);
    }
  }

  /** A call that is told it timed out had waited at least its timeout by then, even when the callback that
      told it was a stale one from an earlier round. */
  lemma TimesOutOnlyLate(s0: Sys, steps: seq<Step>, c: nat)
    requires Init(s0) && Run(s0, steps).Some? && c < |Run(s0, steps).value.calls|
    requires Run(s0, steps).value.calls[c].phase == Done(TimedOut) || Run(s0, steps).value.calls[c].cancelled
    ensures var (s, call) := (Run(s0, steps).value, Run(s0, steps).value.calls[c]);
      call.timeout.Some? && call.begin + TM.Delay(call.timeout.value) <= s.ts.clock
  {
    InitInv(s0);
    RunKeepsInv(s0, steps);
  }

  /** A finished call never changes again, and its timeout callback does nothing to the reactor. */
  lemma FinishedIsUntouched(s: Sys, step: Step, c: nat)
    requires Enabled(s, step) && c < |s.calls| && s.calls[c].phase.Done?
    ensures c < |Apply(s, step).calls| && Apply(s, step).calls[c] == s.calls[c]
    ensures step.RunCallback? && s.queue[step.i] == Some(TimeoutOf(c)) ==>
      Apply(s, step).rs == s.rs && Apply(s, step).calls == s.calls
  {
    hide T.Apply, R.Call, R.Reports, T.Enabled, R.Enabled;
  }

  lemma {:induction false} FinishedForGood(s: Sys, steps: seq<Step>, c: nat)
    requires Run(s, steps).Some? && c < |s.calls| && s.calls[c].phase.Done?
    ensures c < |Run(s, steps).value.calls| && Run(s, steps).value.calls[c] == s.calls[c]
    decreases |steps|
  {
    hide Apply, Enabled;
    if steps != [] {
      FinishedIsUntouched(s, steps[0], c);
      FinishedForGood(Apply(s, steps[0]), steps[1..], c);
    }
  }

  // ---------------------------------------------------------------- timeouts that can no longer act

  /** The call waits, still registered. */
  ghost predicate Waits(s: Sys, c: nat) {
    && c < |s.calls| && s.calls[c].phase.Parked? && s.calls[c].phase.reg < |s.rs.r.regs|
    && RM.Waiting(s.rs.r, s.calls[c].phase.reg) == 1
  }

  /** The call waits with its `cancelled` flag already set. */
  ghost predicate Stranded(s: Sys, c: nat) { Waits(s, c) && s.calls[c].cancelled }

  lemma RegisteredWaits(rs: R.Sys, fd: nat, ev: RM.Event, f: nat)
    requires R.SysInv(rs) && R.Enabled(rs, R.AddOp(fd, ev, 0, RM.FiberWaiter(f)))
    requires R.Call(rs, R.AddOp(fd, ev, 0, RM.FiberWaiter(f))).1 == RM.Success
    ensures var r' := R.Call(rs, R.AddOp(fd, ev, 0, RM.FiberWaiter(f))).0;
      |rs.r.regs| < |r'.regs| && RM.Waiting(r', |rs.r.regs|) == 1
  {
    hide RM.Inv;
    RP.GrowKeeps(rs.r, fd);
    R.GrowOnce(rs.r, fd, ev, 0, RM.FiberWaiter(f));
    var g := RM.Grow(rs.r, fd);
    assert ev !in g.fds[fd].events;
    RP.AddRegisters(g, fd, ev, 0, RM.FiberWaiter(f));
  }

  /** Cancelling the event of a waiting registration resolves it. */
  lemma CancelEndsWait(rs: R.Sys, r: nat)
    requires R.SysInv(rs) && r < |rs.r.regs| && RM.Waiting(rs.r, r) == 1
    ensures var r' := RM.CancelEvent(rs.r, rs.r.regs[r].fd, rs.r.regs[r].ev).0;
      r'.regs == rs.r.regs && RM.Waiting(r', r) == 0 && RM.TimesScheduled(r'.tasks, r) == 1
  {
    var reg := rs.r.regs[r];
    RP.CancelKeeps(rs.r, reg.fd, reg.ev);
    R.CancelledMask(rs.r, reg.fd, reg.ev);
    var r' := RM.CancelEvent(rs.r, reg.fd, reg.ev).0;
    assert RM.ResolvedOk(r') && RM.ResolvedOk(rs.r);
    assert r'.dropped == rs.r.dropped;
  }

  /** Running a call's timeout callback while it waits ends the wait if and only if the flag is not yet set. */
  lemma CallbackWakesIff(s: Sys, i: nat, c: nat)
    requires Inv(s) && Enabled(s, RunCallback(i)) && s.queue[i] == Some(TimeoutOf(c)) && Waits(s, c)
    ensures var (s', r) := (Apply(s, RunCallback(i)), s.calls[c].phase.reg);
      && r < |s'.rs.r.regs|
      && (RM.Waiting(s'.rs.r, r) == 0 && RM.TimesScheduled(s'.rs.r.tasks, r) == 1 <==> !s.calls[c].cancelled)
  {
    hide T.Inv, T.Enabled, RM.Inv, RM.TimesScheduled, RM.CancelEvent;
    var r := s.calls[c].phase.reg;
    assert OwnedWait(s, r);
    if s.calls[c].cancelled {
      assert Apply(s, RunCallback(i)).rs == s.rs;
    } else {
      CancelEndsWait(s.rs, r);
    }
  }

  /** A call becomes stranded by one step only: registering its wait when the flag is already set, that is,
      when its callback ran while it was not registered. */
  lemma StrandedIff(s: Sys, step: Step, c: nat)
    requires Inv(s) && Enabled(s, step) && c < |s.calls| && !Stranded(s, c)
    ensures Stranded(Apply(s, step), c) <==>
      step == Register(c) && s.calls[c].cancelled && R.Call(s.rs, AddEventOp(s.calls[c])).1 == RM.Success
  {
    hide Inv, Apply, Enabled, RM.Waiting;
    match step
    case Register(d) => if d == c { RegisterStrandsIff(s, c); } else { OthersStrandNot(s, step, c); }
    case Reactor(op) => OthersStrandNot(s, step, c);
    case RunCallback(i) => CallbackStrandsNot(s, i, c);
    case _ => PhaseStrandsNot(s, step, c);
  }

  lemma RegisterStrandsIff(s: Sys, c: nat)
    requires Inv(s) && Enabled(s, Register(c))
    ensures Stranded(Apply(s, Register(c)), c) <==>
      s.calls[c].cancelled && R.Call(s.rs, AddEventOp(s.calls[c])).1 == RM.Success
  {
    hide Inv, R.Call, R.SysInv, RM.Waiting, R.Reports;
    if R.Call(s.rs, AddEventOp(s.calls[c])).1 == RM.Success {
      InvParts(s);
      RegisteredWaits(s.rs, s.calls[c].fd, s.calls[c].ev, s.calls[c].fiber);
    }
  }

  lemma OthersStrandNot(s: Sys, step: Step, c: nat)
    requires Inv(s) && Enabled(s, step) && c < |s.calls| && !Stranded(s, c)
    requires step.Reactor? || (step.Register? && step.c != c)
    ensures !Stranded(Apply(s, step), c)
  {
    hide Inv, R.Call, R.Reports, R.Enabled, RM.Waiting;
    NoNewWait(s, Apply(s, step), if step.Reactor? then step.rop else AddEventOp(s.calls[step.c]), c);
  }

  lemma CallbackStrandsNot(s: Sys, i: nat, c: nat)
    requires Inv(s) && Enabled(s, RunCallback(i)) && c < |s.calls| && !Stranded(s, c)
    ensures !Stranded(Apply(s, RunCallback(i)), c)
  {
    hide Inv, R.Call, R.Reports, R.Enabled, RM.Waiting;
    if Acts(s, s.queue[i]) {
      var d := s.queue[i].value.call;
      if d != c { NoNewWait(s, Apply(s, RunCallback(i)), CancelOf(s, d), c); } else { CancelledDoesNotWait(s, i, c); }
    }
  }

  lemma PhaseStrandsNot(s: Sys, step: Step, c: nat)
    requires Enabled(s, step) && c < |s.calls| && !Stranded(s, c)
    requires !step.Register? && !step.Reactor? && !step.RunCallback?
    ensures !Stranded(Apply(s, step), c)
  {
    hide T.Apply, T.Enabled, RM.Waiting;
  }

  lemma InvParts(s: Sys)
    requires Inv(s)
    ensures R.SysInv(s.rs) && WaitsOk(s)
  {}

  /** No operation on the reactor makes another call wait. */
  lemma NoNewWait(s: Sys, s': Sys, op: R.Op, c: nat)
    requires Inv(s) && ReactorAllows(s, op) && s'.rs == ReactorAfter(s.rs, op)
    requires c < |s.calls| && c < |s'.calls| && s'.calls[c] == s.calls[c]
    ensures Waits(s', c) ==> Waits(s, c)
  {
    hide T.Inv, R.Call, R.SysInv, R.Enabled, R.Reports, RM.Waiting;
    R.HistoryGrows(s.rs, op);
    if s.calls[c].phase.Parked? { assert OwnedWait(s, s.calls[c].phase.reg); }
  }

  /** A timeout callback that acts leaves its call with no wait. */
  lemma CancelledDoesNotWait(s: Sys, i: nat, c: nat)
    requires Inv(s) && Enabled(s, RunCallback(i)) && c < |s.calls| && s.queue[i] == Some(TimeoutOf(c))
    requires Acts(s, s.queue[i])
    ensures !Waits(Apply(s, RunCallback(i)), c)
  {
    hide T.Inv, R.Call, R.SysInv, R.Enabled, R.Reports, RM.Waiting;
    if s.calls[c].phase.Parked? {
      var r := s.calls[c].phase.reg;
      assert OwnedWait(s, r);
      R.HistoryGrows(s.rs, CancelOf(s, c));
      if RM.Waiting(s.rs.r, r) == 1 { CancelOpEndsWait(s.rs, r); }
    }
  }

  lemma CancelOpEndsWait(rs: R.Sys, r: nat)
    requires R.SysInv(rs) && r < |rs.r.regs| && RM.Waiting(rs.r, r) == 1
    requires R.Enabled(rs, R.CancelOp(rs.r.regs[r].fd, rs.r.regs[r].ev))
    ensures var r' := R.Call(rs, R.CancelOp(rs.r.regs[r].fd, rs.r.regs[r].ev)).0;
      r < |r'.regs| && RM.Waiting(r', r) == 0
  {
    CancelEndsWait(rs, r);
  }

  // ---------------------------------------------------------------- otherwise the timeout is still to come

  /** A call with a timeout that waits, or is about to, and has not been cancelled, still has its timer alive
      or its callback queued. */
  ghost predicate StillArmed(s: Sys, c: nat) {
    c < |s.calls| && s.calls[c].timeout.Some? && !s.calls[c].cancelled && (s.calls[c].phase.Armed? || Waits(s, c)) ==>
      && s.calls[c].timer.Some? && s.calls[c].timer.value < |s.ts.tm.recs|
      && (s.ts.tm.recs[s.calls[c].timer.value].cb == Some(TimeoutOf(c)) || Some(TimeoutOf(c)) in s.queue)
  }

  /** An operation that takes the callback off another's one-shot timer has handed that callback out. */
  lemma ExpiredIsHanded(ts: T.Sys, op: T.Op, t: TM.TimerId)
    requires T.Inv(ts) && T.Enabled(ts, op) && t < |ts.tm.recs| && !ts.tm.recs[t].recurring && Spares(op, t)
    requires t < |T.Apply(ts, op).tm.recs| && T.Apply(ts, op).tm.recs[t].cb != ts.tm.recs[t].cb
    ensures var ts' := T.Apply(ts, op); exists i | |ts.fired| <= i < |ts'.fired| :: ts'.fired[i] == t
  {
    hide TM.Ordered, TM.EraseKey, TM.FindKey, TM.TakeOut, TM.Insert;
    match op
    case ExpireOp(now) => ExpiryHandsOut(ts, now, t);
    case AddOp(_, _, _, _) => AddAppends(ts, op);
    case ResetOp(u, ms, fromNow) => ResetEffect(ts, u, ms, fromNow, t);
    case _ =>
  }

  lemma ExpiryHandsOut(ts: T.Sys, now: int, t: TM.TimerId)
    requires T.Inv(ts) && T.Enabled(ts, T.ExpireOp(now)) && t < |ts.tm.recs|
    requires t < |T.Apply(ts, T.ExpireOp(now)).tm.recs|
    requires T.Apply(ts, T.ExpireOp(now)).tm.recs[t].cb != ts.tm.recs[t].cb
    ensures var ts' := T.Apply(ts, T.ExpireOp(now)); exists i | |ts.fired| <= i < |ts'.fired| :: ts'.fired[i] == t
  {
    hide T.Apply, TE.Stuck, TE.DuePart, TM.Ordered, T.Enabled, T.WakeUpInv, T.FiredInv;
    T.ExpireShape(ts, now);
    var due: seq<nat> := TE.DuePart(ts.tm, now, false);
    assert t in due;
    var k :| 0 <= k < |due| && due[k] == t;
    assert T.Apply(ts, T.ExpireOp(now)).fired[|ts.fired| + k] == t;
  }

  lemma TimersKeepArmed(s: Sys, op: T.Op, c: nat)
    requires Inv(s) && Enabled(s, Timers(op)) && c < |s.calls| && StillArmed(s, c)
    ensures StillArmed(Apply(s, Timers(op)), c)
  {
    hide T.Inv, T.Apply, T.Enabled, R.SysInv;
    var s' := Apply(s, Timers(op));
    if s.calls[c].timeout.Some? && !s.calls[c].cancelled && (s.calls[c].phase.Armed? || Waits(s, c)) {
      var t := s.calls[c].timer.value;
      assert OwnedTimer(s, t);
      TimerEffect(s.ts, op, t);
      if Some(TimeoutOf(c)) in s.queue {
        QueueKeeps(s.queue, s'.queue, Some(TimeoutOf(c)));
      } else if s'.ts.tm.recs[t].cb != s.ts.tm.recs[t].cb {
        ExpiredIsHanded(s.ts, op, t);
        HandedWereDue(s.ts, op);
        var i :| |s.ts.fired| <= i < |s'.ts.fired| && s'.ts.fired[i] == t;
        assert s'.queue[|s.queue| + (i - |s.ts.fired|)] == CallbackAt(s.ts.tm.recs, t);
      }
    }
  }

  lemma QueueKeeps(q: seq<Option<Callback>>, q': seq<Option<Callback>>, cb: Option<Callback>)
    requires q <= q' && cb in q
    ensures cb in q'
  {
    var i :| 0 <= i < |q| && q[i] == cb;
    assert q'[i] == cb;
  }

  /** A call cancelling its own timer does not touch another call's. */
  lemma CancelKeepsArmed(s: Sys, d: nat, c: nat)
    requires Inv(s) && c < |s.calls| && d < |s.calls| && c != d && StillArmed(s, c)
    requires HoldsTimer(s.calls[d].phase) && s.calls[d].timer.Some?
    requires T.Enabled(s.ts, T.CancelOp(s.calls[d].timer.value))
    ensures StillArmed(s.(ts := T.Apply(s.ts, T.CancelOp(s.calls[d].timer.value))), c)
  {
    hide T.Inv, T.Apply, T.Enabled, R.SysInv;
    CancelRemoves(s.ts, s.calls[d].timer.value);
  }

  /** What `StillArmed` of `c` depends on. */
  lemma ArmedFrame(s: Sys, s': Sys, c: nat)
    requires StillArmed(s, c) && c < |s.calls| && c < |s'.calls| && s'.calls[c] == s.calls[c]
    requires |s.ts.tm.recs| <= |s'.ts.tm.recs|
    requires forall t | 0 <= t < |s.ts.tm.recs| :: s'.ts.tm.recs[t].cb == s.ts.tm.recs[t].cb
    requires Some(TimeoutOf(c)) in s.queue ==> Some(TimeoutOf(c)) in s'.queue
    requires Waits(s', c) ==> Waits(s, c)
    ensures StillArmed(s', c)
  {}

  lemma StepKeepsArmed(s: Sys, step: Step, c: nat)
    requires Inv(s) && Enabled(s, step) && c < |s.calls| && StillArmed(s, c)
    ensures StillArmed(Apply(s, step), c)
  {
    hide Inv, Apply, Enabled, StillArmed;
    match step
    case Timers(op) => TimersKeepArmed(s, op, c);
    case Reactor(op) => ReactorStepKeepsArmed(s, step, c);
    case ArmTimer(d, start) => ArmingKeepsArmed(s, d, start, c);
    case Register(d) => if d == c { RegisterKeepsArmed(s, c); } else { ReactorStepKeepsArmed(s, step, c); }
    case Abandon(d) => DisarmKeepsArmed(s, step, d, c);
    case Disarm(d) => DisarmKeepsArmed(s, step, d, c);
    case RunCallback(i) => CallbackKeepsArmed(s, i, c);
    case _ => PhaseKeepsArmed(s, step, c);
  }

  /** Steps that move one call and touch neither timers nor reactor. */
  lemma PhaseKeepsArmed(s: Sys, step: Step, c: nat)
    requires Enabled(s, step) && c < |s.calls| && StillArmed(s, c)
    requires step.Begin? || step.Wake? || step.Attempted? || step.Decide? || step.Settled?
    ensures StillArmed(Apply(s, step), c)
  {
    hide RM.Waiting, StillArmed;
    var s' := Apply(s, step);
    if step.Begin? || step.c != c { ArmedFrame(s, s', c); } else { NotWaiting(s', c); }
  }

  lemma ReactorStepKeepsArmed(s: Sys, step: Step, c: nat)
    requires Inv(s) && Enabled(s, step) && c < |s.calls| && StillArmed(s, c)
    requires step.Reactor? || (step.Register? && step.c != c)
    ensures StillArmed(Apply(s, step), c)
  {
    hide Inv, R.Call, R.Reports, R.Enabled, RM.Waiting, StillArmed;
    ReactorKeepsArmed(s, Apply(s, step), if step.Reactor? then step.rop else AddEventOp(s.calls[step.c]), c);
  }

  lemma ArmingKeepsArmed(s: Sys, d: nat, start: int, c: nat)
    requires Inv(s) && Enabled(s, ArmTimer(d, start)) && c < |s.calls| && StillArmed(s, c)
    ensures StillArmed(Apply(s, ArmTimer(d, start)), c)
  {
    hide T.Inv, T.Apply, T.Enabled, R.SysInv, RM.Waiting, StillArmed, TimersOk, WaitsOk, LateOk;
    if d == c {
      FreshlyArmed(s, c, start);
    } else {
      if s.calls[d].timeout.Some? { AddAppends(s.ts, TimerOp(d, s.calls[d], start)); }
      ArmedFrame(s, Apply(s, ArmTimer(d, start)), c);
    }
  }

  lemma DisarmKeepsArmed(s: Sys, step: Step, d: nat, c: nat)
    requires Inv(s) && Enabled(s, step) && c < |s.calls| && StillArmed(s, c) && step in {Abandon(d), Disarm(d)}
    ensures StillArmed(Apply(s, step), c)
  {
    hide Inv, T.Apply, T.Enabled, RM.Waiting, StillArmed;
    if d == c { NotWaiting(Apply(s, step), c); } else { OthersDisarm(s, Apply(s, step), d, c); }
  }

  lemma NotWaiting(s: Sys, c: nat)
    requires c < |s.calls| && !s.calls[c].phase.Armed? && !s.calls[c].phase.Parked?
    ensures StillArmed(s, c)
  {}

  lemma FreshlyArmed(s: Sys, c: nat, start: int)
    requires Inv(s) && Enabled(s, ArmTimer(c, start))
    ensures StillArmed(Apply(s, ArmTimer(c, start)), c)
  {
    hide T.Inv, T.Apply, T.Enabled, R.SysInv;
    if s.calls[c].timeout.Some? { AddAppends(s.ts, TimerOp(c, s.calls[c], start)); }
  }

  lemma RegisterKeepsArmed(s: Sys, c: nat)
    requires Inv(s) && Enabled(s, Register(c)) && StillArmed(s, c)
    ensures StillArmed(Apply(s, Register(c)), c)
  {
    hide T.Inv, R.Call, R.SysInv;
  }

  lemma ReactorKeepsArmed(s: Sys, s': Sys, op: R.Op, c: nat)
    requires Inv(s) && c < |s.calls| && StillArmed(s, c) && ReactorAllows(s, op)
    requires s'.rs == ReactorAfter(s.rs, op) && s'.ts == s.ts && s'.queue == s.queue
    requires c < |s'.calls| && s'.calls[c] == s.calls[c]
    ensures StillArmed(s', c)
  {
    hide T.Inv, R.Call, R.SysInv, R.Reports, R.Enabled, RM.Waiting;
    R.HistoryGrows(s.rs, op);
    if s.calls[c].phase.Parked? { assert OwnedWait(s, s.calls[c].phase.reg); }
    ArmedFrame(s, s', c);
  }

  lemma OthersDisarm(s: Sys, s': Sys, d: nat, c: nat)
    requires Inv(s) && c < |s.calls| && d < |s.calls| && c != d && StillArmed(s, c)
    requires HoldsTimer(s.calls[d].phase)
    requires (s.calls[d].timer.Some? ==> T.Enabled(s.ts, T.CancelOp(s.calls[d].timer.value)))
    requires s'.ts == if s.calls[d].timer.Some? then T.Apply(s.ts, T.CancelOp(s.calls[d].timer.value)) else s.ts
    requires s'.rs == s.rs && s'.queue == s.queue && c < |s'.calls| && s'.calls[c] == s.calls[c]
    ensures StillArmed(s', c)
  {
    hide T.Inv, T.Apply, T.Enabled, R.SysInv;
    if s.calls[d].timer.Some? { CancelKeepsArmed(s, d, c); }
    var s1 := s.(ts := s'.ts);
    assert StillArmed(s1, c);
    ArmedFrame(s1, s', c);
  }

  lemma CallbackKeepsArmed(s: Sys, i: nat, c: nat)
    requires Inv(s) && Enabled(s, RunCallback(i)) && c < |s.calls| && StillArmed(s, c)
    ensures StillArmed(Apply(s, RunCallback(i)), c)
  {
    hide T.Inv, R.Call, R.SysInv, R.Reports, R.Enabled, RM.Waiting;
    var s' := Apply(s, RunCallback(i));
    var q := s.queue[..i] + s.queue[i + 1..];
    var mine := Some(TimeoutOf(c));
    if s.queue[i] == mine {
      assert s'.calls[c].cancelled || s'.calls[c].phase.Done?;
    } else {
      if mine in s.queue {
        var k :| 0 <= k < |s.queue| && s.queue[k] == mine;
        assert q[if k < i then k else k - 1] == mine;
      }
      if Acts(s, s.queue[i]) {
        R.HistoryGrows(s.rs, CancelOf(s, s.queue[i].value.call));
        if s.calls[c].phase.Parked? { assert OwnedWait(s, s.calls[c].phase.reg); }
      }
      ArmedFrame(s, s', c);
    }
  }

  lemma {:induction false} RunKeepsArmed(s: Sys, steps: seq<Step>)
    requires Inv(s) && Run(s, steps).Some? && forall c | 0 <= c < |s.calls| :: StillArmed(s, c)
    ensures forall c | 0 <= c < |Run(s, steps).value.calls| :: StillArmed(Run(s, steps).value, c)
    decreases |steps|
  {
    hide Inv, Enabled, StillArmed;
    if steps != [] {
      var s' := Apply(s, steps[0]);
      StepKeepsInv(s, steps[0]);
      forall c | 0 <= c < |s'.calls| ensures StillArmed(s', c) {
        if c < |s.calls| { StepKeepsArmed(s, steps[0], c); } else { OnlyBeginAdds(s, steps[0], c); NotWaiting(s', c); }
      }
      RunKeepsArmed(s', steps[1..]);
    }
  }

  lemma OnlyBeginAdds(s: Sys, step: Step, c: nat)
    requires Enabled(s, step) && |s.calls| <= c < |Apply(s, step).calls|
    ensures Apply(s, step).calls[c].phase == Try
  {
    hide T.Apply, R.Call, R.Reports;
  }

  /** In every run a waiting call with a timeout is either stranded or its timeout is still to come: its
      callback is queued, or its timer is live and, if the set is exact, in the set. */
  lemma WaitingMeansArmedOrStranded(s0: Sys, steps: seq<Step>, c: nat)
    requires Init(s0) && Run(s0, steps).Some? && Waits(Run(s0, steps).value, c)
    requires Run(s0, steps).value.calls[c].timeout.Some?
    ensures var (s, call) := (Run(s0, steps).value, Run(s0, steps).value.calls[c]);
      Stranded(s, c) ||
      Some(TimeoutOf(c)) in s.queue ||
      (call.timer.Some? && call.timer.value < |s.ts.tm.recs| && s.ts.tm.recs[call.timer.value].cb == Some(TimeoutOf(c))
       && (TMap.Exact(s.ts.tm) ==> call.timer.value in s.ts.tm.order))
  {
    InitInv(s0);
    RunKeepsArmed(s0, steps);
    assert StillArmed(Run(s0, steps).value, c);
  }

  // ---------------------------------------------------------------- a stranded call is reachable

  lemma RunCons(s: Sys, step: Step, steps: seq<Step>)
    requires Enabled(s, step)
    ensures Run(s, [step] + steps) == Run(Apply(s, step), steps)
  {
    hide Enabled, Apply;
    assert ([step] + steps)[1..] == steps;
  }

  /** Whenever the callback of an armed call runs before the call registers, the call is stranded. */
  lemma LateRegistrationStrands(s: Sys, i: nat, c: nat)
    requires Inv(s) && At(s, c, Armed) && !s.calls[c].cancelled && i < |s.queue| && s.queue[i] == Some(TimeoutOf(c))
    requires s.calls[c].fd < |s.rs.r.fds| && s.calls[c].ev !in s.rs.r.fds[s.calls[c].fd].events
    ensures var end := Run(s, [RunCallback(i), Register(c)]); end.Some? && Stranded(end.value, c)
  {
    hide T.Inv, R.SysInv, RM.Inv, Inv, RM.AddEvent, RM.Waiting, RM.EpollCtl;
    var call := s.calls[c];
    SizeOk(s);
    assert CancelOf(s, c) == R.CancelOp(call.fd, call.ev);
    assert R.Call(s.rs, CancelOf(s, c)) == (s.rs.r, RM.Absent);
    assert Enabled(s, RunCallback(i));
    var s1 := Apply(s, RunCallback(i));
    assert s1.rs == s.rs && s1.calls[c] == call.(cancelled := true);
    StepKeepsInv(s, RunCallback(i));
    RegistersNow(s1.rs, call.fd, call.ev, call.fiber);
    assert Enabled(s1, Register(c));
    RegisteredWaits(s1.rs, call.fd, call.ev, call.fiber);
    RunCons(s1, Register(c), []);
    RunCons(s, RunCallback(i), [Register(c)]);
    assert [Register(c)] + [] == [Register(c)] && [RunCallback(i)] + [Register(c)] == [RunCallback(i), Register(c)];
    assert Run(Apply(s1, Register(c)), []) == Some(Apply(s1, Register(c)));
  }

  lemma SizeOk(s: Sys)
    requires Inv(s)
    ensures 2 <= |s.rs.r.fds| && R.SysInv(s.rs)
  {}

  lemma RegistersNow(rs: R.Sys, fd: nat, ev: RM.Event, f: nat)
    requires R.SysInv(rs) && fd < |rs.r.fds| && ev !in rs.r.fds[fd].events
    ensures R.Enabled(rs, R.AddOp(fd, ev, 0, RM.FiberWaiter(f)))
    ensures R.Call(rs, R.AddOp(fd, ev, 0, RM.FiberWaiter(f))).1 == RM.Success
  {
    RP.AddRegisters(rs.r, fd, ev, 0, RM.FiberWaiter(f));
  }

  /** A one-shot timer alone in the set, due, is handed out whole. */
  lemma LoneTimerExpires(ts: T.Sys, now: int)
    requires T.Inv(ts) && |ts.tm.recs| == 1 && ts.tm.order == [0] && !ts.tm.recs[0].recurring
    requires ts.tm.recs[0].next <= now == ts.clock && ts.tm.previous <= ts.clock && ts.fired == []
    ensures T.Enabled(ts, T.ExpireOp(now)) && T.Apply(ts, T.ExpireOp(now)).fired == [0]
  {
    TE.SafePeriods(ts.tm, now, false);
    T.ExpireShape(ts, now);
    assert TE.DuePart(ts.tm, now, false) == [0];
  }

  /** Time passes until the only timer there is is due, and its callback is queued. */
  lemma OnlyTimerExpires(s: Sys, late: int)
    requires Inv(s) && s.queue == [] && s.ts.fired == [] && |s.ts.tm.recs| == 1 && s.ts.tm.order == [0]
    requires !s.ts.tm.recs[0].recurring && s.ts.tm.recs[0].next == late
    requires s.ts.clock <= late && s.ts.tm.previous <= s.ts.clock
    ensures Enabled(s, Timers(T.Tick(late)))
    ensures var s1 := Apply(s, Timers(T.Tick(late)));
      && Enabled(s1, Timers(T.ExpireOp(late)))
      && var s2 := Apply(s1, Timers(T.ExpireOp(late)));
      Inv(s2) && s2.rs == s.rs && s2.calls == s.calls && s2.queue == [s.ts.tm.recs[0].cb]
  {
    hide Inv, T.Inv, R.SysInv, RM.Inv;
    TimersInv(s);
    var s1 := Apply(s, Timers(T.Tick(late)));
    StepKeepsInv(s, Timers(T.Tick(late)));
    TimersInv(s1);
    LoneTimerExpires(s1.ts, late);
    StepKeepsInv(s1, Timers(T.ExpireOp(late)));
    assert Apply(s1, Timers(T.ExpireOp(late))).queue == [s.ts.tm.recs[0].cb];
  }

  /** The first three steps: the call begins, would block, and arms its timer. */
  lemma Prepare(s0: Sys, kind: Kind, fd: nat, ev: RM.Event, f: nat, ms: nat, steps: seq<Step>) returns (s3: Sys)
    requires Init(s0)
    ensures Inv(s3) && s3.rs == s0.rs && s3.queue == [] && s3.ts.fired == [] && s3.ts.clock == s0.ts.clock
    ensures s3.calls == [Call(kind, fd, ev, f, Some(ms), s0.ts.clock, Armed, false, Some(0))]
    ensures s3.ts.tm.recs == [TM.Record(false, ms, s0.ts.clock + TM.Delay(ms), Some(TimeoutOf(0)))]
    ensures s3.ts.tm.order == [0] && s3.ts.tm.previous == s0.ts.clock
    ensures Run(s0, [Begin(kind, fd, ev, f, Some(ms)), Attempted(0, WouldBlock), ArmTimer(0, s0.ts.clock)] + steps) ==
      Run(s3, steps)
  {
    hide Inv, Run;
    InitInv(s0);
    var begin, tried, arm := Begin(kind, fd, ev, f, Some(ms)), Attempted(0, WouldBlock), ArmTimer(0, s0.ts.clock);
    var s1 := Apply(s0, begin);
    StepKeepsInv(s0, begin);
    var s2 := Apply(s1, tried);
    StepKeepsInv(s1, tried);
    assert TM.Valid(s2.ts.tm);
    s3 := Apply(s2, arm);
    StepKeepsInv(s2, arm);
    RunCons(s2, arm, steps);
    RunCons(s1, tried, [arm] + steps);
    RunCons(s0, begin, [tried] + ([arm] + steps));
    assert [begin, tried, arm] + steps == [begin] + ([tried] + ([arm] + steps));
  }

  /** From a fresh system, with any timeout: the worker is descheduled between arming the timer and
      registering the event for longer than the timeout, and the call is left waiting with no timeout to come. */
  lemma StrandingIsReachable(s0: Sys, kind: Kind, fd: nat, ev: RM.Event, f: nat, ms: nat)
    requires Init(s0) && fd < RM.INITIAL_FDS
    ensures var late := s0.ts.clock + TM.Delay(ms);
      var end := Run(s0, [Begin(kind, fd, ev, f, Some(ms)), Attempted(0, WouldBlock), ArmTimer(0, s0.ts.clock),
        Timers(T.Tick(late)), Timers(T.ExpireOp(late)), RunCallback(0), Register(0)]);
      end.Some? && Stranded(end.value, 0)
  {
    var late := s0.ts.clock + TM.Delay(ms);
    hide Inv, Run, Apply, Enabled, T.Inv, R.SysInv, RM.Inv, Stranded;
    var tick, expire, last := Timers(T.Tick(late)), Timers(T.ExpireOp(late)), [RunCallback(0), Register(0)];
    var s3 := Prepare(s0, kind, fd, ev, f, ms, [tick] + ([expire] + last));
    OnlyTimerExpires(s3, late);
    var s4 := Apply(s3, tick);
    var s5 := Apply(s4, expire);
    LateRegistrationStrands(s5, 0, 0);
    RunCons(s4, expire, last);
    RunCons(s3, tick, [expire] + last);
    assert [Begin(kind, fd, ev, f, Some(ms)), Attempted(0, WouldBlock), ArmTimer(0, s0.ts.clock)] +
      ([tick] + ([expire] + last)) ==
      [Begin(kind, fd, ev, f, Some(ms)), Attempted(0, WouldBlock), ArmTimer(0, s0.ts.clock), tick, expire,
        RunCallback(0), Register(0)];
  }

  lemma TimersInv(s: Sys)
    requires Inv(s)
    ensures T.Inv(s.ts) && TM.Valid(s.ts.tm)
  {}
}
