/** What every step of the blocking-call machine keeps. */
module BlockingProofs {
  import opened Common
  import TM = TimerModel
  import TE = TimerExpiry
  import T = TimerRuns
  import RM = ReactorModel
  import R = ReactorRuns
  import opened BlockingCall

  // ---------------------------------------------------------------- what a timer operation does to others

  /** The operation is not one on timer `t` itself. */
  predicate Spares(op: T.Op, t: TM.TimerId) {
    match op
    case CancelOp(u) => u != t
    case RefreshOp(u) => u != t
    case ResetOp(u, _, _) => u != t
    case _ => true
  }

  /** An operation leaves another one-shot timer alone, or expires it; it never puts it back. */
  lemma TimerEffect(ts: T.Sys, op: T.Op, t: TM.TimerId)
    requires T.Inv(ts) && T.Enabled(ts, op) && t < |ts.tm.recs| && !ts.tm.recs[t].recurring && Spares(op, t)
    ensures var ts' := T.Apply(ts, op);
      && |ts.tm.recs| <= |ts'.tm.recs| && ts.clock <= ts'.clock
      && (ts'.tm.recs[t] == ts.tm.recs[t] || ts'.tm.recs[t] == ts.tm.recs[t].(cb := None))
      && (t in ts'.tm.order ==> t in ts.tm.order)
  {
    hide TM.Ordered, TM.EraseKey, TM.FindKey, TM.TakeOut, TM.Insert, TM.Enqueue;
    match op
    case ExpireOp(now) =>
      hide T.Apply, TE.Stuck, TE.DuePart;
      T.ExpireShape(ts, now);
    case AddOp(ms, cb, recurring, start) =>
      AddAppends(ts, op);
    case ResetOp(u, ms, fromNow) =>
      ResetEffect(ts, u, ms, fromNow, t);
    case _ =>
  }

  lemma AddAppends(ts: T.Sys, op: T.Op)
    requires T.Inv(ts) && T.Enabled(ts, op) && op.AddOp?
    ensures var ts' := T.Apply(ts, op);
      && ts'.tm.recs == ts.tm.recs + [TM.Record(op.recurring, op.ms, op.start + TM.Delay(op.ms), Some(op.cb))]
      && ts'.clock == ts.clock && ts'.fired == ts.fired
      && forall u | u in ts'.tm.order :: u in ts.tm.order || u == |ts.tm.recs|
  {
    hide TM.Ordered, TM.Insert;
    TM.Members(ts.tm.recs, ts.tm.order);
    var recs := ts.tm.recs + [TM.Record(op.recurring, op.ms, op.start + TM.Delay(op.ms), Some(op.cb))];
    TM.OrderedFrame(ts.tm.recs, recs, ts.tm.order);
  }

  lemma ResetEffect(ts: T.Sys, u: TM.TimerId, ms: nat, fromNow: bool, t: TM.TimerId)
    requires T.Inv(ts) && T.Enabled(ts, T.ResetOp(u, ms, fromNow)) && t < |ts.tm.recs| && t != u
    ensures var ts' := T.Apply(ts, T.ResetOp(u, ms, fromNow));
      && |ts.tm.recs| == |ts'.tm.recs| && ts'.tm.recs[t] == ts.tm.recs[t] && ts'.clock == ts.clock
         && ts'.fired == ts.fired
      && (t in ts'.tm.order ==> t in ts.tm.order)
  {
    hide TM.Ordered, TM.FindKey, TM.TakeOut, TM.Insert;
  }

  /** After `cancel` the timer is out of the set, whichever element the erase hit. */
  lemma CancelRemoves(ts: T.Sys, t: TM.TimerId)
    requires T.Inv(ts) && T.Enabled(ts, T.CancelOp(t))
    ensures var ts' := T.Apply(ts, T.CancelOp(t));
      && ts' == ts.(tm := ts'.tm) && |ts'.tm.recs| == |ts.tm.recs| && t !in ts'.tm.order
      && ts'.tm.recs[t] == ts.tm.recs[t].(cb := None)
      && forall u | 0 <= u < |ts.tm.recs| && u != t :: ts'.tm.recs[u] == ts.tm.recs[u]
  {
    hide TM.Ordered, TM.EraseKey;
  }

  /** Timers that appear, and callbacks that change, come from the operation itself. */
  lemma OnlyAddMakesCallbacks(ts: T.Sys, op: T.Op, t: TM.TimerId)
    requires T.Inv(ts) && T.Enabled(ts, op) && t < |T.Apply(ts, op).tm.recs| && T.Apply(ts, op).tm.recs[t].cb.Some?
    ensures var cb := T.Apply(ts, op).tm.recs[t].cb;
      (t < |ts.tm.recs| && ts.tm.recs[t].cb == cb) || (op.AddOp? && t == |ts.tm.recs| && cb == Some(op.cb))
  {
    hide TM.Ordered, TM.EraseKey, TM.FindKey, TM.TakeOut, TM.Insert;
    match op
    case ExpireOp(now) =>
      hide T.Apply, TE.Stuck, TE.DuePart;
      T.ExpireShape(ts, now);
    case AddOp(_, _, _, _) => AddAppends(ts, op);
    case _ =>
  }

  /** What an operation hands out was due and had its callback. */
  lemma HandedWereDue(ts: T.Sys, op: T.Op)
    requires T.Inv(ts) && T.Enabled(ts, op)
    ensures var ts' := T.Apply(ts, op);
      && |ts.fired| <= |ts'.fired|
      && forall i | |ts.fired| <= i < |ts'.fired| ::
           var t := ts'.fired[i]; t < |ts.tm.recs| && ts.tm.recs[t].next <= ts.clock && ts.clock == ts'.clock
  {
    hide TM.Ordered, TM.EraseKey, TM.FindKey, TM.TakeOut, TM.Insert;
    if op.ExpireOp? {
      hide T.Apply, TE.Stuck, TE.DuePart;
      T.ExpireShape(ts, op.now);
      var due: seq<nat> := TE.DuePart(ts.tm, op.now, false);
      forall i | |ts.fired| <= i < |T.Apply(ts, op).fired|
        ensures T.Apply(ts, op).fired[i] in due
      {
        assert T.Apply(ts, op).fired[i] == due[i - |ts.fired|];
      }
    }
  }

  // ---------------------------------------------------------------- steps that change one call only

  /** Moving call `c` between phases that wait for nothing keeps the invariant. */
  lemma PhaseKeeps(s: Sys, c: nat, phase: Phase)
    requires Inv(s) && c < |s.calls|
    requires !phase.Parked? && (HoldsTimer(phase) ==> HoldsTimer(s.calls[c].phase))
    requires s.calls[c].phase.Parked? ==> RM.Waiting(s.rs.r, s.calls[c].phase.reg) != 1
    requires HoldsTimer(s.calls[c].phase) && !HoldsTimer(phase) ==> s.calls[c].timer.Some? ==>
      s.calls[c].timer.value !in s.ts.tm.order
    requires phase == Done(TimedOut) ==> s.calls[c].cancelled
    ensures Inv(Put(s, c, s.calls[c].(phase := phase)))
  {
    hide T.Inv, R.SysInv;
    var s' := Put(s, c, s.calls[c].(phase := phase));
    forall t | t in s'.owner ensures OwnedTimer(s', t) { assert OwnedTimer(s, t); }
    forall r | r in s'.waiter ensures OwnedWait(s', r) { assert OwnedWait(s, r); }
    forall d | 0 <= d < |s'.calls| && (s'.calls[d].cancelled || s'.calls[d].phase == Done(TimedOut))
      ensures Late(s', d)
    {
      assert Late(s, d);
    }
    forall i | 0 <= i < |s'.queue| && s'.queue[i].Some? && s'.queue[i].value.TimeoutOf?
      ensures Late(s', s'.queue[i].value.call)
    {
      assert Late(s, s.queue[i].value.call);
    }
  }

  lemma BeginKeeps(s: Sys, step: Step)
    requires Inv(s) && step.Begin?
    ensures Inv(Apply(s, step))
  {
    hide T.Inv, R.SysInv;
    var s' := Apply(s, step);
    forall t | t in s'.owner ensures OwnedTimer(s', t) { assert OwnedTimer(s, t); }
    forall r | r in s'.waiter ensures OwnedWait(s', r) { assert OwnedWait(s, r); }
    forall d | 0 <= d < |s'.calls| && (s'.calls[d].cancelled || s'.calls[d].phase == Done(TimedOut))
      ensures Late(s', d)
    {
      assert Late(s, d);
    }
    forall i | 0 <= i < |s'.queue| && s'.queue[i].Some? && s'.queue[i].value.TimeoutOf?
      ensures Late(s', s'.queue[i].value.call)
    {
      assert Late(s, s.queue[i].value.call);
    }
  }

  // ---------------------------------------------------------------- timer steps

  /** Any foreign timer operation, the clock and expiry included. */
  lemma TimersKeep(s: Sys, op: T.Op)
    requires Inv(s) && Enabled(s, Timers(op))
    ensures Inv(Apply(s, Timers(op)))
  {
    hide T.Inv, R.SysInv, T.Apply, T.Enabled, TimersOk, WaitsOk, LateOk;
    T.StepKeepsInv(s.ts, op);
    ForeignTimersOk(s, op);
    assert WaitsOk(Apply(s, Timers(op))) by { WaitsFrame(s, Apply(s, Timers(op))); }
    TimersLateOk(s, op);
  }

  lemma WaitsFrame(s: Sys, s': Sys)
    requires WaitsOk(s) && s'.rs == s.rs && s'.waiter == s.waiter && s'.calls == s.calls
    ensures WaitsOk(s')
  {
    forall r | r in s'.waiter ensures OwnedWait(s', r) { assert OwnedWait(s, r); }
  }

  lemma TimersLateOk(s: Sys, op: T.Op)
    requires Inv(s) && Enabled(s, Timers(op))
    ensures LateOk(Apply(s, Timers(op)))
  {
    hide T.Inv, R.SysInv, T.Apply, T.Enabled, WaitsOk, HoldsTimer;
    var s' := Apply(s, Timers(op));
    HandedWereDue(s.ts, op);
    ClockAdvances(s.ts, op);
    forall d | 0 <= d < |s'.calls| && (s'.calls[d].cancelled || s'.calls[d].phase == Done(TimedOut))
      ensures Late(s', d)
    {
      assert Late(s, d);
    }
    forall i | 0 <= i < |s'.queue| && s'.queue[i].Some? && s'.queue[i].value.TimeoutOf?
      ensures Late(s', s'.queue[i].value.call)
    {
      if i < |s.queue| {
        assert Late(s, s.queue[i].value.call);
      } else {
        var t := s'.ts.fired[|s.ts.fired| + (i - |s.queue|)];
        assert s'.queue[i] == CallbackAt(s.ts.tm.recs, t);
        assert OwnedTimer(s, t);
      }
    }
  }

  lemma ClockAdvances(ts: T.Sys, op: T.Op)
    requires T.Enabled(ts, op)
    ensures ts.clock <= T.Apply(ts, op).clock
  {}

  lemma ForeignTimersOk(s: Sys, op: T.Op)
    requires Inv(s) && Enabled(s, Timers(op))
    ensures TimersOk(Apply(s, Timers(op)))
  {
    hide T.Inv, R.SysInv, T.Apply, T.Enabled;
    var s' := Apply(s, Timers(op));
    forall t | t in s'.owner ensures OwnedTimer(s', t) {
      assert OwnedTimer(s, t);
      TimerEffect(s.ts, op, t);
    }
    forall t | 0 <= t < |s'.ts.tm.recs| && s'.ts.tm.recs[t].cb.Some? && s'.ts.tm.recs[t].cb.value.TimeoutOf?
      ensures t in s'.owner
    {
      OnlyAddMakesCallbacks(s.ts, op, t);
    }
  }

  lemma ArmKeeps(s: Sys, c: nat, start: int)
    requires Inv(s) && Enabled(s, ArmTimer(c, start))
    ensures Inv(Apply(s, ArmTimer(c, start)))
  {
    hide T.Inv, R.SysInv, T.Apply, T.Enabled, TimersOk, LateOk, WaitsOk;
    var s', call := Apply(s, ArmTimer(c, start)), s.calls[c];
    if call.timeout.Some? {
      T.StepKeepsInv(s.ts, TimerOp(c, call, start));
      AddAppends(s.ts, TimerOp(c, call, start));
    }
    assert TimersOk(s') by { ArmTimersOk(s, c, start); }
    assert WaitsOk(s') by { ArmWaitsOk(s, s', c); }
    assert LateOk(s') by { LateFrame(s, s', c); }
  }

  lemma ArmWaitsOk(s: Sys, s': Sys, c: nat)
    requires WaitsOk(s) && c < |s.calls| && s.calls[c].phase == Arm && s'.rs == s.rs && s'.waiter == s.waiter
    requires exists timer :: s'.calls == s.calls[c := s.calls[c].(phase := Armed, timer := timer)]
    ensures WaitsOk(s')
  {
    forall r | r in s'.waiter ensures OwnedWait(s', r) { assert OwnedWait(s, r); }
  }

  lemma ArmTimersOk(s: Sys, c: nat, start: int)
    requires Inv(s) && Enabled(s, ArmTimer(c, start))
    ensures TimersOk(Apply(s, ArmTimer(c, start)))
  {
    hide T.Inv, R.SysInv, T.Apply, T.Enabled, LateOk, WaitsOk;
    var s', call := Apply(s, ArmTimer(c, start)), s.calls[c];
    forall t | t in s'.owner ensures OwnedTimer(s', t) {
      if t in s.owner { OldTimerKept(s, c, start, t); } else { NewTimerOwned(s, c, start); }
    }
    if call.timeout.Some? { AddAppends(s.ts, TimerOp(c, call, start)); }
  }

  lemma OldTimerKept(s: Sys, c: nat, start: int, t: TM.TimerId)
    requires Inv(s) && Enabled(s, ArmTimer(c, start)) && t in s.owner
    ensures t in Apply(s, ArmTimer(c, start)).owner && OwnedTimer(Apply(s, ArmTimer(c, start)), t)
  {
    hide T.Inv, R.SysInv, T.Apply, T.Enabled, LateOk, WaitsOk;
    assert OwnedTimer(s, t);
    if s.calls[c].timeout.Some? { TimerEffect(s.ts, TimerOp(c, s.calls[c], start), t); }
  }

  lemma NewTimerOwned(s: Sys, c: nat, start: int)
    requires Inv(s) && Enabled(s, ArmTimer(c, start)) && s.calls[c].timeout.Some?
    ensures var (s', t) := (Apply(s, ArmTimer(c, start)), |s.ts.tm.recs|); t in s'.owner && OwnedTimer(s', t)
  {
    hide T.Inv, R.SysInv, T.Apply, T.Enabled, LateOk, WaitsOk, TimersOk;
    AddAppends(s.ts, TimerOp(c, s.calls[c], start));
  }

  /** Late facts survive while the clock does not go back and call `c` keeps its flags. */
  lemma LateFrame(s: Sys, s': Sys, c: nat)
    requires LateOk(s) && c < |s.calls| == |s'.calls| && s.ts.clock <= s'.ts.clock && s'.queue == s.queue
    requires forall d | 0 <= d < |s.calls| && d != c :: s'.calls[d] == s.calls[d]
    requires s'.calls[c].begin == s.calls[c].begin && s'.calls[c].timeout == s.calls[c].timeout
    requires s'.calls[c].cancelled == s.calls[c].cancelled
    requires s'.calls[c].phase == Done(TimedOut) ==> s.calls[c].cancelled
    ensures LateOk(s')
  {
    forall d | 0 <= d < |s'.calls| && (s'.calls[d].cancelled || s'.calls[d].phase == Done(TimedOut))
      ensures Late(s', d)
    {
      assert Late(s, d);
    }
    forall i | 0 <= i < |s'.queue| && s'.queue[i].Some? && s'.queue[i].value.TimeoutOf?
      ensures Late(s', s'.queue[i].value.call)
    {
      assert Late(s, s.queue[i].value.call);
    }
  }

  /** A call cancelling its own timer. */
  lemma CancelOwnKeeps(s: Sys, c: nat)
    requires Inv(s) && c < |s.calls| && HoldsTimer(s.calls[c].phase) && s.calls[c].timer.Some?
    requires T.Enabled(s.ts, T.CancelOp(s.calls[c].timer.value))
    ensures var s1 := s.(ts := T.Apply(s.ts, T.CancelOp(s.calls[c].timer.value)));
      Inv(s1) && s.calls[c].timer.value !in s1.ts.tm.order
  {
    hide T.Inv, R.SysInv, T.Apply, T.Enabled;
    var t := s.calls[c].timer.value;
    var s1 := s.(ts := T.Apply(s.ts, T.CancelOp(t)));
    T.StepKeepsInv(s.ts, T.CancelOp(t));
    CancelRemoves(s.ts, t);
    forall u | u in s1.owner ensures OwnedTimer(s1, u) {
      assert OwnedTimer(s, u);
      if u != t { TimerEffect(s.ts, T.CancelOp(t), u); }
    }
    forall r | r in s1.waiter ensures OwnedWait(s1, r) { assert OwnedWait(s, r); }
    assert LateOk(s1) by { LateFrame(s, s1, c); }
  }

  // ---------------------------------------------------------------- reactor steps

  /** Any reactor operation that does not register for a call. */
  lemma ReactorKeeps(s: Sys, op: R.Op)
    requires Inv(s) && ReactorAllows(s, op)
    ensures Inv(s.(rs := ReactorAfter(s.rs, op)))
  {
    hide T.Inv, R.SysInv, R.Call, R.Reports, R.Enabled;
    var s' := s.(rs := ReactorAfter(s.rs, op));
    R.StepKeepsInv(s.rs, op);
    R.HistoryGrows(s.rs, op);
    forall t | t in s'.owner ensures OwnedTimer(s', t) { assert OwnedTimer(s, t); }
    forall r | r in s'.waiter ensures OwnedWait(s', r) { assert OwnedWait(s, r); }
    assert LateOk(s') by {
      forall d | 0 <= d < |s'.calls| && (s'.calls[d].cancelled || s'.calls[d].phase == Done(TimedOut))
        ensures Late(s', d)
      {
        assert Late(s, d);
      }
      forall i | 0 <= i < |s'.queue| && s'.queue[i].Some? && s'.queue[i].value.TimeoutOf?
        ensures Late(s', s'.queue[i].value.call)
      {
        assert Late(s, s.queue[i].value.call);
      }
    }
  }

  lemma RegisterKeeps(s: Sys, c: nat)
    requires Inv(s) && Enabled(s, Register(c))
    ensures Inv(Apply(s, Register(c)))
  {
    hide T.Inv, R.SysInv, R.Call, R.Reports, R.Enabled, TimersOk, WaitsOk, LateOk;
    var s', op := Apply(s, Register(c)), AddEventOp(s.calls[c]);
    var s1 := s.(rs := ReactorAfter(s.rs, op));
    ReactorKeeps(s, op);
    if R.Call(s.rs, op).1 == RM.Success {
      assert TimersOk(s') by { TimersFrame(s1, s', c); }
      assert WaitsOk(s') by { RegisterWaitsOk(s, c); }
      assert LateOk(s') by { LateFrame(s1, s', c); }
    } else {
      PhaseKeeps(s1, c, AddFailed);
    }
  }

  /** The timers stay owned while call `c` keeps its timer and goes on holding it. */
  lemma TimersFrame(s: Sys, s': Sys, c: nat)
    requires TimersOk(s) && s'.ts == s.ts && s'.owner == s.owner && c < |s.calls| == |s'.calls|
    requires forall d | 0 <= d < |s.calls| && d != c :: s'.calls[d] == s.calls[d]
    requires s'.calls[c] == s.calls[c].(phase := s'.calls[c].phase)
    requires HoldsTimer(s.calls[c].phase) && HoldsTimer(s'.calls[c].phase)
    ensures TimersOk(s')
  {
    forall t | t in s'.owner ensures OwnedTimer(s', t) { assert OwnedTimer(s, t); }
  }

  lemma RegisterWaitsOk(s: Sys, c: nat)
    requires Inv(s) && Enabled(s, Register(c)) && R.Call(s.rs, AddEventOp(s.calls[c])).1 == RM.Success
    ensures WaitsOk(Apply(s, Register(c)))
  {
    hide T.Inv, R.SysInv, R.Call, R.Reports, R.Enabled, TimersOk, LateOk, RM.Waiting;
    var s', call, op := Apply(s, Register(c)), s.calls[c], AddEventOp(s.calls[c]);
    R.HistoryGrows(s.rs, op);
    RegistersNext(s.rs, call.fd, call.ev, call.fiber);
    forall r | r in s'.waiter ensures OwnedWait(s', r) { if r != |s.rs.r.regs| { assert OwnedWait(s, r); } }
    forall d | 0 <= d < |s'.calls| && s'.calls[d].phase.Parked?
      ensures s'.calls[d].phase.reg in s'.waiter && s'.waiter[s'.calls[d].phase.reg] == d
    {
      if d != c { assert OwnedWait(s, s.calls[d].phase.reg); }
    }
  }

  lemma RegistersNext(rs: R.Sys, fd: nat, ev: RM.Event, f: nat)
    requires R.SysInv(rs) && R.Enabled(rs, R.AddOp(fd, ev, 0, RM.FiberWaiter(f)))
    ensures var (r', code) := R.Call(rs, R.AddOp(fd, ev, 0, RM.FiberWaiter(f)));
      code == RM.Success ==> r'.regs == rs.r.regs + [RM.Registration(fd, ev, 0, RM.FiberWaiter(f))]
  {}

  /** A trigger of the call's own wait, so that its fiber may run, has taken the wait off. */
  lemma ScheduledIsNotWaiting(s: RM.State, r: nat)
    requires RM.Inv(s) && r < |s.regs| && RM.TimesScheduled(s.tasks, r) > 0
    ensures RM.Waiting(s, r) == 0
  {}

  lemma RunCallbackKeeps(s: Sys, i: nat)
    requires Inv(s) && Enabled(s, RunCallback(i))
    ensures Inv(Apply(s, RunCallback(i)))
  {
    hide T.Inv, R.SysInv, R.Call, R.Reports, R.Enabled;
    var s1 := s.(queue := s.queue[..i] + s.queue[i + 1..]);
    assert Inv(s1) by { DropFromQueue(s, i); }
    if Acts(s, s.queue[i]) {
      var c := s.queue[i].value.call;
      assert Late(s, c);
      var s2 := Put(s1, c, s.calls[c].(cancelled := true));
      assert Inv(s2) by { FlagKeeps(s1, c); }
      ReactorKeeps(s2, CancelOf(s, c));
    }
  }

  lemma DropFromQueue(s: Sys, i: nat)
    requires Inv(s) && i < |s.queue|
    ensures Inv(s.(queue := s.queue[..i] + s.queue[i + 1..]))
  {
    hide T.Inv, R.SysInv;
    var s' := s.(queue := s.queue[..i] + s.queue[i + 1..]);
    forall t | t in s'.owner ensures OwnedTimer(s', t) { assert OwnedTimer(s, t); }
    forall r | r in s'.waiter ensures OwnedWait(s', r) { assert OwnedWait(s, r); }
    forall d | 0 <= d < |s'.calls| && (s'.calls[d].cancelled || s'.calls[d].phase == Done(TimedOut))
      ensures Late(s', d)
    {
      assert Late(s, d);
    }
    forall j | 0 <= j < |s'.queue| && s'.queue[j].Some? && s'.queue[j].value.TimeoutOf?
      ensures Late(s', s'.queue[j].value.call)
    {
      var k := if j < i then j else j + 1;
      assert s'.queue[j] == s.queue[k];
      assert Late(s, s.queue[k].value.call);
    }
  }

  lemma FlagKeeps(s: Sys, c: nat)
    requires Inv(s) && Late(s, c)
    ensures Inv(Put(s, c, s.calls[c].(cancelled := true)))
  {
    hide T.Inv, R.SysInv;
    var s' := Put(s, c, s.calls[c].(cancelled := true));
    forall t | t in s'.owner ensures OwnedTimer(s', t) { assert OwnedTimer(s, t); }
    forall r | r in s'.waiter ensures OwnedWait(s', r) { assert OwnedWait(s, r); }
    forall d | 0 <= d < |s'.calls| && (s'.calls[d].cancelled || s'.calls[d].phase == Done(TimedOut))
      ensures Late(s', d)
    {
      assert d != c ==> Late(s, d);
    }
    forall j | 0 <= j < |s'.queue| && s'.queue[j].Some? && s'.queue[j].value.TimeoutOf?
      ensures Late(s', s'.queue[j].value.call)
    {
      assert Late(s, s.queue[j].value.call);
    }
  }

  // ---------------------------------------------------------------- every step

  lemma OwnStepKeeps(s: Sys, step: Step)
    requires Inv(s) && Enabled(s, step)
    requires step.Abandon? || step.Disarm? || step.Wake? || step.Attempted? || step.Decide? || step.Settled?
    ensures Inv(Apply(s, step))
  {
    hide Inv, T.Apply, T.Enabled;
    match step
    case Abandon(c) =>
      if s.calls[c].timer.Some? {
        CancelOwnKeeps(s, c);
        PhaseKeeps(s.(ts := T.Apply(s.ts, T.CancelOp(s.calls[c].timer.value))), c,
          if s.calls[c].kind == DoIo then Done(Error) else Settle);
      } else {
        PhaseKeeps(s, c, if s.calls[c].kind == DoIo then Done(Error) else Settle);
      }
    case Disarm(c) =>
      if s.calls[c].timer.Some? {
        CancelOwnKeeps(s, c);
        PhaseKeeps(s.(ts := T.Apply(s.ts, T.CancelOp(s.calls[c].timer.value))), c, Check);
      } else {
        PhaseKeeps(s, c, Check);
      }
    case Wake(c) =>
      WokenIsNotWaiting(s, c);
      PhaseKeeps(s, c, Resumed);
    case Attempted(c, outcome) => PhaseKeeps(s, c, AfterAttempt(s.calls[c].kind, outcome));
    case Decide(c) =>
      PhaseKeeps(s, c,
        if s.calls[c].cancelled then Done(TimedOut) else if s.calls[c].kind == DoIo then Try else Settle);
    case Settled(c, error) => PhaseKeeps(s, c, Done(if error then Error else Returned(0)));
  }

  lemma WokenIsNotWaiting(s: Sys, c: nat)
    requires Inv(s) && Enabled(s, Wake(c))
    ensures s.calls[c].phase.reg < |s.rs.r.regs| && RM.Waiting(s.rs.r, s.calls[c].phase.reg) == 0
  {
    assert OwnedWait(s, s.calls[c].phase.reg);
    ScheduledIsNotWaiting(s.rs.r, s.calls[c].phase.reg);
  }

  lemma StepKeepsInv(s: Sys, step: Step)
    requires Inv(s) && Enabled(s, step)
    ensures Inv(Apply(s, step))
  {
    hide Inv, T.Apply, T.Enabled;
    match step
    case Begin(_, _, _, _, _) => BeginKeeps(s, step);
    case ArmTimer(c, start) => ArmKeeps(s, c, start);
    case Register(c) => RegisterKeeps(s, c);
    case RunCallback(i) => RunCallbackKeeps(s, i);
    case Timers(op) => TimersKeep(s, op);
    case Reactor(op) => ReactorKeeps(s, op);
    case _ => OwnStepKeeps(s, step);
  }

  lemma InitInv(s: Sys)
    requires Init(s)
    ensures Inv(s)
  {
    R.InitInv();
  }

  lemma {:induction false} RunKeepsInv(s: Sys, steps: seq<Step>)
    requires Inv(s) && Run(s, steps).Some?
    ensures Inv(Run(s, steps).value)
    decreases |steps|
  {
    hide Inv, Apply, Enabled;
    if steps != [] {
      StepKeepsInv(s, steps[0]);
      RunKeepsInv(Apply(s, steps[0]), steps[1..]);
    }
  }
}
