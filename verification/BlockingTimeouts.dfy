/** When a blocking call's timeout is still to come, step by step: what loses it, what cannot, and that without
    colliding deadlines late registration is the only way. */
module BlockingTimeouts {
  import opened Common
  import TM = TimerModel
  import TE = TimerExpiry
  import T = TimerRuns
  import TMap = TimerMap
  import RM = ReactorModel
  import R = ReactorRuns
  import opened BlockingCall
  import opened BlockingProofs
  import opened BlockingRuns

  /** The call has a timeout and waits, or has armed its timer and is about to. */
  ghost predicate Awaits(s: Sys, c: nat) {
    c < |s.calls| && s.calls[c].timeout.Some? && (s.calls[c].phase.Armed? || Waits(s, c))
  }

  /** The call's callback is queued, or its timer is in the set, and the callback will act when it runs. */
  ghost predicate Coming(s: Sys, c: nat) {
    c < |s.calls| && !s.calls[c].cancelled &&
    (Some(TimeoutOf(c)) in s.queue || (s.calls[c].timer.Some? && s.calls[c].timer.value in s.ts.tm.order))
  }

  // ---------------------------------------------------------------- what takes a timer out of the set

  /** The operation erases a deadline for the sake of `u`. */
  predicate ErasesFor(tm: TM.State, op: T.Op, u: TM.TimerId) {
    u < |tm.recs| && tm.recs[u].cb.Some? &&
    match op
    case CancelOp(v) => v == u
    case RefreshOp(v) => v == u
    case ResetOp(v, ms, fromNow) => v == u && !(ms == tm.recs[u].ms && !fromNow)
    case _ => false
  }

  /** It erases the deadline of `t` for the sake of another timer. */
  predicate Hits(tm: TM.State, op: T.Op, t: TM.TimerId) {
    t < |tm.recs| &&
    match op
    case CancelOp(u) => u != t && ErasesFor(tm, op, u) && tm.recs[u].next == tm.recs[t].next
    case RefreshOp(u) => u != t && ErasesFor(tm, op, u) && tm.recs[u].next == tm.recs[t].next
    case ResetOp(u, _, _) => u != t && ErasesFor(tm, op, u) && tm.recs[u].next == tm.recs[t].next
    case _ => false
  }

  /** A one-shot member leaves the set by expiry, or because the erase of another timer's deadline hits it. */
  lemma LeavesIff(ts: T.Sys, op: T.Op, t: TM.TimerId)
    requires T.Inv(ts) && T.Enabled(ts, op) && t < |ts.tm.recs| && !ts.tm.recs[t].recurring && Spares(op, t)
    requires t in ts.tm.order
    ensures t !in T.Apply(ts, op).tm.order <==> Hits(ts.tm, op, t) || (op.ExpireOp? && ts.tm.recs[t].next <= op.now)
  {
    hide TM.Ordered, TM.EraseKey, TM.FindKey, TM.TakeOut, TM.Insert;
    match op
    case ExpireOp(now) =>
      hide T.Apply, TE.Stuck, TE.DuePart;
      T.ExpireShape(ts, now);
      TMap.DueIs(ts.tm, now);
      TMap.ExpiryKeepsPositivePeriods(ts, now);
    case AddOp(_, _, _, _) =>
      hide T.Apply;
      TMap.AddAppends(ts, op);
    case RefreshOp(u) => FindsTaken(ts.tm, u, t);
    case ResetOp(u, _, _) => FindsTaken(ts.tm, u, t);
    case _ =>
  }

  lemma FindsTaken(tm: TM.State, u: TM.TimerId, t: TM.TimerId)
    requires TM.Valid(tm) && u < |tm.recs| && t < |tm.recs| && t in tm.order
    ensures tm.recs[u].next == tm.recs[t].next ==> TM.FindKey(tm.recs, tm.order, tm.recs[u].next).Some?
  {
    hide TM.Ordered, TM.FindKey;
  }

  // ---------------------------------------------------------------- one step

  /** What a step does to the timer manager. */
  ghost function TimerOpOf(s: Sys, step: Step): Option<T.Op>
    requires Enabled(s, step)
  {
    match step
    case ArmTimer(c, start) =>
      if s.calls[c].timeout.Some? then Some(TimerOp(c, s.calls[c], start)) else None
    case Abandon(c) => if s.calls[c].timer.Some? then Some(T.CancelOp(s.calls[c].timer.value)) else None
    case Disarm(c) => if s.calls[c].timer.Some? then Some(T.CancelOp(s.calls[c].timer.value)) else None
    case Timers(op) => Some(op)
    case _ => None
  }

  lemma TimerStep(s: Sys, step: Step)
    requires Enabled(s, step)
    ensures var op := TimerOpOf(s, step);
      && (op.Some? ==> T.Enabled(s.ts, op.value))
      && Apply(s, step).ts == if op.Some? then T.Apply(s.ts, op.value) else s.ts
  {
    hide T.Apply, T.Enabled, R.Call, R.Reports, ReactorAllows;
  }

  /** The ways in which a call that awaits loses its timeout: its callback runs before it has registered, or, with no
      callback queued, another timer of the same deadline is cancelled, refreshed or reset. */
  ghost predicate Loses(s: Sys, step: Step, c: nat)
    requires Enabled(s, step) && c < |s.calls|
  {
    || (step.RunCallback? && s.queue[step.i] == Some(TimeoutOf(c)))
    || (&& Some(TimeoutOf(c)) !in s.queue && TimerOpOf(s, step).Some? && s.calls[c].timer.Some?
        && Hits(s.ts.tm, TimerOpOf(s, step).value, s.calls[c].timer.value))
  }

  /** What a step leaves of a call that awaits before and after. */
  ghost predicate AwaitsOn(s: Sys, step: Step, c: nat)
    requires Enabled(s, step)
  {
    Awaits(s, c) && Awaits(Apply(s, step), c)
  }

  lemma OwnsItsTimer(s: Sys, c: nat)
    requires Inv(s) && Awaits(s, c) && s.calls[c].timer.Some?
    ensures var t := s.calls[c].timer.value;
      && t < |s.ts.tm.recs| && t in s.owner && s.owner[t] == c && !s.ts.tm.recs[t].recurring
      && (s.ts.tm.recs[t].cb.Some? ==> s.ts.tm.recs[t].cb == Some(TimeoutOf(c)))
      && (t in s.ts.tm.order ==> s.ts.tm.recs[t].cb == Some(TimeoutOf(c)))
  {
    hide R.SysInv, TM.Ordered;
    assert OwnedTimer(s, s.calls[c].timer.value);
  }

  /** While a call awaits, its frame does not change except for the flag and the registration. */
  lemma FrameStays(s: Sys, step: Step, c: nat)
    requires Enabled(s, step) && AwaitsOn(s, step, c)
    ensures var (call, call') := (s.calls[c], Apply(s, step).calls[c]);
      call'.timer == call.timer && (call'.cancelled == call.cancelled || step.RunCallback?)
  {
    hide T.Apply, T.Enabled, R.Call, R.Reports, ReactorAllows, RM.Waiting;
  }

  /** No step takes the timer of a call that awaits for its own: it belongs to the call. */
  lemma SparesIt(s: Sys, step: Step, c: nat)
    requires Inv(s) && Enabled(s, step) && AwaitsOn(s, step, c) && s.calls[c].timer.Some? && TimerOpOf(s, step).Some?
    ensures Spares(TimerOpOf(s, step).value, s.calls[c].timer.value)
  {
    hide T.Inv, R.SysInv, T.Apply, T.Enabled, LateOk, WaitsOk, RM.Waiting;
    OwnsItsTimer(s, c);
  }

  /** A foreign operation queues the callback of a call that awaits only by expiring the call's timer. */
  lemma ExpiryQueues(s: Sys, op: T.Op, c: nat)
    requires Inv(s) && Enabled(s, Timers(op)) && Awaits(s, c)
    ensures Some(TimeoutOf(c)) in Apply(s, Timers(op)).queue <==>
      Some(TimeoutOf(c)) in s.queue ||
      (&& op.ExpireOp? && s.calls[c].timer.Some? && s.calls[c].timer.value < |s.ts.tm.recs|
       && s.calls[c].timer.value in s.ts.tm.order && s.ts.tm.recs[s.calls[c].timer.value].next <= op.now)
  {
    hide R.SysInv, T.Enabled, LateOk, WaitsOk, RM.Waiting, TM.Ordered, TM.EraseKey, TM.FindKey, TM.TakeOut, TM.Insert;
    var mine := Some(TimeoutOf(c));
    if op.ExpireOp? {
      hide T.Apply, TE.Stuck, TE.DuePart;
      T.ExpireShape(s.ts, op.now);
      TMap.DueIs(s.ts.tm, op.now);
      var due: seq<nat> := TE.DuePart(s.ts.tm, op.now, false);
      var s' := Apply(s, Timers(op));
      assert s'.ts.fired[|s.ts.fired|..] == due;
      assert s'.queue == s.queue + Callbacks(s.ts.tm.recs, due);
      HandedIsOwn(s, due, c);
    } else {
      NothingHanded(s, op);
    }
  }

  lemma NothingHanded(s: Sys, op: T.Op)
    requires Enabled(s, Timers(op)) && !op.ExpireOp?
    ensures Apply(s, Timers(op)).queue == s.queue
  {
    hide TM.Ordered, TM.EraseKey, TM.FindKey, TM.TakeOut, TM.Insert, TM.Enqueue;
    assert T.Apply(s.ts, op).fired == s.ts.fired;
    assert s.ts.fired[|s.ts.fired|..] == [];
  }

  /** Among the callbacks of due members, the call's is that of its present timer. */
  lemma HandedIsOwn(s: Sys, due: seq<nat>, c: nat)
    requires Inv(s) && Awaits(s, c) && forall t | t in due :: t in s.ts.tm.order && t < |s.ts.tm.recs|
    ensures Some(TimeoutOf(c)) in Callbacks(s.ts.tm.recs, due) <==>
      s.calls[c].timer.Some? && s.calls[c].timer.value in due
  {
    hide R.SysInv, LateOk, WaitsOk, RM.Waiting, TM.Ordered;
    var cbs := Callbacks(s.ts.tm.recs, due);
    if Some(TimeoutOf(c)) in cbs {
      var i :| 0 <= i < |cbs| && cbs[i] == Some(TimeoutOf(c));
      assert due[i] in due;
      assert OwnedTimer(s, due[i]);
    }
    if s.calls[c].timer.Some? && s.calls[c].timer.value in due {
      OwnsItsTimer(s, c);
      var i :| 0 <= i < |due| && due[i] == s.calls[c].timer.value;
      assert cbs[i] == Some(TimeoutOf(c));
    }
  }

  /** Steps that leave the timers alone leave the queue alone, but for running a callback. */
  lemma QueueStays(s: Sys, step: Step)
    requires Enabled(s, step) && !step.Timers?
    ensures Apply(s, step).queue == if step.RunCallback? then s.queue[..step.i] + s.queue[step.i + 1..] else s.queue
  {
    hide T.Apply, T.Enabled, R.Call, R.Reports, ReactorAllows;
  }

  /** Exactly what a step does to the timeout of a call that awaits before and after it. */
  lemma ComingStep(s: Sys, step: Step, c: nat)
    requires Inv(s) && Enabled(s, step) && AwaitsOn(s, step, c)
    ensures Coming(Apply(s, step), c) <==> Coming(s, c) && !Loses(s, step, c)
  {
    hide Inv, Apply, T.Apply, T.Enabled, ReactorAllows, RM.Waiting;
    TimerStep(s, step);
    FrameStays(s, step, c);
    if step.RunCallback? {
      CallbackComing(s, step.i, c);
    } else {
      if step.Timers? { ExpiryQueues(s, step.top, c); } else { QueueStays(s, step); }
      if s.calls[c].timer.Some? { SetMembership(s, step, c); }
    }
  }

  lemma SetMembership(s: Sys, step: Step, c: nat)
    requires Inv(s) && Enabled(s, step) && AwaitsOn(s, step, c) && s.calls[c].timer.Some?
    ensures var (t, op) := (s.calls[c].timer.value, TimerOpOf(s, step));
      && t < |s.ts.tm.recs|
      && (t in Apply(s, step).ts.tm.order <==>
            && t in s.ts.tm.order
            && !(op.Some? && (Hits(s.ts.tm, op.value, t)
               || (op.value.ExpireOp? && s.ts.tm.recs[t].next <= op.value.now))))
  {
    hide T.Inv, R.SysInv, TimersOk, LateOk, WaitsOk, Apply, T.Apply, T.Enabled, ReactorAllows, RM.Waiting, Hits,
      Enabled;
    var t, op := s.calls[c].timer.value, TimerOpOf(s, step);
    TimerStep(s, step);
    OwnsItsTimer(s, c);
    if op.Some? {
      SparesIt(s, step, c);
      TimerEffect(s.ts, op.value, t);
      if t in s.ts.tm.order { LeavesIff(s.ts, op.value, t); }
    }
  }

  lemma CallbackComing(s: Sys, i: nat, c: nat)
    requires Inv(s) && Enabled(s, RunCallback(i)) && AwaitsOn(s, RunCallback(i), c)
    ensures Coming(Apply(s, RunCallback(i)), c) <==> Coming(s, c) && s.queue[i] != Some(TimeoutOf(c))
  {
    hide Inv, T.Apply, T.Enabled, R.Call, R.Reports, ReactorAllows, RM.Waiting;
    var s', mine := Apply(s, RunCallback(i)), Some(TimeoutOf(c));
    if s.queue[i] != mine {
      if mine in s.queue {
        var k :| 0 <= k < |s.queue| && s.queue[k] == mine;
        assert s'.queue[if k < i then k else k - 1] == mine;
      }
    }
  }

  /** Arming brings a timeout on its way exactly when the new deadline is free, or an earlier round's callback is still
      queued, and no callback has acted yet. */
  lemma ComingAfterArm(s: Sys, c: nat, start: int)
    requires Inv(s) && Enabled(s, ArmTimer(c, start)) && s.calls[c].timeout.Some?
    ensures var deadline := start + TM.Delay(s.calls[c].timeout.value);
      Coming(Apply(s, ArmTimer(c, start)), c) <==>
        && !s.calls[c].cancelled
        && (Some(TimeoutOf(c)) in s.queue || !TM.Taken(s.ts.tm.recs, s.ts.tm.order, deadline))
  {
    hide R.SysInv, TimersOk, LateOk, WaitsOk, T.Enabled, TM.Ordered, TM.Insert;
    var op := TimerOp(c, s.calls[c], start);
    TM.Members(s.ts.tm.recs, s.ts.tm.order);
    TMap.AddAppends(s.ts, op);
    SameTaken(s.ts.tm.recs, T.Apply(s.ts, op).tm.recs, s.ts.tm.order, start + TM.Delay(s.calls[c].timeout.value));
    hide T.Apply;
  }

  lemma SameTaken(recs: seq<TM.Record>, recs': seq<TM.Record>, order: seq<TM.TimerId>, key: int)
    requires recs <= recs' && forall u | u in order :: u < |recs|
    ensures TM.Taken(recs, order, key) <==> TM.Taken(recs', order, key)
  {
    if TM.Taken(recs, order, key) {
      var u :| u in order && u < |recs| && recs[u].next == key;
      assert recs'[u].next == key;
    }
    if TM.Taken(recs', order, key) {
      var u :| u in order && u < |recs'| && recs'[u].next == key;
      assert recs[u].next == key;
    }
  }

  /** A callback that runs while its call waits ends the wait exactly when the timeout was on its way. */
  lemma OnlyComingWakes(s: Sys, i: nat, c: nat)
    requires Inv(s) && Enabled(s, RunCallback(i)) && s.queue[i] == Some(TimeoutOf(c)) && Waits(s, c)
    ensures var (s', r) := (Apply(s, RunCallback(i)), s.calls[c].phase.reg);
      r < |s'.rs.r.regs| && (RM.Waiting(s'.rs.r, r) == 0 <==> Coming(s, c))
  {
    hide T.Inv, R.SysInv, Apply, RM.Waiting;
    CallbackWakesIff(s, i, c);
    if s.calls[c].cancelled { FlaggedIsIgnored(s, i, c); }
  }

  lemma FlaggedIsIgnored(s: Sys, i: nat, c: nat)
    requires Enabled(s, RunCallback(i)) && s.queue[i] == Some(TimeoutOf(c)) && c < |s.calls| && s.calls[c].cancelled
    ensures Apply(s, RunCallback(i)).rs == s.rs
  {}

  // ---------------------------------------------------------------- whole runs

  /** The call awaits at every point of the run. */
  ghost predicate AwaitsThroughout(s: Sys, steps: seq<Step>, c: nat)
    decreases |steps|
  {
    Awaits(s, c) && (steps == [] || (Enabled(s, steps[0]) && AwaitsThroughout(Apply(s, steps[0]), steps[1..], c)))
  }

  /** Some step of the run loses its timeout. */
  ghost predicate LosesAlong(s: Sys, steps: seq<Step>, c: nat)
    requires c < |s.calls|
    decreases |steps|
  {
    steps != [] && Enabled(s, steps[0]) &&
    (Loses(s, steps[0], c) || (c < |Apply(s, steps[0]).calls| && LosesAlong(Apply(s, steps[0]), steps[1..], c)))
  }

  /** Over any stretch in which a call awaits, its timeout is still coming at the end exactly when it was at the start
      and no step lost it: nothing ever brings a lost timeout back. */
  lemma {:induction false} ComingAlong(s: Sys, steps: seq<Step>, c: nat)
    requires Inv(s) && AwaitsThroughout(s, steps, c)
    ensures Run(s, steps).Some? && c < |s.calls|
    ensures Coming(Run(s, steps).value, c) <==> Coming(s, c) && !LosesAlong(s, steps, c)
    decreases |steps|
  {
    hide Inv, Enabled, Apply, Loses, Coming;
    if steps != [] {
      var s' := Apply(s, steps[0]);
      StepKeepsInv(s, steps[0]);
      ComingStep(s, steps[0], c);
      ComingAlong(s', steps[1..], c);
    }
  }

  /** The timer of the call is alive, but not in the set, and no callback is queued. */
  ghost predicate Displaced(s: Sys, c: nat) {
    && c < |s.calls| && Some(TimeoutOf(c)) !in s.queue
    && s.calls[c].timer.Some? && s.calls[c].timer.value < |s.ts.tm.recs|
    && s.ts.tm.recs[s.calls[c].timer.value].cb == Some(TimeoutOf(c)) && s.calls[c].timer.value !in s.ts.tm.order
  }

  /** In every run, the timeout of a waiting call will not come exactly when the call is stranded or its timer was
      displaced by another of the same deadline. */
  lemma WaitingIffComing(s0: Sys, steps: seq<Step>, c: nat)
    requires Init(s0) && Run(s0, steps).Some? && Waits(Run(s0, steps).value, c)
    requires Run(s0, steps).value.calls[c].timeout.Some?
    ensures var s := Run(s0, steps).value; !Coming(s, c) <==> Stranded(s, c) || Displaced(s, c)
  {
    hide Run, Inv, RM.Waiting;
    InitInv(s0);
    RunKeepsArmed(s0, steps);
    assert StillArmed(Run(s0, steps).value, c);
  }

  // ---------------------------------------------------------------- without collisions

  /** Every deadline that the run inserts is free when it is inserted. */
  ghost predicate FreshAlong(s: Sys, steps: seq<Step>)
    decreases |steps|
  {
    steps == [] ||
    (&& Enabled(s, steps[0])
     && (TimerOpOf(s, steps[0]).Some? ==>
           TMap.Fresh(TMap.Abs(s.ts.tm), |s.ts.tm.recs|, s.ts.clock, TimerOpOf(s, steps[0]).value))
     && FreshAlong(Apply(s, steps[0]), steps[1..]))
  }

  /** Then the set holds exactly the live timers throughout. */
  lemma {:induction false} FreshStaysExact(s: Sys, steps: seq<Step>)
    requires Inv(s) && TMap.Exact(s.ts.tm) && FreshAlong(s, steps)
    ensures Run(s, steps).Some? && Inv(Run(s, steps).value) && TMap.Exact(Run(s, steps).value.ts.tm)
    decreases |steps|
  {
    hide Inv, Enabled, Apply, TMap.Exact, TMap.Fresh, TMap.Abs, T.Apply, T.Enabled;
    if steps != [] {
      StepKeepsInv(s, steps[0]);
      TimerStep(s, steps[0]);
      TimersHold(s);
      if TimerOpOf(s, steps[0]).Some? { TMap.StepRefines(s.ts, TimerOpOf(s, steps[0]).value); }
      FreshStaysExact(Apply(s, steps[0]), steps[1..]);
    }
  }

  lemma TimersHold(s: Sys)
    requires Inv(s)
    ensures T.Inv(s.ts)
  {}

  /** As long as every inserted deadline is free, the timeout of a waiting call will not come if and only if the call
      is stranded, that is, registered after its callback had run. */
  lemma FreshStrandedIff(s0: Sys, steps: seq<Step>, c: nat)
    requires Init(s0) && FreshAlong(s0, steps)
    ensures Run(s0, steps).Some?
    ensures var s := Run(s0, steps).value;
      Waits(s, c) && s.calls[c].timeout.Some? ==> (Stranded(s, c) <==> !Coming(s, c))
  {
    hide Run, Inv, FreshAlong, RM.Waiting;
    InitInv(s0);
    FreshStaysExact(s0, steps);
    var s := Run(s0, steps).value;
    if Waits(s, c) && s.calls[c].timeout.Some? { WaitingIffComing(s0, steps, c); }
  }

  // ---------------------------------------------------------------- a collision is reachable

  /** A call begins, would block, and arms its timer. */
  lemma BeginAndArm(s: Sys, kind: Kind, fd: nat, ev: RM.Event, f: nat, ms: nat, steps: seq<Step>) returns (s3: Sys)
    requires Inv(s)
    ensures Inv(s3) && s3.rs == s.rs && s3.queue == s.queue && s3.ts.clock == s.ts.clock
    ensures s3.calls == s.calls + [Call(kind, fd, ev, f, Some(ms), s.ts.clock, Armed, false, Some(|s.ts.tm.recs|))]
    ensures s3.ts.tm.recs ==
      s.ts.tm.recs + [TM.Record(false, ms, s.ts.clock + TM.Delay(ms), Some(TimeoutOf(|s.calls|)))]
    ensures TM.Ordered(s3.ts.tm.recs, s.ts.tm.order)
    ensures s3.ts.tm.order == TM.Insert(s3.ts.tm.recs, s.ts.tm.order, |s.ts.tm.recs|)
    ensures var c := |s.calls|;
      Run(s, [Begin(kind, fd, ev, f, Some(ms)), Attempted(c, WouldBlock), ArmTimer(c, s.ts.clock)] + steps) ==
        Run(s3, steps)
  {
    hide Inv, Run, Apply, Enabled, T.Apply, TM.Insert;
    var c := |s.calls|;
    var begin, tried, arm := Begin(kind, fd, ev, f, Some(ms)), Attempted(c, WouldBlock), ArmTimer(c, s.ts.clock);
    BeginsAndTries(s, kind, fd, ev, f, ms);
    var s1 := Apply(s, begin);
    StepKeepsInv(s, begin);
    var s2 := Apply(s1, tried);
    StepKeepsInv(s1, tried);
    TimersInv(s2);
    ArmsNow(s2, c, ms);
    s3 := Apply(s2, arm);
    StepKeepsInv(s2, arm);
    RunCons(s2, arm, steps);
    RunCons(s1, tried, [arm] + steps);
    RunCons(s, begin, [tried] + ([arm] + steps));
    assert [begin, tried, arm] + steps == [begin] + ([tried] + ([arm] + steps));
  }

  lemma BeginsAndTries(s: Sys, kind: Kind, fd: nat, ev: RM.Event, f: nat, ms: nat)
    ensures var (c, begin) := (|s.calls|, Begin(kind, fd, ev, f, Some(ms)));
      && Enabled(s, begin) && Enabled(Apply(s, begin), Attempted(c, WouldBlock))
      && var s2 := Apply(Apply(s, begin), Attempted(c, WouldBlock));
      s2 == s.(calls := s.calls + [Call(kind, fd, ev, f, Some(ms), s.ts.clock, Arm, false, None)])
  {}

  lemma ArmsNow(s: Sys, c: nat, ms: nat)
    requires T.Inv(s.ts) && TM.Valid(s.ts.tm) && At(s, c, Arm) && s.calls[c].timeout == Some(ms)
    requires s.calls[c].begin <= s.ts.clock
    ensures Enabled(s, ArmTimer(c, s.ts.clock))
    ensures var (s', t) := (Apply(s, ArmTimer(c, s.ts.clock)), |s.ts.tm.recs|);
      && s'.rs == s.rs && s'.queue == s.queue && s'.ts.clock == s.ts.clock
      && s'.calls == s.calls[c := s.calls[c].(phase := Armed, timer := Some(t))]
      && s'.ts.tm.recs == s.ts.tm.recs + [TM.Record(false, ms, s.ts.clock + TM.Delay(ms), Some(TimeoutOf(c)))]
      && TM.Ordered(s'.ts.tm.recs, s.ts.tm.order) && s'.ts.tm.order == TM.Insert(s'.ts.tm.recs, s.ts.tm.order, t)
  {
    hide T.Inv, T.Apply, TM.Insert, TM.Ordered;
    BlockingProofs.AddAppends(s.ts, TimerOp(c, s.calls[c], s.ts.clock));
    TMap.AddAppends(s.ts, TimerOp(c, s.calls[c], s.ts.clock));
  }

  /** Inserting a second timer of one deadline into a set of one leaves the set as it was. */
  lemma SecondIsDropped(recs: seq<TM.Record>)
    requires |recs| == 2 && recs[0].next == recs[1].next && TM.Ordered(recs, [0])
    ensures TM.Insert(recs, [0], 1) == [0]
  {}

  /** The call that registers waits. */
  lemma RegistersAndWaits(s: Sys, c: nat)
    requires Inv(s) && At(s, c, Armed) && s.calls[c].fd < |s.rs.r.fds|
    requires s.calls[c].ev !in s.rs.r.fds[s.calls[c].fd].events
    ensures Enabled(s, Register(c)) && Waits(Apply(s, Register(c)), c)
    ensures var s' := Apply(s, Register(c));
      s'.ts == s.ts && s'.queue == s.queue && c < |s'.calls| && s'.calls[c].cancelled == s.calls[c].cancelled
      && s'.calls[c].timer == s.calls[c].timer
  {
    hide T.Inv, R.SysInv, RM.Inv, Inv, RM.AddEvent, RM.Waiting, RM.EpollCtl;
    SizeOk(s);
    var call := s.calls[c];
    RegistersNow(s.rs, call.fd, call.ev, call.fiber);
    RegisteredWaits(s.rs, call.fd, call.ev, call.fiber);
  }

  /** From a fresh system: two calls of one timeout arm their timers in the same tick. The second one's timer is never
      inserted, and that call then waits with no flag set and no timeout to come. */
  lemma CollisionIsReachable(s0: Sys, a: Call, b: Call, ms: nat)
    requires Init(s0) && b.fd < RM.INITIAL_FDS
    ensures var k := s0.ts.clock;
      var end := Run(s0, [Begin(a.kind, a.fd, a.ev, a.fiber, Some(ms)), Attempted(0, WouldBlock), ArmTimer(0, k)]
        + [Begin(b.kind, b.fd, b.ev, b.fiber, Some(ms)), Attempted(1, WouldBlock), ArmTimer(1, k)] + [Register(1)]);
      && end.Some? && Waits(end.value, 1) && !Stranded(end.value, 1)
      && Displaced(end.value, 1) && !Coming(end.value, 1)
  {
    hide Inv, Run, RM.Waiting, T.Inv, R.SysInv, RM.Inv;
    InitInv(s0);
    var k := s0.ts.clock;
    var second := [Begin(b.kind, b.fd, b.ev, b.fiber, Some(ms)), Attempted(1, WouldBlock), ArmTimer(1, k)];
    var s3 := BeginAndArm(s0, a.kind, a.fd, a.ev, a.fiber, ms, second + [Register(1)]);
    assert s3.ts.tm.order == [0];
    var s6 := BeginAndArm(s3, b.kind, b.fd, b.ev, b.fiber, ms, [Register(1)]);
    SecondIsDropped(s6.ts.tm.recs);
    RegistersAndWaits(s6, 1);
    EndOfRun(s6, Register(1));
    var first := [Begin(a.kind, a.fd, a.ev, a.fiber, Some(ms)), Attempted(0, WouldBlock), ArmTimer(0, k)];
    assert first + second + [Register(1)] == first + (second + [Register(1)]);
  }

  lemma EndOfRun(s: Sys, step: Step)
    requires Enabled(s, step)
    ensures Run(s, [step]) == Some(Apply(s, step))
  {
    hide Enabled, Apply;
  }
}
