/** A recurring timer that is cancelled in the gap of its reset is put back without callback. From then on `cancel`,
    `refresh` and `reset` refuse it and every expiry pass puts it back: only a colliding deadline takes it out. */
module TimerDead {
  import opened Common
  import opened TimerModel
  import opened TimerExpiry
  import opened TimerReset
  import T = TimerRuns

  /** A member that recurs and has no callback. */
  predicate DeadMember(tm: State, t: TimerId) {
    t in tm.order && t < |tm.recs| && tm.recs[t].recurring && tm.recs[t].cb.None?
  }

  /** An earlier due member of the same period takes the next deadline first, or another one has it already. */
  ghost predicate Preempted(tm: State, now: int, t: TimerId)
    requires t < |tm.recs|
  {
    || Blocked(tm, now, t)
    || exists u | u in tm.order ::
         u < |tm.recs| && tm.recs[u].recurring && tm.recs[u].next < tm.recs[t].next
         && Delay(tm.recs[u].ms) == Delay(tm.recs[t].ms)
  }

  lemma SameDeadline(recs: seq<Record>, order: seq<TimerId>, t: TimerId, u: TimerId)
    requires Ordered(recs, order) && t in order && u in order && t < |recs| && u < |recs|
    requires recs[t].next == recs[u].next
    ensures t == u
    decreases |order|
  {
    HeadOrRest(order);
    if t != order[0] && u != order[0] { SameDeadline(recs, order[1..], t, u); }
  }

  /** One turn for another member first does not change whether a due member is preempted. */
  lemma PreemptedTurn(tm: State, now: int, t: TimerId)
    requires Valid(tm) && !Stuck(tm, now, false) && t in tm.order && t != tm.order[0] && t < |tm.recs|
    requires tm.recs[t].recurring && tm.recs[t].next <= now
    ensures t < |ExpireOne(tm, now).recs|
    ensures Preempted(ExpireOne(tm, now), now, t) <==> Preempted(tm, now, t)
  {
    hide ExpireOne, Insert, Ordered, Stuck, Delay;
    OthersStay(tm, now, t);
    if Preempted(tm, now, t) { StaysPreempted(tm, now, t); }
    else { NotPreemptedSince(tm, now, t); }
  }

  lemma NotPreemptedSince(tm: State, now: int, t: TimerId)
    requires Valid(tm) && t in tm.order && t != tm.order[0] && t < |tm.recs|
    requires tm.recs[t].recurring && tm.recs[t].next <= now && !Preempted(tm, now, t)
    ensures t < |ExpireOne(tm, now).recs| && !Preempted(ExpireOne(tm, now), now, t)
  {
    hide ExpireOne, Insert, Ordered, Stuck, Delay;
    OthersStay(tm, now, t);
    UnblockedStays(tm, now, t);
    Turn(tm, now);
    var tm', h := ExpireOne(tm, now), tm.order[0];
    assert h in tm.order;
    NotBefore(tm.recs[h].ms, now);
    if u :| u in tm'.order && u < |tm'.recs| && tm'.recs[u].recurring && tm'.recs[u].next < tm'.recs[t].next
            && Delay(tm'.recs[u].ms) == Delay(tm'.recs[t].ms) {
      assert false;
    }
  }

  lemma NotBefore(ms: nat, now: int)
    ensures now <= now + Delay(ms)
  {}

  lemma StaysPreempted(tm: State, now: int, t: TimerId)
    requires Valid(tm) && !Stuck(tm, now, false) && t in tm.order && t != tm.order[0] && t < |tm.recs|
    requires tm.recs[t].recurring && tm.recs[t].next <= now && Preempted(tm, now, t)
    ensures t < |ExpireOne(tm, now).recs| && Preempted(ExpireOne(tm, now), now, t)
  {
    hide ExpireOne, Insert, Ordered, Stuck, Delay;
    OthersStay(tm, now, t);
    var tm', h := ExpireOne(tm, now), tm.order[0];
    assert h in tm.order;
    if Blocked(tm, now, t) {
      var u :| u in tm.order && u < |tm.recs| && tm.recs[u].next == now + Delay(tm.recs[t].ms)
        && tm.recs[t].next < tm.recs[u].next;
      OthersStay(tm, now, u);
    } else {
      var u :| u in tm.order && u < |tm.recs| && tm.recs[u].recurring && tm.recs[u].next < tm.recs[t].next
        && Delay(tm.recs[u].ms) == Delay(tm.recs[t].ms);
      if u != h {
        OthersStay(tm, now, u);
        assert u in tm'.order;
      } else {
        HeadPreempts(tm, now, t);
      }
    }
  }

  /** The first member, of the same period, comes back where the other would, or another member is there already. */
  lemma HeadPreempts(tm: State, now: int, t: TimerId)
    requires Valid(tm) && !Stuck(tm, now, false) && t in tm.order && t != tm.order[0] && t < |tm.recs|
    requires tm.recs[t].recurring && tm.recs[t].next <= now && !Blocked(tm, now, t)
    requires tm.order[0] < |tm.recs| && tm.recs[tm.order[0]].recurring
    requires Delay(tm.recs[tm.order[0]].ms) == Delay(tm.recs[t].ms)
    ensures t < |ExpireOne(tm, now).recs| && Blocked(ExpireOne(tm, now), now, t)
  {
    hide ExpireOne, Insert, Ordered, Stuck, Delay;
    OthersStay(tm, now, t);
    var tm', h := ExpireOne(tm, now), tm.order[0];
    NotBefore(tm.recs[t].ms, now);
    NeverAtNow(tm, now, t);
    HeadReturns(tm, now);
    assert h in tm'.order && tm'.recs[h].next == now + Delay(tm'.recs[t].ms);
  }

  /** A due recurring member that is not stuck does not come back to its present deadline. */
  lemma NeverAtNow(tm: State, now: int, t: TimerId)
    requires Valid(tm) && !Stuck(tm, now, false) && t in tm.order && t < |tm.recs|
    requires tm.recs[t].recurring && tm.recs[t].next <= now && !Blocked(tm, now, t)
    ensures tm.recs[t].next < now + Delay(tm.recs[t].ms)
  {
    hide Ordered;
    assert !StuckAt(tm, now, false, t);
  }

  /** Exactly when a pass without rollover drops a due recurring member. */
  lemma {:induction false} RecurringStaysIff(tm: State, now: int, t: TimerId)
    requires Valid(tm) && !Stuck(tm, now, false) && t in tm.order && t < |tm.recs|
    requires tm.recs[t].recurring && tm.recs[t].next <= now
    ensures t in ExpireAll(tm, now, false).0.order <==> !Preempted(tm, now, t)
    decreases |DuePart(tm, now, false)|
  {
    hide ExpireOne, Stuck, DuePart, Ordered, Insert, Delay;
    FirstIsDue(tm, now, t);
    PassTurn(tm, now, false);
    var tm', h := ExpireOne(tm, now), tm.order[0];
    if h == t {
      PassMembers(tm', now);
      PassTakesTheDue(tm', now, false);
      NoneBefore(tm, now, t);
      Turn(tm, now);
      if Blocked(tm, now, t) { HeadBlocked(tm, now); } else { HeadReturns(tm, now); }
    } else {
      PreemptedTurn(tm, now, t);
      OthersStay(tm, now, t);
      RecurringStaysIff(tm', now, t);
    }
  }

  lemma FirstIsDue(tm: State, now: int, t: TimerId)
    requires Valid(tm) && t in tm.order && t < |tm.recs| && tm.recs[t].next <= now
    ensures Due(tm, now, false)
  {
    HeadOrRest(tm.order);
  }

  lemma NoneBefore(tm: State, now: int, t: TimerId)
    requires Valid(tm) && tm.order != [] && tm.order[0] == t && t < |tm.recs|
    ensures Preempted(tm, now, t) <==> Blocked(tm, now, t)
  {
    hide Blocked;
    HeadOrRest(tm.order);
  }

  // ---------------------------------------------------------------- what takes a dead member out

  /** The operation erases the deadline of `t` for another, live timer, or re-inserts `t` where another member is. */
  ghost predicate Clashes(s: Sys, op: Op, t: TimerId)
    requires t < |s.ts.tm.recs| && Enabled(s, op)
  {
    match op
    case Plain(CancelOp(u)) => s.ts.tm.recs[u].cb.Some? && s.ts.tm.recs[u].next == s.ts.tm.recs[t].next
    case Plain(RefreshOp(u)) => s.ts.tm.recs[u].cb.Some? && s.ts.tm.recs[u].next == s.ts.tm.recs[t].next
    case Plain(ExpireOp(now)) =>
      || Rollover(s.ts.tm, s.ts.clock)
      || (s.ts.tm.recs[t].next <= now && Preempted(s.ts.tm, now, t))
    case ResetBegin(u, ms, fromNow) =>
      GoesThrough(s.ts.tm, u, ms, fromNow) && s.ts.tm.recs[u].next == s.ts.tm.recs[t].next
    case _ => false
  }

  lemma PassKeepsIff(tm: State, tm0: State, now: int, rollover: bool, t: TimerId)
    requires Valid(tm) && tm0 == tm.(previous := tm0.previous) && !Stuck(tm0, now, rollover) && DeadMember(tm, t)
    ensures t in ExpireAll(tm0, now, rollover).0.order <==>
      !rollover && (tm.recs[t].next <= now ==> !Preempted(tm, now, t))
    ensures var tm' := ExpireAll(tm0, now, rollover).0;
      t < |tm'.recs| && tm'.recs[t].recurring && tm'.recs[t].cb.None?
  {
    hide Stuck, ExpireAll, DuePart, Ordered, Preempted;
    PassTakesTheDue(tm0, now, rollover);
    if rollover {
      RolloverDrains(tm0, now);
    } else if tm.recs[t].next <= now {
      RecurringStaysIff(tm0, now, t);
      SamePreempted(tm, tm0, now, t);
    } else {
      PassMembers(tm0, now);
      NotDue(tm0, now, t);
    }
  }

  lemma SamePreempted(tm: State, tm0: State, now: int, t: TimerId)
    requires t < |tm.recs| && tm0 == tm.(previous := tm0.previous)
    ensures Preempted(tm, now, t) == Preempted(tm0, now, t)
  {
    assert Blocked(tm, now, t) == Blocked(tm0, now, t);
  }

  lemma NotDue(tm: State, now: int, t: TimerId)
    requires Valid(tm) && t < |tm.recs| && now < tm.recs[t].next
    ensures t !in DuePart(tm, now, false)
  {}

  /** A dead member leaves the set by a clash of deadlines and by nothing else, and is dead for good. */
  lemma DeadLeavesIff(s: Sys, op: Op, t: TimerId)
    requires Enabled(s, op) && DeadMember(s.ts.tm, t)
    ensures var tm' := Apply(s, op).ts.tm;
      && t < |tm'.recs| && tm'.recs[t].recurring && tm'.recs[t].cb.None?
      && (t in tm'.order <==> !Clashes(s, op, t))
  {
    hide Ordered, Insert, EraseKey, TakeOut, FindKey;
    match op
    case Plain(ExpireOp(now)) =>
      hide ExpireAll, Stuck, Preempted, Rollover;
      var tm0 := s.ts.tm.(previous := s.ts.clock);
      SameStuck(s.ts.tm, tm0, now, Rollover(s.ts.tm, s.ts.clock));
      PassKeepsIff(s.ts.tm, tm0, now, Rollover(s.ts.tm, s.ts.clock), t);
    case Plain(AddOp(ms, cb, recurring, start)) => AddKeepsDead(s.ts, op.op, t);
    case Plain(_) =>
    case ResetBegin(_, _, _) =>
    case ResetEnd(_) =>
  }

  lemma AddKeepsDead(ts: T.Sys, op: T.Op, t: TimerId)
    requires T.Enabled(ts, op) && op.AddOp? && DeadMember(ts.tm, t)
    ensures DeadMember(T.Apply(ts, op).tm, t)
  {
    hide Ordered, Insert;
  }

  /** `cancel`, `refresh` and `reset` refuse it: they return false, or true for a reset to the same period, and change
      nothing. */
  lemma Refused(tm: State, t: TimerId, ms: nat, fromNow: bool, now: int)
    requires Valid(tm) && DeadMember(tm, t)
    ensures Cancel(tm, t) == (tm, false) && Refresh(tm, t, now) == (tm, false)
    ensures Reset(tm, t, ms, fromNow, now) == (tm, ms == tm.recs[t].ms && !fromNow, false)
  {}

  ghost predicate ClashFree(s: Sys, ops: seq<Op>, t: TimerId)
    decreases |ops|
  {
    ops == [] || (Enabled(s, ops[0]) && t < |s.ts.tm.recs| && !Clashes(s, ops[0], t)
                  && ClashFree(Apply(s, ops[0]), ops[1..], t))
  }

  /** Over any run in which no deadline clashes with its own, a dead timer never leaves the set. */
  lemma {:induction false} DeadForGood(s: Sys, ops: seq<Op>, t: TimerId)
    requires DeadMember(s.ts.tm, t) && ClashFree(s, ops, t)
    ensures Run(s, ops).Some? && DeadMember(Run(s, ops).value.ts.tm, t)
    decreases |ops|
  {
    hide Enabled, Apply, Clashes;
    if ops != [] {
      DeadLeavesIff(s, ops[0], t);
      DeadForGood(Apply(s, ops[0]), ops[1..], t);
    }
  }

  // ---------------------------------------------------------------- alone

  /** A dead timer that is the only timer there is, and in no gap. */
  predicate Alone(s: Sys) {
    && |s.ts.tm.recs| == 1 && s.ts.tm.order == [0] && s.ts.tm.recs[0].recurring && s.ts.tm.recs[0].cb.None?
    && s.gaps == []
  }

  lemma AloneStays(s: Sys, op: Op)
    requires Alone(s) && Enabled(s, op) && !(op.Plain? && op.op.AddOp?)
    ensures Alone(Apply(s, op))
  {
    match op
    case Plain(ExpireOp(now)) => AloneExpires(s, now);
    case _ =>
  }

  lemma AloneExpires(s: Sys, now: int)
    requires Alone(s) && Enabled(s, Plain(T.ExpireOp(now)))
    ensures Alone(Apply(s, Plain(T.ExpireOp(now))))
  {
    hide Stuck, ExpireAll, Rollover;
    var tm, rollover := s.ts.tm, Rollover(s.ts.tm, s.ts.clock);
    var tm0 := tm.(previous := s.ts.clock);
    if rollover { T.LoneIsStuck(tm, now, true); }
    SameStuck(tm, tm0, now, rollover);
    PassTakesTheDue(tm0, now, false);
    PassKeepsIff(tm, tm0, now, false, 0);
    OnlyOne(ExpireAll(tm0, now, false).0);
  }

  lemma AllTheSame(order: seq<TimerId>, t: TimerId)
    requires forall i | 0 <= i < |order| :: order[i] == t
    ensures multiset(order)[t] == |order|
  {
    if order != [] {
      AllTheSame(order[1..], t);
      assert order == [order[0]] + order[1..];
    }
  }

  lemma OnlyOne(tm: State)
    requires Valid(tm) && |tm.recs| == 1 && 0 in tm.order
    ensures tm.order == [0]
  {
    Members(tm.recs, tm.order);
    assert forall i | 0 <= i < |tm.order| :: tm.order[i] in tm.order;
    AllTheSame(tm.order, 0);
    T.DeadlinesDistinct(tm.recs, tm.order, 0);
  }

  /** As long as no timer is added it stays in the set whatever is done: the set is never empty again. */
  lemma {:induction false} AloneForGood(s: Sys, ops: seq<Op>)
    requires Alone(s) && Run(s, ops).Some? && forall i | 0 <= i < |ops| :: !(ops[i].Plain? && ops[i].op.AddOp?)
    ensures Alone(Run(s, ops).value)
    decreases |ops|
  {
    hide Enabled, Apply, Alone;
    if ops != [] {
      AloneStays(s, ops[0]);
      AloneForGood(Apply(s, ops[0]), ops[1..]);
    }
  }

  /** From a fresh manager: a recurring timer is added, its reset begins, it is cancelled, and the reset ends. */
  lemma DeadIsReachable(ts: T.Sys, ms: nat, later: nat, cb: Callback)
    requires T.Init(ts)
    ensures var end := Run(Sys(ts, []),
        [Plain(T.AddOp(ms, cb, true, ts.clock)), ResetBegin(0, later, true), Plain(T.CancelOp(0)), ResetEnd(0)]);
      end.Some? && Alone(end.value)
  {
    hide Run;
    var add, begin := Plain(T.AddOp(ms, cb, true, ts.clock)), ResetBegin(0, later, true);
    var cancel, end := Plain(T.CancelOp(0)), ResetEnd(0);
    var s1 := Apply(Sys(ts, []), add);
    assert s1.ts.tm.order == [0];
    var s2 := Apply(s1, begin);
    assert s2.ts.tm.order == [];
    var s3 := Apply(s2, cancel);
    var s4 := Apply(s3, end);
    RunCons(s3, end, []);
    RunCons(s2, cancel, [end]);
    RunCons(s1, begin, [cancel, end]);
    RunCons(Sys(ts, []), add, [begin, cancel, end]);
    RunNil(s4);
    assert [end] + [] == [end] && [cancel] + [end] == [cancel, end] && [begin] + [cancel, end] == [begin, cancel, end];
    assert [add] + [begin, cancel, end] == [add, begin, cancel, end];
  }
}
