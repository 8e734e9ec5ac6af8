/** `Timer::reset` as it is: the timer is taken out of the set under the lock, its fields are rewritten without it, and
    it is inserted under the lock again. What can happen in between to a timer that is cancelled there. */
module TimerReset {
  import opened Common
  import opened TimerModel
  import opened TimerExpiry
  import T = TimerRuns

  /** A reset of timer `t` that has taken it out and not yet put it back. */
  datatype Gap = Gap(t: TimerId, ms: nat, fromNow: bool)

  datatype Sys = Sys(ts: T.Sys, gaps: seq<Gap>)

  datatype Op = Plain(op: T.Op) | ResetBegin(t: TimerId, ms: nat, fromNow: bool) | ResetEnd(i: nat)

  /** The second part is modelled as long as writing the fields does not break the order of the set, which it can only
      where something has put the timer back in the gap; `WriteBreaksIff` says exactly when. */
  ghost predicate Enabled(s: Sys, op: Op) {
    Valid(s.ts.tm) &&
    match op
    case Plain(op) => !op.ResetOp? && T.Enabled(s.ts, op)
    case ResetBegin(t, _, _) => t < |s.ts.tm.recs|
    case ResetEnd(i) => i < |s.gaps| && s.gaps[i].t < |s.ts.tm.recs| && Ordered(Written(s.ts, s.gaps[i]), s.ts.tm.order)
  }

  /** The first part goes through to the erase. */
  predicate GoesThrough(tm: State, t: TimerId, ms: nat, fromNow: bool)
    requires Valid(tm) && t < |tm.recs|
  {
    && !(ms == tm.recs[t].ms && !fromNow) && tm.recs[t].cb.Some?
    && FindKey(tm.recs, tm.order, tm.recs[t].next).Some?
  }

  function Rewritten(ts: T.Sys, gap: Gap): Record
    requires gap.t < |ts.tm.recs|
  {
    var rec := ts.tm.recs[gap.t];
    var start := if gap.fromNow then ts.clock else rec.next - Delay(rec.ms);
    rec.(ms := gap.ms, next := start + Delay(gap.ms))
  }

  function Written(ts: T.Sys, gap: Gap): seq<Record>
    requires gap.t < |ts.tm.recs|
  {
    ts.tm.recs[gap.t := Rewritten(ts, gap)]
  }

  /** The timer manager's state once the fields are rewritten. */
  function Rewrite(ts: T.Sys, gap: Gap): (tm: State)
    requires gap.t < |ts.tm.recs| && Ordered(Written(ts, gap), ts.tm.order)
    ensures Valid(tm)
  {
    ts.tm.(recs := Written(ts, gap))
  }

  /** Members keep their place when the deadline of one of them changes. */
  ghost predicate KeepsPlace(recs: seq<Record>, order: seq<TimerId>, t: TimerId, next: int)
    requires t < |recs|
  {
    forall u | u in order && u != t ::
      u < |recs| && recs[u].next != next && (recs[u].next < recs[t].next <==> recs[u].next < next)
  }

  /** Writing a new deadline to a timer breaks the order exactly when the timer is in the set and another member has
      that deadline or one between the old and the new. */
  lemma {:induction false} WriteBreaksIff(recs: seq<Record>, order: seq<TimerId>, t: TimerId, rec: Record)
    requires Ordered(recs, order) && t < |recs|
    ensures !Ordered(recs[t := rec], order) <==> t in order && !KeepsPlace(recs, order, t, rec.next)
    decreases |order|
  {
    if order != [] {
      var recs', rest := recs[t := rec], order[1..];
      WriteBreaksIff(recs, rest, t, rec);
      HeadOrRest(order);
      Members(recs, order);
      assert forall u | u in rest :: u in order;
      if order[0] == t {
        assert t !in rest;
      } else if t in order {
        assert recs[order[0]].next < recs[t].next;
      }
    }
  }

  ghost function Apply(s: Sys, op: Op): Sys
    requires Enabled(s, op)
  {
    match op
    case Plain(op) => s.(ts := T.Apply(s.ts, op))
    case ResetBegin(t, ms, fromNow) =>
      if !GoesThrough(s.ts.tm, t, ms, fromNow) then s
      else
        var order := EraseKey(s.ts.tm.recs, s.ts.tm.order, s.ts.tm.recs[t].next);
        Sys(s.ts.(tm := s.ts.tm.(order := order)), s.gaps + [Gap(t, ms, fromNow)])
    case ResetEnd(i) =>
      var (tm, tickle) := Enqueue(Rewrite(s.ts, s.gaps[i]), s.gaps[i].t);
      Sys(s.ts.(tm := tm, views := T.Wake(s.ts.views, tickle)), s.gaps[..i] + s.gaps[i + 1..])
  }

  ghost function Run(s: Sys, ops: seq<Op>): Option<Sys>
    decreases |ops|
  {
    if ops == [] then Some(s)
    else if Enabled(s, ops[0]) then Run(Apply(s, ops[0]), ops[1..])
    else None
  }

  /** With nothing in the gap the two parts are the one-step reset. */
  lemma NoGapIsReset(s: Sys, t: TimerId, ms: nat, fromNow: bool)
    requires Enabled(s, ResetBegin(t, ms, fromNow))
    ensures var s1 := Apply(s, ResetBegin(t, ms, fromNow));
      if GoesThrough(s.ts.tm, t, ms, fromNow) then
        && Enabled(s1, ResetEnd(|s.gaps|))
        && Apply(s1, ResetEnd(|s.gaps|)) == Sys(T.Apply(s.ts, T.ResetOp(t, ms, fromNow)), s.gaps)
      else
        s1 == s && T.Apply(s.ts, T.ResetOp(t, ms, fromNow)) == s.ts
  {
    hide Ordered, FindKey, EraseKey, Insert;
    if GoesThrough(s.ts.tm, t, ms, fromNow) {
      var s1 := Apply(s, ResetBegin(t, ms, fromNow));
      WriteBreaksIff(s1.ts.tm.recs, s1.ts.tm.order, t, Rewritten(s1.ts, Gap(t, ms, fromNow)));
      assert s1.gaps[..|s.gaps|] + s1.gaps[|s.gaps| + 1..] == s.gaps;
    } else {
      assert T.Wake(s.ts.views, false) == s.ts.views;
    }
  }

  // ---------------------------------------------------------------- every run

  lemma BeginKeepsSet(s: Sys, t: TimerId, ms: nat, fromNow: bool)
    requires T.SetInv(s.ts) && Enabled(s, ResetBegin(t, ms, fromNow))
    ensures T.SetInv(Apply(s, ResetBegin(t, ms, fromNow)).ts)
  {
    hide Ordered, EraseKey, FindKey;
    var s' := Apply(s, ResetBegin(t, ms, fromNow));
    Members(s.ts.tm.recs, s.ts.tm.order);
    forall w | 0 <= w < |s.ts.views| ensures T.Covered(s'.ts.views[w], s'.ts.tm) {
      T.CoverFrame(s.ts.tm, s'.ts.tm, s.ts.views[w]);
    }
  }

  lemma EndKeepsSet(s: Sys, i: nat)
    requires T.SetInv(s.ts) && Enabled(s, ResetEnd(i))
    ensures T.SetInv(Apply(s, ResetEnd(i)).ts)
  {
    hide Ordered, Insert, Enqueue;
    var tm, t := Rewrite(s.ts, s.gaps[i]), s.gaps[i].t;
    Members(s.ts.tm.recs, s.ts.tm.order);
    T.EnqueueKeeps(s.ts, tm, t);
    T.EnqueueFlag(tm, t);
  }

  lemma StepKeepsSet(s: Sys, op: Op)
    requires T.SetInv(s.ts) && Enabled(s, op)
    ensures T.SetInv(Apply(s, op).ts)
  {
    hide T.SetInv;
    match op
    case Plain(op) => T.StepKeepsSet(s.ts, op);
    case ResetBegin(t, ms, fromNow) => BeginKeepsSet(s, t, ms, fromNow);
    case ResetEnd(i) => EndKeepsSet(s, i);
  }

  /** With the gap too the set stays strictly sorted, no deadline is further off than its interval, and every worker
      is covered by its last read or woken since. */
  lemma {:induction false} RunKeepsSet(s: Sys, ops: seq<Op>)
    requires T.SetInv(s.ts) && Run(s, ops).Some?
    ensures T.SetInv(Run(s, ops).value.ts)
    decreases |ops|
  {
    hide T.SetInv, Enabled, Apply;
    if ops != [] {
      StepKeepsSet(s, ops[0]);
      RunKeepsSet(Apply(s, ops[0]), ops[1..]);
    }
  }

  /** No wake-up is lost either: if the earliest deadline is now earlier than the one worker `w` saw at its last read, a
      wake-up has been asked for since. */
  lemma NoLostWakeUp(ts: T.Sys, ops: seq<Op>, w: nat)
    requires T.Init(ts) && Run(Sys(ts, []), ops).Some? && w < |Run(Sys(ts, []), ops).value.ts.views|
    ensures var s := Run(Sys(ts, []), ops).value.ts;
      Valid(s.tm) &&
      (T.Earliest(s.tm).Some? && (s.views[w].seen.None? || T.Earliest(s.tm).value < s.views[w].seen.value) ==>
        s.views[w].woken)
  {
    hide Run;
    RunKeepsSet(Sys(ts, []), ops);
    var s := Run(Sys(ts, []), ops).value.ts;
    if s.tm.order != [] { assert s.tm.order[0] in s.tm.order; }
  }

  // ---------------------------------------------------------------- what is in a gap

  /** The timers in gaps are out of the set, and no two gaps are of one timer. */
  predicate GapsOut(s: Sys) {
    && (forall i | 0 <= i < |s.gaps| :: s.gaps[i].t < |s.ts.tm.recs| && s.gaps[i].t !in s.ts.tm.order)
    && (forall i, j | 0 <= i < j < |s.gaps| :: s.gaps[i].t != s.gaps[j].t)
  }

  /** A refresh or reset of a timer in a gap finds another one at its deadline, and takes that for the timer itself. */
  ghost predicate Mistakes(s: Sys, op: Op) {
    match op
    case Plain(RefreshOp(u)) =>
      InGap(s, u) && u < |s.ts.tm.recs| && Taken(s.ts.tm.recs, s.ts.tm.order, s.ts.tm.recs[u].next)
    case ResetBegin(u, _, _) =>
      InGap(s, u) && u < |s.ts.tm.recs| && Taken(s.ts.tm.recs, s.ts.tm.order, s.ts.tm.recs[u].next)
    case _ => false
  }

  /** Nothing else brings a timer back in its gap. */
  lemma GapsStayOut(s: Sys, op: Op)
    requires T.SetInv(s.ts) && GapsOut(s) && Enabled(s, op) && !Mistakes(s, op)
    ensures GapsOut(Apply(s, op))
  {
    match op
    case Plain(op) =>
      hide T.Apply;
      forall i | 0 <= i < |s.gaps|
        ensures s.gaps[i].t < |T.Apply(s.ts, op).tm.recs| && s.gaps[i].t !in T.Apply(s.ts, op).tm.order
      {
        assert s.gaps[i] in s.gaps;
        StaysOut(s.ts, op, s.gaps[i].t);
      }
    case ResetBegin(u, ms, fromNow) =>
      hide Ordered, EraseKey, FindKey;
      forall i | 0 <= i < |s.gaps| ensures s.gaps[i].t == u ==> InGap(s, u) { assert s.gaps[i] in s.gaps; }
    case ResetEnd(i) => hide Ordered, Insert;
  }

  lemma StaysOut(ts: T.Sys, op: T.Op, t: TimerId)
    requires T.SetInv(ts) && T.Enabled(ts, op) && !op.ResetOp? && t < |ts.tm.recs| && t !in ts.tm.order
    requires op == T.RefreshOp(t) ==> !Taken(ts.tm.recs, ts.tm.order, ts.tm.recs[t].next)
    ensures t < |T.Apply(ts, op).tm.recs| && t !in T.Apply(ts, op).tm.order
  {
    hide Ordered, Insert, EraseKey, TakeOut, FindKey;
    match op
    case ExpireOp(now) =>
      hide T.Apply, Stuck, DuePart;
      T.ExpireShape(ts, now);
    case _ =>
  }

  /** So as long as no timer is taken for another, every reset can be ended in order. */
  lemma EveryResetEnds(s: Sys, i: nat)
    requires Valid(s.ts.tm) && GapsOut(s) && i < |s.gaps|
    ensures Enabled(s, ResetEnd(i))
  {
    WriteBreaksIff(s.ts.tm.recs, s.ts.tm.order, s.gaps[i].t, Rewritten(s.ts, s.gaps[i]));
  }

  // ---------------------------------------------------------------- a cancelled timer

  /** The timer is cancelled or has expired, and is not in the set. */
  predicate Gone(s: Sys, t: TimerId) {
    t < |s.ts.tm.recs| && s.ts.tm.recs[t].cb.None? && t !in s.ts.tm.order
  }

  predicate InGap(s: Sys, t: TimerId) { exists gap | gap in s.gaps :: gap.t == t }

  /** Cancelling a live timer takes it off, and makes no gap. */
  lemma CancelMakesGone(s: Sys, t: TimerId)
    requires Enabled(s, Plain(T.CancelOp(t))) && s.ts.tm.recs[t].cb.Some?
    ensures Gone(Apply(s, Plain(T.CancelOp(t))), t) && Apply(s, Plain(T.CancelOp(t))).gaps == s.gaps
  {
    hide Ordered, EraseKey;
  }

  lemma PlainKeepsGone(s: Sys, op: T.Op, t: TimerId)
    requires Enabled(s, Plain(op)) && Gone(s, t)
    ensures var s' := Apply(s, Plain(op)); Gone(s', t) && multiset(s'.ts.fired)[t] == multiset(s.ts.fired)[t]
  {
    hide Ordered, EraseKey, Insert, TakeOut, FindKey;
    match op
    case ExpireOp(now) => ExpiryKeepsGone(s, now, t);
    case _ =>
  }

  lemma ExpiryKeepsGone(s: Sys, now: int, t: TimerId)
    requires Enabled(s, Plain(T.ExpireOp(now))) && Gone(s, t)
    ensures var s' := Apply(s, Plain(T.ExpireOp(now)));
      Gone(s', t) && multiset(s'.ts.fired)[t] == multiset(s.ts.fired)[t]
  {
    hide Ordered, ExpireAll, Stuck, DuePart, Rollover;
    var tm, rollover := s.ts.tm.(previous := s.ts.clock), Rollover(s.ts.tm, s.ts.clock);
    SameStuck(s.ts.tm, tm, now, rollover);
    PassTakesTheDue(tm, now, rollover);
    if rollover { RolloverDrains(tm, now); } else { PassMembers(tm, now); }
    assert t !in DuePart(tm, now, rollover);
  }

  lemma SameStuck(tm: State, tm': State, now: int, rollover: bool)
    requires tm' == tm.(previous := tm'.previous)
    ensures Stuck(tm, now, rollover) == Stuck(tm', now, rollover)
  {
    assert forall t | t in tm.order && t < |tm.recs| :: StuckAt(tm, now, rollover, t) == StuckAt(tm', now, rollover, t);
  }

  /** A step brings a timer that is gone back into the set if and only if it ends a reset of that timer at a free
      deadline; nothing hands such a timer out, and a reset of it can no longer begin. */
  lemma ReturnsIff(s: Sys, op: Op, t: TimerId)
    requires Enabled(s, op) && Gone(s, t)
    ensures var s' := Apply(s, op);
      && t < |s'.ts.tm.recs| && s'.ts.tm.recs[t].cb.None?
      && multiset(s'.ts.fired)[t] == multiset(s.ts.fired)[t]
      && (InGap(s', t) ==> InGap(s, t))
      && (t in s'.ts.tm.order <==>
            && op.ResetEnd? && s.gaps[op.i].t == t
            && !Taken(s.ts.tm.recs, s.ts.tm.order, Rewritten(s.ts, s.gaps[op.i]).next))
  {
    match op
    case Plain(op) => hide T.Apply; PlainKeepsGone(s, op, t);
    case ResetBegin(u, ms, fromNow) => hide Ordered, EraseKey, FindKey;
    case ResetEnd(i) =>
      hide Ordered, Insert;
      Members(s.ts.tm.recs, s.ts.tm.order);
      if s.gaps[i].t !in s.ts.tm.order {
        SameTaken(s.ts.tm, Rewrite(s.ts, s.gaps[i]), s.gaps[i].t, Rewritten(s.ts, s.gaps[i]).next);
      }
      assert forall gap | gap in s.gaps[..i] + s.gaps[i + 1..] :: gap in s.gaps;
  }

  lemma SameTaken(tm: State, tm': State, t: TimerId, key: int)
    requires t < |tm.recs| && t !in tm.order && tm'.order == tm.order && |tm'.recs| == |tm.recs|
    requires forall u | 0 <= u < |tm.recs| && u != t :: tm'.recs[u] == tm.recs[u]
    ensures Taken(tm.recs, tm.order, key) <==> Taken(tm'.recs, tm'.order, key)
  {
    if u :| u in tm.order && u < |tm.recs| && tm.recs[u].next == key { assert tm'.recs[u].next == key; }
    if u :| u in tm'.order && u < |tm'.recs| && tm'.recs[u].next == key { assert tm.recs[u].next == key; }
  }

  lemma {:induction false} GoneForGood(s: Sys, ops: seq<Op>, t: TimerId)
    requires Run(s, ops).Some? && Gone(s, t) && !InGap(s, t)
    ensures Gone(Run(s, ops).value, t)
    ensures multiset(Run(s, ops).value.ts.fired)[t] == multiset(s.ts.fired)[t]
    decreases |ops|
  {
    hide Enabled, Apply;
    if ops != [] {
      NoEndWithoutGap(s, ops[0], t);
      GoneForGood(Apply(s, ops[0]), ops[1..], t);
    }
  }

  lemma NoEndWithoutGap(s: Sys, op: Op, t: TimerId)
    requires Enabled(s, op) && Gone(s, t) && !InGap(s, t)
    ensures Gone(Apply(s, op), t) && !InGap(Apply(s, op), t)
    ensures multiset(Apply(s, op).ts.fired)[t] == multiset(s.ts.fired)[t]
  {
    hide Apply;
    ReturnsIff(s, op, t);
    if op.ResetEnd? { assert s.gaps[op.i] in s.gaps; }
  }

  /** A live timer that is cancelled while no reset of it is in its gap is never handed out again, whatever follows. */
  lemma CancelledOutsideGapNeverFires(s: Sys, t: TimerId, after: seq<Op>)
    requires Enabled(s, Plain(T.CancelOp(t))) && s.ts.tm.recs[t].cb.Some? && !InGap(s, t)
    requires Run(Apply(s, Plain(T.CancelOp(t))), after).Some?
    ensures var s1 := Apply(s, Plain(T.CancelOp(t)));
      multiset(Run(s1, after).value.ts.fired)[t] == multiset(s1.ts.fired)[t] && t !in Run(s1, after).value.ts.tm.order
  {
    hide Apply, Enabled, Run;
    CancelMakesGone(s, t);
    NothingNewInGap(s, Apply(s, Plain(T.CancelOp(t))), t);
    GoneForGood(Apply(s, Plain(T.CancelOp(t))), after, t);
  }

  lemma NothingNewInGap(s: Sys, s': Sys, t: TimerId)
    requires s'.gaps == s.gaps
    ensures InGap(s', t) == InGap(s, t)
  {}

  // ---------------------------------------------------------------- a cancel in the gap

  lemma RunCons(s: Sys, op: Op, ops: seq<Op>)
    requires Enabled(s, op)
    ensures Run(s, [op] + ops) == Run(Apply(s, op), ops)
  {
    hide Enabled, Apply;
    assert ([op] + ops)[1..] == ops;
  }

  /** A cancelled timer alone in a set, due, is handed out without a callback. */
  lemma LoneDeadExpires(s: Sys, now: int)
    requires |s.ts.tm.recs| == 1 && s.ts.tm.order == [0] && Valid(s.ts.tm) && !s.ts.tm.recs[0].recurring
    requires s.ts.tm.recs[0].cb.None? && s.ts.tm.recs[0].next <= now == s.ts.clock && s.ts.tm.previous <= s.ts.clock
    ensures Enabled(s, Plain(T.ExpireOp(now)))
    ensures Apply(s, Plain(T.ExpireOp(now))).ts.fired == s.ts.fired + [0]
  {
    var tm := s.ts.tm.(previous := s.ts.clock);
    SafePeriods(s.ts.tm, now, false);
    SafePeriods(tm, now, false);
    PassTakesTheDue(tm, now, false);
    assert DuePart(tm, now, false) == [0];
  }

  /** From a fresh manager: a reset begins, the timer is cancelled in the gap, the reset ends, and the timer is handed
      out all the same, with no callback. */
  lemma CancelInGapFires(ts: T.Sys, ms: nat, later: nat, cb: Callback)
    requires T.Init(ts)
    ensures var due := ts.clock + Delay(later);
      var end := Run(Sys(ts, []),
        [Plain(T.AddOp(ms, cb, false, ts.clock)), ResetBegin(0, later, true), Plain(T.CancelOp(0)),
        ResetEnd(0), Plain(T.Tick(due)), Plain(T.ExpireOp(due))]);
      end.Some? && end.value.ts.fired == [0] && |end.value.ts.tm.recs| == 1 && end.value.ts.tm.recs[0].cb.None?
  {
    hide Run, Apply, Enabled;
    var due := ts.clock + Delay(later);
    var s0 := Sys(ts, []);
    var s3 := UpToCancel(s0, ms, later, cb, [ResetEnd(0), Plain(T.Tick(due)), Plain(T.ExpireOp(due))]);
    var s5 := UpToDue(s3, later, [Plain(T.ExpireOp(due))]);
    LoneDeadExpires(s5, due);
    DeadStays(s5, due);
    RunCons(s5, Plain(T.ExpireOp(due)), []);
    assert [Plain(T.ExpireOp(due))] + [] == [Plain(T.ExpireOp(due))];
    RunNil(Apply(s5, Plain(T.ExpireOp(due))));
    assert [Plain(T.AddOp(ms, cb, false, ts.clock)), ResetBegin(0, later, true), Plain(T.CancelOp(0))]
      + [ResetEnd(0), Plain(T.Tick(due)), Plain(T.ExpireOp(due))] ==
      [Plain(T.AddOp(ms, cb, false, ts.clock)), ResetBegin(0, later, true), Plain(T.CancelOp(0)),
       ResetEnd(0), Plain(T.Tick(due)), Plain(T.ExpireOp(due))];
    assert [ResetEnd(0), Plain(T.Tick(due))] + [Plain(T.ExpireOp(due))] ==
      [ResetEnd(0), Plain(T.Tick(due)), Plain(T.ExpireOp(due))];
  }

  lemma RunNil(s: Sys)
    ensures Run(s, []) == Some(s)
  {}

  lemma DeadStays(s: Sys, now: int)
    requires Enabled(s, Plain(T.ExpireOp(now))) && |s.ts.tm.recs| == 1 && s.ts.tm.recs[0].cb.None?
    requires !s.ts.tm.recs[0].recurring
    ensures var recs := Apply(s, Plain(T.ExpireOp(now))).ts.tm.recs; |recs| == 1 && recs[0].cb.None?
  {
    hide Stuck, DuePart, ExpireAll;
    var tm, rollover := s.ts.tm.(previous := s.ts.clock), Rollover(s.ts.tm, s.ts.clock);
    SameStuck(s.ts.tm, tm, now, rollover);
    PassTakesTheDue(tm, now, rollover);
  }

  /** The timer is added, its reset begins, and it is cancelled. */
  lemma UpToCancel(s: Sys, ms: nat, later: nat, cb: Callback, ops: seq<Op>) returns (s3: Sys)
    requires T.Init(s.ts) && s.gaps == []
    ensures s3.gaps == [Gap(0, later, true)] && s3.ts.clock == s.ts.clock && s3.ts.fired == []
    ensures s3.ts.tm.order == [] && s3.ts.tm.previous == s.ts.clock
    ensures s3.ts.tm.recs == [Record(false, ms, s.ts.clock + Delay(ms), None)]
    ensures Run(s, [Plain(T.AddOp(ms, cb, false, s.ts.clock)), ResetBegin(0, later, true), Plain(T.CancelOp(0))] + ops)
      == Run(s3, ops)
  {
    hide Run;
    var add := Plain(T.AddOp(ms, cb, false, s.ts.clock));
    var begin, cancel := ResetBegin(0, later, true), Plain(T.CancelOp(0));
    var s1 := Apply(s, add);
    assert s1.ts.tm.order == [0];
    var s2 := Apply(s1, begin);
    assert s2.ts.tm.order == [];
    s3 := Apply(s2, cancel);
    RunCons(s2, cancel, ops);
    RunCons(s1, begin, [cancel] + ops);
    RunCons(s, add, [begin] + ([cancel] + ops));
    assert [add, begin, cancel] + ops == [add] + ([begin] + ([cancel] + ops));
  }

  /** The reset ends, and time passes until the new deadline. */
  lemma UpToDue(s: Sys, later: nat, ops: seq<Op>) returns (s5: Sys)
    requires s.gaps == [Gap(0, later, true)] && s.ts.tm.order == [] && |s.ts.tm.recs| == 1
    requires s.ts.tm.recs[0].cb.None? && !s.ts.tm.recs[0].recurring && s.ts.tm.previous == s.ts.clock
    ensures var due := s.ts.clock + Delay(later);
      && s5.ts.clock == due && s5.ts.fired == s.ts.fired && s5.ts.tm.order == [0] && Valid(s5.ts.tm)
      && s5.ts.tm.previous == s.ts.clock
      && s5.ts.tm.recs == [s.ts.tm.recs[0].(ms := later, next := due)]
      && Run(s, [ResetEnd(0), Plain(T.Tick(due))] + ops) == Run(s5, ops)
  {
    hide Run;
    var tick := Plain(T.Tick(s.ts.clock + Delay(later)));
    var s4 := Apply(s, ResetEnd(0));
    assert s4.ts.tm.order == [0];
    s5 := Apply(s4, tick);
    RunCons(s4, tick, ops);
    RunCons(s, ResetEnd(0), [tick] + ops);
    assert [ResetEnd(0), tick] + ops == [ResetEnd(0)] + ([tick] + ops);
  }
}
