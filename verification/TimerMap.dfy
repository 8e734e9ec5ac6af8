/** The ordered set refines a plain map from live timers to deadlines, exactly as long as no
    insertion meets a deadline that is taken. */
module TimerMap {
  import opened Common
  import opened TimerModel
  import opened TimerExpiry
  import opened TimerRuns

  datatype Plain = Plain(recurring: bool, ms: nat, deadline: int)

  type PlainMap = map<TimerId, Plain>

  /** The timers that still have a callback, as a caller thinks of them. */
  ghost function Abs(s: State): PlainMap {
    map t | 0 <= t < |s.recs| && s.recs[t].cb.Some? :: Plain(s.recs[t].recurring, s.recs[t].ms, s.recs[t].next)
  }

  /** A timer is in the set exactly when it has a callback. */
  ghost predicate Exact(s: State) {
    forall t | 0 <= t < |s.recs| :: t in s.order <==> s.recs[t].cb.Some?
  }

  /** What each operation means on the plain map; `id` is the next free timer id. */
  ghost function Meaning(m: PlainMap, id: TimerId, clock: int, op: Op): PlainMap {
    match op
    case AddOp(ms, cb, recurring, start) => m[id := Plain(recurring, ms, start + Delay(ms))]
    case CancelOp(t) => m - {t}
    case RefreshOp(t) => if t in m then m[t := m[t].(deadline := clock + Delay(m[t].ms))] else m
    case ResetOp(t, ms, fromNow) =>
      if t !in m || (ms == m[t].ms && !fromNow) then m
      else m[t := m[t].(ms := ms, deadline := (if fromNow then clock else m[t].deadline - Delay(m[t].ms)) + Delay(ms))]
    case ExpireOp(now) =>
      map t | t in m && (m[t].recurring || now < m[t].deadline) ::
        if m[t].deadline <= now then m[t].(deadline := now + Delay(m[t].ms)) else m[t]
    case _ => m
  }

  /** No live timer but `t` has deadline `key`. */
  ghost predicate Free(m: PlainMap, t: TimerId, key: int) {
    forall u | u in m && u != t :: m[u].deadline != key
  }

  /** Every deadline that the operation inserts is free: a condition on the map before the call. */
  ghost predicate Fresh(m: PlainMap, id: TimerId, clock: int, op: Op) {
    var m' := Meaning(m, id, clock, op);
    match op
    case AddOp(_, _, _, _) => Free(m, id, m'[id].deadline)
    case RefreshOp(t) => t in m ==> Free(m, t, m'[t].deadline)
    case ResetOp(t, _, _) => t in m ==> Free(m, t, m'[t].deadline)
    case ExpireOp(now) =>
      forall t | t in m && m[t].recurring && m[t].deadline <= now :: m[t].ms > 0 && Free(m', t, m'[t].deadline)
    case _ => true
  }

  lemma {:induction false} DeadlineNames(recs: seq<Record>, order: seq<TimerId>, u: TimerId, v: TimerId)
    requires Ordered(recs, order) && u in order && v in order && u < |recs| && v < |recs|
    requires recs[u].next == recs[v].next
    ensures u == v
  {
    HeadOrRest(order);
    if u in order[1..] && v in order[1..] { DeadlineNames(recs, order[1..], u, v); }
  }

  /** In an exact set a timer's deadline finds that timer. */
  lemma FindsItself(s: State, t: TimerId)
    requires Valid(s) && Exact(s) && t < |s.recs| && s.recs[t].cb.Some?
    ensures FindKey(s.recs, s.order, s.recs[t].next) == Some(t)
    ensures forall u :: u in EraseKey(s.recs, s.order, s.recs[t].next) <==> u in s.order && u != t
  {
    Members(s.recs, s.order);
    forall u | u in s.order && s.recs[u].next == s.recs[t].next ensures u == t {
      DeadlineNames(s.recs, s.order, u, t);
    }
  }

  lemma AddAppends(s: Sys, op: Op)
    requires Inv(s) && Enabled(s, op) && op.AddOp?
    ensures var tm' := Apply(s, op).tm;
      var recs := s.tm.recs + [Record(op.recurring, op.ms, op.start + Delay(op.ms), Some(op.cb))];
      Ordered(recs, s.tm.order) && tm'.recs == recs && tm'.order == Insert(recs, s.tm.order, |s.tm.recs|)
  {
    hide Ordered, Insert;
    Members(s.tm.recs, s.tm.order);
    var recs := s.tm.recs + [Record(op.recurring, op.ms, op.start + Delay(op.ms), Some(op.cb))];
    OrderedFrame(s.tm.recs, recs, s.tm.order);
  }

  lemma AddRefines(s: Sys, op: Op)
    requires Inv(s) && Exact(s.tm) && Enabled(s, op) && op.AddOp?
    ensures Exact(Apply(s, op).tm) <==> Fresh(Abs(s.tm), |s.tm.recs|, s.clock, op)
    ensures Abs(Apply(s, op).tm) == Meaning(Abs(s.tm), |s.tm.recs|, s.clock, op)
  {
    hide Ordered, Insert, Apply;
    AddAppends(s, op);
    Members(s.tm.recs, s.tm.order);
    var id, m, tm' := |s.tm.recs|, Abs(s.tm), Apply(s, op).tm;
    var key := op.start + Delay(op.ms);
    assert Free(m, id, key) <==> !Taken(tm'.recs, s.tm.order, key) by {
      if Taken(tm'.recs, s.tm.order, key) {
        var u :| u in s.tm.order && u < |tm'.recs| && tm'.recs[u].next == key;
        assert u in m && u != id && m[u].deadline == key;
      }
      if u :| u in m && u != id && m[u].deadline == key { assert u in s.tm.order && tm'.recs[u].next == key; }
    }
  }

  lemma CancelRefines(s: Sys, t: TimerId)
    requires Inv(s) && Exact(s.tm) && Enabled(s, CancelOp(t))
    ensures Exact(Apply(s, CancelOp(t)).tm)
    ensures Abs(Apply(s, CancelOp(t)).tm) == Meaning(Abs(s.tm), |s.tm.recs|, s.clock, CancelOp(t))
  {
    hide Ordered, EraseKey, Inv, Exact, Abs, Apply;
    ValidNow(s);
    AbsAt(s.tm, t);
    if s.tm.recs[t].cb.Some? {
      FindsItself(s.tm, t);
      CancelErases(s, t);
      KilledIsRemoved(s.tm, Apply(s, CancelOp(t)).tm, t);
    } else {
      DeadCancelsNothing(s, t);
      assert Abs(s.tm) - {t} == Abs(s.tm);
    }
  }

  lemma DeadCancelsNothing(s: Sys, t: TimerId)
    requires Enabled(s, CancelOp(t)) && s.tm.recs[t].cb.None?
    ensures Apply(s, CancelOp(t)) == s
  {}

  lemma KilledIsRemoved(s: State, s': State, t: TimerId)
    requires Exact(s) && t < |s.recs| && s'.recs == s.recs[t := s.recs[t].(cb := None)]
    requires forall u :: u in s'.order <==> u in s.order && u != t
    ensures Exact(s') && Abs(s') == Abs(s) - {t}
  {}

  lemma ValidNow(s: Sys)
    requires Inv(s)
    ensures Valid(s.tm)
  {}

  lemma CancelErases(s: Sys, t: TimerId)
    requires Enabled(s, CancelOp(t)) && s.tm.recs[t].cb.Some?
    ensures var tm' := Apply(s, CancelOp(t)).tm;
      && tm'.recs == s.tm.recs[t := s.tm.recs[t].(cb := None)]
      && forall u :: u in tm'.order <==> u in EraseKey(s.tm.recs, s.tm.order, s.tm.recs[t].next)
  {
    hide Ordered, EraseKey;
    Members(s.tm.recs, s.tm.order);
  }

  lemma RefreshRefines(s: Sys, t: TimerId)
    requires Inv(s) && Exact(s.tm) && Enabled(s, RefreshOp(t))
    ensures Exact(Apply(s, RefreshOp(t)).tm) <==> Fresh(Abs(s.tm), |s.tm.recs|, s.clock, RefreshOp(t))
    ensures Abs(Apply(s, RefreshOp(t)).tm) == Meaning(Abs(s.tm), |s.tm.recs|, s.clock, RefreshOp(t))
  {
    hide Ordered, TakeOut, FindKey, Insert, Exact, Abs, Free;
    var rec := s.tm.recs[t];
    AbsAt(s.tm, t);
    if rec.cb.Some? {
      FindsItself(s.tm, t);
      MoveIsExact(s.tm, Apply(s, RefreshOp(t)).tm, t, rec.(next := s.clock + Delay(rec.ms)));
    }
  }

  lemma AbsAt(s: State, t: TimerId)
    requires t < |s.recs|
    ensures t in Abs(s) <==> s.recs[t].cb.Some?
    ensures t in Abs(s) ==> Abs(s)[t] == Plain(s.recs[t].recurring, s.recs[t].ms, s.recs[t].next)
  {}

  lemma ResetRefines(s: Sys, t: TimerId, ms: nat, fromNow: bool)
    requires Inv(s) && Exact(s.tm) && Enabled(s, ResetOp(t, ms, fromNow))
    ensures Exact(Apply(s, ResetOp(t, ms, fromNow)).tm) <==>
      Fresh(Abs(s.tm), |s.tm.recs|, s.clock, ResetOp(t, ms, fromNow))
    ensures Abs(Apply(s, ResetOp(t, ms, fromNow)).tm) ==
      Meaning(Abs(s.tm), |s.tm.recs|, s.clock, ResetOp(t, ms, fromNow))
  {
    hide Ordered, TakeOut, FindKey, Insert, Enqueue, Exact, Abs, Free;
    var rec := s.tm.recs[t];
    AbsAt(s.tm, t);
    if rec.cb.Some? && !(ms == rec.ms && !fromNow) {
      FindsItself(s.tm, t);
      ResetMoves(s, t, ms, fromNow);
      MoveIsExact(s.tm, Apply(s, ResetOp(t, ms, fromNow)).tm, t, Moved(s, t, ms, fromNow));
    } else if rec.cb.Some? {
      SameDeadlineIsFree(s.tm, t);
    }
  }

  /** What a reset that goes through makes of the timer. */
  ghost function Moved(s: Sys, t: TimerId, ms: nat, fromNow: bool): Record
    requires t < |s.tm.recs|
  {
    var rec := s.tm.recs[t];
    rec.(ms := ms, next := (if fromNow then s.clock else rec.next - Delay(rec.ms)) + Delay(ms))
  }

  lemma ResetMoves(s: Sys, t: TimerId, ms: nat, fromNow: bool)
    requires Enabled(s, ResetOp(t, ms, fromNow)) && s.tm.recs[t].cb.Some? && !(ms == s.tm.recs[t].ms && !fromNow)
    requires FindKey(s.tm.recs, s.tm.order, s.tm.recs[t].next).Some?
    ensures var tm', s1 := Apply(s, ResetOp(t, ms, fromNow)).tm, TakeOut(s.tm, t, Moved(s, t, ms, fromNow));
      tm'.recs == s1.recs && tm'.order == Insert(s1.recs, s1.order, t)
  {
    hide Ordered, TakeOut, FindKey, Insert, Enqueue;
    EnqueueFlag(TakeOut(s.tm, t, Moved(s, t, ms, fromNow)), t);
  }

  lemma SameDeadlineIsFree(s: State, t: TimerId)
    requires Valid(s) && Exact(s) && t < |s.recs| && s.recs[t].cb.Some?
    ensures Free(Abs(s), t, s.recs[t].next)
  {
    forall u | u in Abs(s) && u != t ensures Abs(s)[u].deadline != s.recs[t].next {
      if s.recs[u].next == s.recs[t].next { DeadlineNames(s.recs, s.order, u, t); }
    }
  }

  /** Taking a live timer out, changing it and putting it back moves that timer on the map, and is exact
      when its new deadline is free. */
  lemma MoveIsExact(s: State, s': State, t: TimerId, rec: Record)
    requires Valid(s) && Exact(s) && t < |s.recs| && s.recs[t].cb.Some? && rec.cb.Some?
    requires var s1 := TakeOut(s, t, rec); s'.recs == s1.recs && s'.order == Insert(s1.recs, s1.order, t)
    ensures Exact(s') <==> Free(Abs(s), t, rec.next)
    ensures Abs(s') == Abs(s)[t := Plain(rec.recurring, rec.ms, rec.next)]
  {
    hide Ordered, EraseKey, Insert, TakeOut;
    var s1 := TakeOut(s, t, rec);
    TakenOutAlone(s, t, rec);
    assert forall u | 0 <= u < |s.recs| && u != t :: s'.recs[u] == s.recs[u];
    assert s'.recs[t] == rec && |s'.recs| == |s.recs|;
    ExactAfterInsert(s, s1, s', t);
  }

  /** In an exact set, taking `t` out takes nothing else out. */
  lemma TakenOutAlone(s: State, t: TimerId, rec: Record)
    requires Valid(s) && Exact(s) && t < |s.recs| && s.recs[t].cb.Some?
    ensures var s1 := TakeOut(s, t, rec);
      && (forall u :: u in s1.order <==> u in s.order && u != t)
      && (!Taken(s1.recs, s1.order, rec.next) <==> Free(Abs(s), t, rec.next))
  {
    hide Ordered, EraseKey, Insert, TakeOut;
    FindsItself(s, t);
    var s1 := TakeOut(s, t, rec);
    Members(s.recs, s.order);
    assert forall u :: u in s1.order <==> u in s.order && u != t;
    TakenIsNotFree(s, s1, t, rec.next);
  }

  lemma ExactAfterInsert(s: State, s1: State, s': State, t: TimerId)
    requires Exact(s) && Valid(s1) && t < |s.recs| && |s1.recs| == |s.recs| && s'.recs == s1.recs
    requires s'.order == Insert(s1.recs, s1.order, t) && s1.recs[t].cb.Some? && t !in s1.order
    requires forall u | 0 <= u < |s.recs| && u != t :: s1.recs[u] == s.recs[u]
    requires forall u :: u in s1.order <==> u in s.order && u != t
    ensures Exact(s') <==> !Taken(s1.recs, s1.order, s1.recs[t].next)
  {
    hide Ordered, Insert;
    assert Exact(s') ==> t in s'.order;
  }

  lemma TakenIsNotFree(s: State, s1: State, t: TimerId, key: int)
    requires Exact(s) && t < |s.recs| && |s1.recs| == |s.recs|
    requires forall u | 0 <= u < |s.recs| && u != t :: s1.recs[u] == s.recs[u]
    requires forall u :: u in s1.order <==> u in s.order && u != t
    requires forall u | u in s.order :: u < |s.recs|
    ensures Free(Abs(s), t, key) <==> !Taken(s1.recs, s1.order, key)
  {
    if Taken(s1.recs, s1.order, key) {
      var u :| u in s1.order && u < |s1.recs| && s1.recs[u].next == key;
      assert u in Abs(s) && u != t && Abs(s)[u].deadline == key;
    }
    if u :| u in Abs(s) && u != t && Abs(s)[u].deadline == key {
      assert u in s1.order && s1.recs[u].next == key;
    }
  }

  lemma ExpireRefines(s: Sys, now: int)
    requires Inv(s) && Exact(s.tm) && Enabled(s, ExpireOp(now))
    ensures Exact(Apply(s, ExpireOp(now)).tm) <==> Fresh(Abs(s.tm), |s.tm.recs|, s.clock, ExpireOp(now))
    ensures Abs(Apply(s, ExpireOp(now)).tm) == Meaning(Abs(s.tm), |s.tm.recs|, s.clock, ExpireOp(now))
  {
    ExpireMeaning(s, now);
    hide *;
    if Exact(Apply(s, ExpireOp(now)).tm) { ExactIsFresh(s, now); }
    if Fresh(Abs(s.tm), |s.tm.recs|, s.clock, ExpireOp(now)) { FreshIsExact(s, now); }
  }

  lemma ExpireMeaning(s: Sys, now: int)
    requires Inv(s) && Exact(s.tm) && Enabled(s, ExpireOp(now))
    ensures Abs(Apply(s, ExpireOp(now)).tm) == Meaning(Abs(s.tm), |s.tm.recs|, s.clock, ExpireOp(now))
  {
    hide Ordered, DuePart, Apply, Stuck;
    ExpireShape(s, now);
    DueIs(s.tm, now);
  }

  lemma DueIs(s: State, now: int)
    requires Valid(s)
    ensures forall u :: u in DuePart(s, now, false) <==> u in s.order && u < |s.recs| && s.recs[u].next <= now
  {}

  lemma ExactIsFresh(s: Sys, now: int)
    requires Inv(s) && Exact(s.tm) && Enabled(s, ExpireOp(now)) && Exact(Apply(s, ExpireOp(now)).tm)
    ensures Fresh(Abs(s.tm), |s.tm.recs|, s.clock, ExpireOp(now))
  {
    hide Ordered, DuePart, Apply, Stuck;
    ExpireShape(s, now);
    DueIs(s.tm, now);
    ExpiryKeepsPositivePeriods(s, now);
    var s', m := Apply(s, ExpireOp(now)), Abs(s.tm);
    var m' := Meaning(m, |s.tm.recs|, s.clock, ExpireOp(now));
    forall t | t in m && m[t].recurring && m[t].deadline <= now ensures m[t].ms > 0 && Free(m', t, m'[t].deadline) {
      assert t in s'.tm.order;
      forall u | u in m' && u != t ensures m'[u].deadline != m'[t].deadline {
        assert u in s'.tm.order && m'[u].deadline == s'.tm.recs[u].next;
        if m'[u].deadline == m'[t].deadline { DeadlineNames(s'.tm.recs, s'.tm.order, u, t); }
      }
    }
  }

  /** A recurring timer that an expiry pass leaves in the set has a positive period. */
  lemma ExpiryKeepsPositivePeriods(s: Sys, now: int)
    requires Inv(s) && Enabled(s, ExpireOp(now))
    ensures forall u | u in DuePart(s.tm, now, false) && u in Apply(s, ExpireOp(now)).tm.order ::
      u < |s.tm.recs| && s.tm.recs[u].ms > 0
    ensures forall d :: Taken(Apply(s, ExpireOp(now)).tm.recs, Apply(s, ExpireOp(now)).tm.order, d) <==>
                        (now < d && Taken(s.tm.recs, s.tm.order, d)) || Rearmed(s.tm, DuePart(s.tm, now, false), now, d)
    ensures forall u | u in s.tm.order && u !in DuePart(s.tm, now, false) :: u in Apply(s, ExpireOp(now)).tm.order
  {
    hide Ordered, ExpireAll, Stuck;
    var s0 := s.tm.(previous := s.clock);
    assert Stuck(s0, now, false) == Stuck(s.tm, now, false) by { StuckFrame(s.tm, s0, now); }
    PassTakesTheDue(s0, now, false);
    PassLeaves(s0, now);
    assert DuePart(s0, now, false) == DuePart(s.tm, now, false);
    hide DuePart;
    forall d ensures Rearmed(s0, DuePart(s.tm, now, false), now, d) <==>
      Rearmed(s.tm, DuePart(s.tm, now, false), now, d) {}
  }

  lemma FreshIsExact(s: Sys, now: int)
    requires Inv(s) && Exact(s.tm) && Enabled(s, ExpireOp(now)) && Fresh(Abs(s.tm), |s.tm.recs|, s.clock, ExpireOp(now))
    ensures Exact(Apply(s, ExpireOp(now)).tm)
  {
    hide Ordered, DuePart, Apply, Stuck;
    ExpireShape(s, now);
    DueIs(s.tm, now);
    ExpiryKeepsPositivePeriods(s, now);
    var s', m := Apply(s, ExpireOp(now)), Abs(s.tm);
    var m' := Meaning(m, |s.tm.recs|, s.clock, ExpireOp(now));
    forall t | 0 <= t < |s.tm.recs| ensures t in s'.tm.order <==> s'.tm.recs[t].cb.Some? {
      if t in DuePart(s.tm, now, false) && s.tm.recs[t].recurring {
        assert t in m;
        var d := now + Delay(s.tm.recs[t].ms);
        assert Rearmed(s.tm, DuePart(s.tm, now, false), now, d);
        var u :| u in s'.tm.order && u < |s'.tm.recs| && s'.tm.recs[u].next == d;
        assert u in m' && m'[u].deadline == d;
      }
    }
  }

  /** Each operation acts on the plain map as its meaning says; the set stays exact if and only if the
      operation's insertions are fresh. */
  lemma StepRefines(s: Sys, op: Op)
    requires Inv(s) && Exact(s.tm) && Enabled(s, op)
    ensures Exact(Apply(s, op).tm) <==> Fresh(Abs(s.tm), |s.tm.recs|, s.clock, op)
    ensures Abs(Apply(s, op).tm) == Meaning(Abs(s.tm), |s.tm.recs|, s.clock, op)
  {
    hide Ordered;
    match op
    case AddOp(_, _, _, _) => AddRefines(s, op);
    case CancelOp(t) => CancelRefines(s, t);
    case RefreshOp(t) => RefreshRefines(s, t);
    case ResetOp(t, ms, fromNow) => ResetRefines(s, t, ms, fromNow);
    case ExpireOp(now) => ExpireRefines(s, now);
    case _ =>
  }

  /** Every operation of the run is fresh when it comes. */
  ghost predicate FreshRun(s: Sys, ops: seq<Op>)
    decreases |ops|
  {
    ops == [] || (Enabled(s, ops[0]) && Fresh(Abs(s.tm), |s.tm.recs|, s.clock, ops[0])
      && FreshRun(Apply(s, ops[0]), ops[1..]))
  }

  lemma {:induction false} FreshRunIsExact(s: Sys, ops: seq<Op>)
    requires Inv(s) && Exact(s.tm) && FreshRun(s, ops)
    ensures Run(s, ops).Some? && Exact(Run(s, ops).value.tm)
    decreases |ops|
  {
    if ops != [] {
      StepKeepsInv(s, ops[0]);
      StepRefines(s, ops[0]);
      FreshRunIsExact(Apply(s, ops[0]), ops[1..]);
    }
  }

  /** Without freshness it fails: the second of two timers with one deadline is dropped, and cancelling
      it takes the first out of the set, which will then never fire. */
  lemma CollisionLosesATimer(cb: Callback)
    ensures var s0 := State([], [], false, 0);
      var s1 := Add(s0, 5, cb, false, 0).0;
      var s2 := Add(s1, 5, cb, false, 0).0;
      var s3 := Cancel(s2, 1).0;
      s2.order == [0] && s3.order == [] && s3.recs[0].cb.Some?
  {
    var s0 := State([], [], false, 0);
    var s1 := Add(s0, 5, cb, false, 0).0;
    assert s1.order == [0];
    var s2 := Add(s1, 5, cb, false, 0).0;
    assert s2.order == [0];
  }
}
