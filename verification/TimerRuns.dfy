/** Any run of the timer manager under many workers: the shared wake-up flag loses no wake-up, a
    one-shot timer fires at most once and a cancelled timer never fires again. */
module TimerRuns {
  import opened Common
  import opened TimerModel
  import opened TimerExpiry

  const MAX_TIMEOUT: nat := 5000

  /** What one worker knows: the earliest deadline at its last `getNextTimer` (None if there was no
      timer), and whether a front insertion has asked for a wake-up since. */
  datatype View = View(seen: Option<int>, woken: bool)

  /** `fired` lists the timers handed out by expiry passes so far. */
  datatype Sys = Sys(tm: State, clock: int, views: seq<View>, fired: seq<TimerId>)

  /** `start` and the `now` of an expiry pass are clock readings taken before the lock was. */
  datatype Op =
    | Tick(now: int)
    | AddOp(ms: nat, cb: Callback, recurring: bool, start: int)
    | CancelOp(t: TimerId)
    | RefreshOp(t: TimerId)
    | ResetOp(t: TimerId, ms: nat, fromNow: bool)
    | ReadNext(w: nat)
    | ExpireOp(now: int)

  ghost predicate Enabled(s: Sys, op: Op) {
    Valid(s.tm) &&
    match op
    case Tick(now) => s.clock <= now
    case AddOp(_, _, _, start) => start <= s.clock
    case CancelOp(t) => t < |s.tm.recs|
    case RefreshOp(t) => t < |s.tm.recs|
    case ResetOp(t, _, _) => t < |s.tm.recs|
    case ReadNext(w) => w < |s.views|
    case ExpireOp(now) => now <= s.clock && !Stuck(s.tm, now, Rollover(s.tm, s.clock))
  }

  function Wake(views: seq<View>, tickle: bool): (r: seq<View>)
    ensures |r| == |views|
    ensures forall i | 0 <= i < |r| :: r[i] == if tickle then views[i].(woken := true) else views[i]
  {
    if tickle then seq(|views|, i requires 0 <= i < |views| => views[i].(woken := true)) else views
  }

  function Earliest(tm: State): Option<int>
    requires Valid(tm)
  {
    if tm.order == [] then None else Some(tm.recs[tm.order[0]].next)
  }

  ghost function Apply(s: Sys, op: Op): Sys
    requires Enabled(s, op)
  {
    match op
    case Tick(now) => s.(clock := now)
    case AddOp(ms, cb, recurring, start) =>
      var (tm, tickle) := Add(s.tm, ms, cb, recurring, start);
      s.(tm := tm, views := Wake(s.views, tickle))
    case CancelOp(t) => s.(tm := Cancel(s.tm, t).0)
    case RefreshOp(t) => s.(tm := Refresh(s.tm, t, s.clock).0)
    case ResetOp(t, ms, fromNow) =>
      var (tm, _, tickle) := Reset(s.tm, t, ms, fromNow, s.clock);
      s.(tm := tm, views := Wake(s.views, tickle))
    case ReadNext(w) =>
      s.(tm := NextTimer(s.tm, s.clock).0, views := s.views[w := View(Earliest(s.tm), false)])
    case ExpireOp(now) =>
      var (tm, fired) := ListExpired(s.tm, now, s.clock);
      s.(tm := tm, fired := s.fired + fired)
  }

  ghost predicate Init(s: Sys) {
    && s.tm.recs == [] && s.tm.order == [] && !s.tm.tickled && s.tm.previous == s.clock && s.fired == []
    && forall w | 0 <= w < |s.views| :: s.views[w].woken
  }

  /** The state after the operations `ops`, if each is enabled in turn. */
  ghost function Run(s: Sys, ops: seq<Op>): Option<Sys>
    decreases |ops|
  {
    if ops == [] then Some(s)
    else if Enabled(s, ops[0]) then Run(Apply(s, ops[0]), ops[1..])
    else None
  }

  // ---------------------------------------------------------------- the invariant

  /** A worker not woken since its last read slept until a deadline that is still the earliest, or
      until an earlier one. */
  ghost predicate Covered(v: View, tm: State) {
    v.woken || forall u | u in tm.order :: u < |tm.recs| && v.seen.Some? && v.seen.value <= tm.recs[u].next
  }

  ghost predicate WakeUpInv(s: Sys) {
    && (s.tm.tickled ==> forall w | 0 <= w < |s.views| :: s.views[w].woken)
    && forall w | 0 <= w < |s.views| :: Covered(s.views[w], s.tm)
  }

  /** No timer's deadline is further off than its interval. */
  ghost predicate ClockInv(s: Sys) {
    && s.tm.previous <= s.clock
    && forall t | 0 <= t < |s.tm.recs| :: s.tm.recs[t].next - Delay(s.tm.recs[t].ms) <= s.clock
  }

  /** Only live timers are in the set, and a one-shot timer dies when it is handed out. */
  ghost predicate FiredInv(s: Sys) {
    && (forall t | t in s.tm.order :: t < |s.tm.recs| && s.tm.recs[t].cb.Some?)
    && (forall t | t in s.fired :: t < |s.tm.recs|)
    && forall t | 0 <= t < |s.tm.recs| && !s.tm.recs[t].recurring ::
         multiset(s.fired)[t] <= if s.tm.recs[t].cb.Some? then 0 else 1
  }

  ghost predicate Inv(s: Sys) { Valid(s.tm) && ClockInv(s) && WakeUpInv(s) && FiredInv(s) }

  /** What does not depend on the members being live. */
  ghost predicate SetInv(s: Sys) { Valid(s.tm) && ClockInv(s) && WakeUpInv(s) }

  lemma {:induction false} DeadlinesDistinct(recs: seq<Record>, order: seq<TimerId>, t: TimerId)
    requires Ordered(recs, order)
    ensures multiset(order)[t] <= 1
  {
    if order != [] {
      DeadlinesDistinct(recs, order[1..], t);
      assert order == [order[0]] + order[1..];
    }
  }

  lemma DueOnce(s: State, now: int, rollover: bool, t: TimerId)
    requires Valid(s)
    ensures multiset(DuePart(s, now, rollover))[t] <= 1
  {
    DeadlinesDistinct(s.recs, s.order, t);
    var due := DuePart(s, now, rollover);
    assert s.order == due + s.order[|due|..];
  }

  /** Inserting a timer that does not land at the front leaves the earliest deadline alone. */
  lemma EnqueueCovers(s: State, s1: State, t: TimerId, v: View)
    requires Covered(v, s) && Valid(s1) && t < |s1.recs| && !Enqueue(s1, t).1
    requires s1.tickled ==> v.woken
    requires forall u | u in s1.order && u != t ::
      u in s.order && u < |s1.recs| && u < |s.recs| && s1.recs[u].next == s.recs[u].next
    ensures Covered(v, Enqueue(s1, t).0)
  {
    if !v.woken {
      assert s1.order != [] && s1.recs[s1.order[0]].next < s1.recs[t].next;
      assert s1.order[0] in s1.order;
    }
  }

  /** Changing `t` alone, off the set, keeps a worker covered when the set only shrinks. */
  lemma CoverFrame(s: State, s': State, v: View)
    requires Covered(v, s)
    requires forall u | u in s'.order ::
      u in s.order && u < |s'.recs| && u < |s.recs| && s'.recs[u].next == s.recs[u].next
    ensures Covered(v, s')
  {}

  lemma AddKeeps(s: Sys, ms: nat, cb: Callback, recurring: bool, start: int)
    requires SetInv(s) && Enabled(s, AddOp(ms, cb, recurring, start))
    ensures SetInv(Apply(s, AddOp(ms, cb, recurring, start)))
  {
    hide Ordered, Insert;
    var s1 := s.tm.(recs := s.tm.recs + [Record(recurring, ms, start + Delay(ms), Some(cb))]);
    Members(s.tm.recs, s.tm.order);
    assert Valid(s1) by { OrderedFrame(s.tm.recs, s1.recs, s.tm.order); }
    var s' := Apply(s, AddOp(ms, cb, recurring, start));
    assert (s'.tm, Enqueue(s1, |s.tm.recs|).1) == Enqueue(s1, |s.tm.recs|);
    EnqueueKeeps(s, s1, |s.tm.recs|);
  }

  /** The wake-up half of `addTimer`: no other timer's deadline has changed. */
  lemma EnqueueKeeps(s: Sys, s1: State, t: TimerId)
    requires WakeUpInv(s) && Valid(s1) && t < |s1.recs| && s1.tickled == s.tm.tickled
    requires forall u | u in s1.order && u != t ::
      u in s.tm.order && u < |s1.recs| && u < |s.tm.recs| && s1.recs[u].next == s.tm.recs[u].next
    ensures var (tm, tickle) := Enqueue(s1, t); WakeUpInv(s.(tm := tm, views := Wake(s.views, tickle)))
  {
    hide Ordered, Insert, Enqueue;
    var (tm, tickle) := Enqueue(s1, t);
    assert tm.tickled == (s1.tickled || tickle) by { EnqueueFlag(s1, t); }
    if !tickle {
      forall w | 0 <= w < |s.views| ensures Covered(s.views[w], tm) {
        EnqueueCovers(s.tm, s1, t, s.views[w]);
      }
    }
  }

  lemma EnqueueFlag(s: State, t: TimerId)
    requires Valid(s) && t < |s.recs|
    ensures Enqueue(s, t).0 == s.(order := Insert(s.recs, s.order, t), tickled := s.tickled || Enqueue(s, t).1)
  {}

  lemma CancelKeeps(s: Sys, t: TimerId)
    requires SetInv(s) && Enabled(s, CancelOp(t))
    ensures SetInv(Apply(s, CancelOp(t)))
  {
    hide Ordered, EraseKey;
    var s' := Apply(s, CancelOp(t));
    assert Valid(s'.tm);
    Members(s.tm.recs, s.tm.order);
    forall w | 0 <= w < |s.views| ensures Covered(s.views[w], s'.tm) { CoverFrame(s.tm, s'.tm, s.views[w]); }
  }

  lemma RefreshKeeps(s: Sys, t: TimerId)
    requires SetInv(s) && Enabled(s, RefreshOp(t))
    ensures SetInv(Apply(s, RefreshOp(t)))
  {
    hide Ordered, TakeOut, Insert, FindKey;
    var s' := Apply(s, RefreshOp(t));
    var rec := s.tm.recs[t];
    if s' != s {
      assert s'.tm.recs == s.tm.recs[t := rec.(next := s.clock + Delay(rec.ms))];
      var found := FindKey(s.tm.recs, s.tm.order, rec.next).value;
      forall w | 0 <= w < |s.views| ensures Covered(s.views[w], s'.tm) {
        if !s.views[w].woken { assert s.views[w].seen.value <= s.tm.recs[found].next; }
      }
    }
  }

  /** `s1` has `t` out of the set with a new deadline and period; `s'` has it back in. */
  ghost predicate Reenqueued(s: Sys, t: TimerId, s1: State, s': Sys) {
    && t < |s.tm.recs| && t < |s1.recs| && Valid(s1)
    && s' == s.(tm := Enqueue(s1, t).0, views := Wake(s.views, Enqueue(s1, t).1))
    && s.tm.recs[t].cb.Some? && s1 == s.tm.(order := s1.order, recs := s.tm.recs[t := s1.recs[t]])
    && s1.recs[t].cb == s.tm.recs[t].cb && s1.recs[t].recurring == s.tm.recs[t].recurring
    && s1.recs[t].next - Delay(s1.recs[t].ms) <= s.clock
    && t !in s1.order && forall u | u in s1.order :: u in s.tm.order
  }

  /** A reset either changes nothing or enqueues the timer again, its record rewritten. */
  lemma ResetShape(s: Sys, t: TimerId, ms: nat, fromNow: bool) returns (s1: State)
    requires SetInv(s) && Enabled(s, ResetOp(t, ms, fromNow))
    ensures Apply(s, ResetOp(t, ms, fromNow)) == s || Reenqueued(s, t, s1, Apply(s, ResetOp(t, ms, fromNow)))
  {
    hide Ordered, Enqueue, FindKey, WakeUpInv, FiredInv;
    var rec := s.tm.recs[t];
    var start := if fromNow then s.clock else rec.next - Delay(rec.ms);
    s1 := TakeOut(s.tm, t, rec.(ms := ms, next := start + Delay(ms)));
  }

  lemma ResetKeeps(s: Sys, t: TimerId, ms: nat, fromNow: bool)
    requires SetInv(s) && Enabled(s, ResetOp(t, ms, fromNow))
    ensures SetInv(Apply(s, ResetOp(t, ms, fromNow)))
  {
    hide Ordered, Insert, Enqueue, Apply, WakeUpInv;
    var s1 := ResetShape(s, t, ms, fromNow);
    var s' := Apply(s, ResetOp(t, ms, fromNow));
    if s' != s {
      Members(s.tm.recs, s.tm.order);
      EnqueueKeeps(s, s1, t);
      EnqueueFlag(s1, t);
    }
  }

  /** What an expiry pass does, in the terms of a run. */
  lemma ExpireShape(s: Sys, now: int)
    requires SetInv(s) && Enabled(s, ExpireOp(now))
    ensures var s' := Apply(s, ExpireOp(now)); var due: seq<nat> := DuePart(s.tm, now, false);
      && s' == s.(tm := s'.tm, fired := s.fired + due) && Valid(s'.tm) && |s'.tm.recs| == |s.tm.recs|
      && s'.tm.tickled == s.tm.tickled && s'.tm.previous == s.clock
      && (forall u | u in due :: u in s.tm.order && u < |s.tm.recs| && s.tm.recs[u].next <= now)
      && (forall t | 0 <= t < |s.tm.recs| ::
         s'.tm.recs[t] == if t in due then Expired(s.tm.recs[t], now) else s.tm.recs[t])
      && (forall u | u in s'.tm.order ::
         u < |s.tm.recs| && (u in due ==> s.tm.recs[u].recurring) && (u !in due ==> u in s.tm.order))
  {
    hide Ordered, ExpireAll, Stuck;
    var s0 := s.tm.(previous := s.clock);
    assert Stuck(s0, now, false) == Stuck(s.tm, now, false) by { StuckFrame(s.tm, s0, now); }
    PassTakesTheDue(s0, now, false);
    PassLeaves(s0, now);
  }

  lemma ExpireKeeps(s: Sys, now: int)
    requires SetInv(s) && Enabled(s, ExpireOp(now))
    ensures SetInv(Apply(s, ExpireOp(now)))
  {
    hide Ordered, DuePart, Apply, Stuck;
    ExpireShape(s, now);
    var s' := Apply(s, ExpireOp(now));
    ExpireWakes(s, s', now, DuePart(s.tm, now, false));
  }

  lemma ExpireFires(s: Sys, now: int)
    requires Inv(s) && Enabled(s, ExpireOp(now))
    ensures FiredInv(Apply(s, ExpireOp(now)))
  {
    hide Ordered, DuePart, Apply, Stuck;
    ExpireShape(s, now);
    var s' := Apply(s, ExpireOp(now));
    var due: seq<nat> := DuePart(s.tm, now, false);
    forall t | 0 <= t < |s.tm.recs| && !s.tm.recs[t].recurring
      ensures multiset(s'.fired)[t] <= if s'.tm.recs[t].cb.Some? then 0 else 1
    {
      DueOnce(s.tm, now, false, t);
      assert multiset(s'.fired)[t] == multiset(s.fired)[t] + multiset(due)[t];
    }
  }

  lemma StuckFrame(s: State, s0: State, now: int)
    requires s0 == s.(previous := s0.previous)
    ensures Stuck(s0, now, false) == Stuck(s, now, false)
  {
    assert forall t | t in s.order && t < |s.recs| :: StuckAt(s, now, false, t) == StuckAt(s0, now, false, t);
  }

  lemma ExpireWakes(s: Sys, s': Sys, now: int, fired: seq<TimerId>)
    requires WakeUpInv(s) && s'.views == s.views && s'.tm.tickled == s.tm.tickled && |s'.tm.recs| == |s.tm.recs|
    requires forall u | u in fired :: u in s.tm.order && u < |s.tm.recs| && s.tm.recs[u].next <= now
    requires forall t | 0 <= t < |s.tm.recs| ::
      s'.tm.recs[t] == if t in fired then Expired(s.tm.recs[t], now) else s.tm.recs[t]
    requires forall u | u in s'.tm.order :: u < |s.tm.recs| && (u !in fired ==> u in s.tm.order)
    ensures WakeUpInv(s')
  {
    forall w | 0 <= w < |s.views| ensures Covered(s'.views[w], s'.tm) {
      var v := s.views[w];
      if !v.woken {
        forall u | u in s'.tm.order ensures v.seen.Some? && v.seen.value <= s'.tm.recs[u].next {
          if u in fired { assert v.seen.value <= s.tm.recs[u].next <= now; }
        }
      }
    }
  }

  lemma ReadKeeps(s: Sys, w: nat)
    requires SetInv(s) && Enabled(s, ReadNext(w))
    ensures SetInv(Apply(s, ReadNext(w)))
  {
    var s' := Apply(s, ReadNext(w));
    HeadOrRest(s.tm.order);
    forall i | 0 <= i < |s'.views| ensures Covered(s'.views[i], s'.tm) {
      if i != w { CoverFrame(s.tm, s'.tm, s.views[i]); }
    }
  }

  lemma FiredKeeps(s: Sys, op: Op)
    requires Inv(s) && Enabled(s, op)
    ensures FiredInv(Apply(s, op))
  {
    hide Ordered, EraseKey, Insert, TakeOut, FindKey, WakeUpInv;
    match op
    case AddOp(_, _, _, _) => assert |s.tm.recs| !in s.fired;
    case ExpireOp(now) => ExpireFires(s, now);
    case _ =>
  }

  lemma StepKeepsInv(s: Sys, op: Op)
    requires Inv(s) && Enabled(s, op)
    ensures Inv(Apply(s, op))
  {
    hide SetInv, FiredInv, Apply, Enabled;
    assert SetInv(s) by { InvSet(s); }
    StepKeepsSet(s, op);
    FiredKeeps(s, op);
    SetFired(Apply(s, op));
  }

  lemma InvSet(s: Sys)
    requires Inv(s)
    ensures SetInv(s)
  {}

  lemma SetFired(s: Sys)
    requires SetInv(s) && FiredInv(s)
    ensures Inv(s)
  {}

  lemma StepKeepsSet(s: Sys, op: Op)
    requires SetInv(s) && Enabled(s, op)
    ensures SetInv(Apply(s, op))
  {
    match op
    case Tick(now) =>
    case AddOp(ms, cb, recurring, start) => AddKeeps(s, ms, cb, recurring, start);
    case CancelOp(t) => CancelKeeps(s, t);
    case RefreshOp(t) => RefreshKeeps(s, t);
    case ResetOp(t, ms, fromNow) => ResetKeeps(s, t, ms, fromNow);
    case ReadNext(w) => ReadKeeps(s, w);
    case ExpireOp(now) => ExpireKeeps(s, now);
  }

  lemma {:induction false} RunKeepsInv(s: Sys, ops: seq<Op>)
    requires Inv(s) && Run(s, ops).Some?
    ensures Inv(Run(s, ops).value)
    decreases |ops|
  {
    if ops != [] {
      StepKeepsInv(s, ops[0]);
      RunKeepsInv(Apply(s, ops[0]), ops[1..]);
    }
  }

  // ---------------------------------------------------------------- what holds of every run

  /** No lost wake-up: if the earliest deadline is now earlier than the one worker `w` saw at its
      last read, or there is one and it saw none, a wake-up has been asked for since. */
  lemma NoLostWakeUp(s0: Sys, ops: seq<Op>, w: nat)
    requires Init(s0) && Run(s0, ops).Some? && w < |Run(s0, ops).value.views|
    ensures var s := Run(s0, ops).value;
      Valid(s.tm) &&
      (Earliest(s.tm).Some? && (s.views[w].seen.None? || Earliest(s.tm).value < s.views[w].seen.value) ==>
        s.views[w].woken)
  {
    RunKeepsInv(s0, ops);
    var s := Run(s0, ops).value;
    if s.tm.order != [] { assert s.tm.order[0] in s.tm.order; }
  }

  /** The set stays strictly sorted and holds only live timers, and `refresh` only moves later. */
  lemma RefreshMovesLater(s0: Sys, ops: seq<Op>, t: TimerId)
    requires Init(s0) && Run(s0, ops).Some? && t < |Run(s0, ops).value.tm.recs|
    ensures var s := Run(s0, ops).value;
      Valid(s.tm) && s.tm.recs[t].next <= Refresh(s.tm, t, s.clock).0.recs[t].next
  {
    RunKeepsInv(s0, ops);
  }

  /** A one-shot timer is handed out at most once. */
  lemma OneShotFiresOnce(s0: Sys, ops: seq<Op>, t: TimerId)
    requires Init(s0) && Run(s0, ops).Some? && t < |Run(s0, ops).value.tm.recs|
    requires !Run(s0, ops).value.tm.recs[t].recurring
    ensures multiset(Run(s0, ops).value.fired)[t] <= 1
  {
    RunKeepsInv(s0, ops);
  }

  ghost predicate Dead(s: Sys, t: TimerId) { t < |s.tm.recs| && s.tm.recs[t].cb.None? }

  lemma DeadStep(s: Sys, op: Op, t: TimerId)
    requires Inv(s) && Enabled(s, op) && Dead(s, t)
    ensures Dead(Apply(s, op), t)
    ensures multiset(Apply(s, op).fired)[t] == multiset(s.fired)[t]
  {
    hide Ordered, Insert, EraseKey, TakeOut, FindKey;
    match op
    case ExpireOp(now) =>
      hide DuePart, Apply, Stuck;
      ExpireShape(s, now);
      assert t !in DuePart(s.tm, now, false);
    case _ =>
  }

  lemma {:induction false} DeadRun(s: Sys, ops: seq<Op>, t: TimerId)
    requires Inv(s) && Run(s, ops).Some? && Dead(s, t)
    ensures multiset(Run(s, ops).value.fired)[t] == multiset(s.fired)[t]
    decreases |ops|
  {
    if ops != [] {
      StepKeepsInv(s, ops[0]);
      DeadStep(s, ops[0], t);
      DeadRun(Apply(s, ops[0]), ops[1..], t);
    }
  }

  /** Once `cancel` has run on a timer, no later operations ever hand it out again, even when its
      deadline collided with another timer's. */
  lemma CancelledNeverFires(s0: Sys, before: seq<Op>, t: TimerId, after: seq<Op>)
    requires Init(s0) && Run(s0, before).Some? && Enabled(Run(s0, before).value, CancelOp(t))
    requires Run(Apply(Run(s0, before).value, CancelOp(t)), after).Some?
    ensures var s := Run(s0, before).value;
      multiset(Run(Apply(s, CancelOp(t)), after).value.fired)[t] == multiset(s.fired)[t]
  {
    RunKeepsInv(s0, before);
    var s := Run(s0, before).value;
    StepKeepsInv(s, CancelOp(t));
    DeadRun(Apply(s, CancelOp(t)), after, t);
  }

  function Min(a: nat, b: nat): nat { if a < b then a else b }

  /** The sleep a worker chooses never ends after any member's deadline, is zero when one is overdue,
      and falls short of the earliest deadline by less than a millisecond unless capped. */
  lemma SleepEndsInTime(s: State, now: int)
    requires Valid(s)
    ensures var left := NextTimer(s, now).1; var sleep := Min(left, MAX_TIMEOUT);
      && (forall u | u in s.order ::
         u < |s.recs| && (now + Delay(sleep) <= s.recs[u].next || (s.recs[s.order[0]].next <= now && sleep == 0)))
      && (s.order != [] ==> s.recs[s.order[0]].next < now + Delay(left) + NS_PER_MS)
  {
    HeadOrRest(s.order);
    if s.order != [] {
      var time := s.recs[s.order[0]].next;
      if now < time { assert Delay((time - now) / NS_PER_MS) <= time - now; }
      assert forall u | u in s.order :: time <= s.recs[u].next;
    }
  }

  /** Exactly how long the worker sleeps, in milliseconds: not at all when some member is due within the next
      millisecond, the full five seconds when none is due before, the empty set included, and otherwise the whole
      milliseconds left to the earliest deadline. */
  lemma SleepIs(s: State, now: int)
    requires Valid(s)
    ensures var sleep := Min(NextTimer(s, now).1, MAX_TIMEOUT);
      && (sleep == 0 <==> exists u | u in s.order :: u < |s.recs| && s.recs[u].next < now + 1_000_000)
      && (sleep == 5000 <==> forall u | u in s.order :: u < |s.recs| && now + 5_000_000_000 <= s.recs[u].next)
      && (0 < sleep < 5000 ==> exists u | u in s.order ::
            u < |s.recs| && now + sleep * 1_000_000 <= s.recs[u].next < now + (sleep + 1) * 1_000_000)
  {
    HeadOrRest(s.order);
    Members(s.recs, s.order);
    if s.order != [] {
      var time := s.recs[s.order[0]].next;
      assert s.order[0] in s.order;
      assert forall u | u in s.order :: time <= s.recs[u].next;
      if now < time { assert time - now == (time - now) / NS_PER_MS * NS_PER_MS + (time - now) % NS_PER_MS; }
    }
  }

  /** What `getNextTimer` answers without timers is more than any time it answers otherwise could be capped to. */
  lemma NoTimerIsForever(s: State, now: int)
    requires Valid(s) && s.order == []
    ensures NextTimer(s, now).1 == 0xFFFF_FFFF_FFFF_FFFF
  {}

  // ---------------------------------------------------------------- expiry passes that never end

  /** A lone recurring timer, just added. */
  lemma LoneTimer(s0: Sys, ms: nat, cb: Callback)
    requires Init(s0)
    ensures var run := Run(s0, [AddOp(ms, cb, true, s0.clock)]);
      && run.Some? && run.value.clock == s0.clock && run.value.tm.previous == s0.clock && Valid(run.value.tm)
      && run.value.tm.recs == [Record(true, ms, s0.clock + Delay(ms), Some(cb))] && run.value.tm.order == [0]
  {
    var op := AddOp(ms, cb, true, s0.clock);
    assert [op][1..] == [];
    assert Run(s0, [op]) == Run(Apply(s0, op), []);
  }

  /** From a fresh system: with a recurring timer of period 0 the next expiry pass does not end. */
  lemma ZeroPeriodNeverEnds(s0: Sys, cb: Callback)
    requires Init(s0)
    ensures var run := Run(s0, [AddOp(0, cb, true, s0.clock)]);
      run.Some? && Valid(run.value.tm) && !Terminates(run.value.tm, run.value.clock, false)
  {
    hide Run;
    LoneTimer(s0, 0, cb);
    var s := Run(s0, [AddOp(0, cb, true, s0.clock)]).value;
    LoneIsStuck(s.tm, s.clock, false);
    ExpiryTerminatesIff(s.tm, s.clock, false);
  }

  /** From a fresh system: with any recurring timer, an expiry pass after the clock went back by more than an hour does
      not end. */
  lemma RolloverNeverEnds(s0: Sys, ms: nat, cb: Callback, now: int, clock: int)
    requires Init(s0) && clock < s0.clock - ROLLOVER_NS
    ensures var run := Run(s0, [AddOp(ms, cb, true, s0.clock)]);
      && run.Some? && Valid(run.value.tm) && Rollover(run.value.tm, clock)
      && !Terminates(run.value.tm.(previous := clock), now, true)
  {
    hide Run;
    LoneTimer(s0, ms, cb);
    var s := Run(s0, [AddOp(ms, cb, true, s0.clock)]).value;
    var tm := s.tm.(previous := clock);
    LoneIsStuck(tm, now, true);
    ExpiryTerminatesIff(tm, now, true);
  }

  lemma LoneIsStuck(tm: State, now: int, rollover: bool)
    requires |tm.recs| == 1 && tm.order == [0] && tm.recs[0].recurring
    requires rollover || (tm.recs[0].ms == 0 && tm.recs[0].next <= now)
    ensures Stuck(tm, now, rollover)
  {
    assert 0 in tm.order;
    assert StuckAt(tm, now, rollover, 0);
  }
}
