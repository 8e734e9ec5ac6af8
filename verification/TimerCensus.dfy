/** The scheduler counts timers. What its idle pass may take and leave is what an expiry pass of the timer manager does
    to those counts. */
module TimerCensus {
  import opened TimerModel
  import opened TimerExpiry
  import opened TimerReset
  import S = SchedulerModel

  function CountOf(rec: Record): S.Armed {
    if rec.recurring then if rec.cb.Some? then S.Armed(0, 1, 0, 0) else S.Armed(0, 0, 0, 1)
    else if rec.cb.Some? then S.Armed(1, 0, 0, 0)
    else S.Armed(0, 0, 1, 0)
  }

  function Plus(a: S.Armed, b: S.Armed): S.Armed {
    S.Armed(a.once + b.once, a.recurring + b.recurring, a.blank + b.blank, a.dead + b.dead)
  }

  /** How many timers of each kind are listed. */
  function Census(recs: seq<Record>, ts: seq<TimerId>): S.Armed {
    if ts == [] then S.UNARMED
    else Plus(if ts[0] < |recs| then CountOf(recs[ts[0]]) else S.UNARMED, Census(recs, ts[1..]))
  }

  /** How many of the listed timers have a callback. */
  function Callbacks(recs: seq<Record>, ts: seq<TimerId>): nat {
    if ts == [] then 0
    else (if ts[0] < |recs| && recs[ts[0]].cb.Some? then 1 else 0) + Callbacks(recs, ts[1..])
  }

  lemma {:induction false} CallbacksAre(recs: seq<Record>, ts: seq<TimerId>)
    ensures Callbacks(recs, ts) == Census(recs, ts).once + Census(recs, ts).recurring
  {
    if ts != [] { CallbacksAre(recs, ts[1..]); }
  }

  lemma {:induction false} CensusFrame(recs: seq<Record>, recs': seq<Record>, ts: seq<TimerId>)
    requires forall u | u in ts :: u < |recs| && u < |recs'| && recs'[u] == recs[u]
    ensures Census(recs', ts) == Census(recs, ts)
  {
    if ts != [] { CensusFrame(recs, recs', ts[1..]); }
  }

  lemma CensusCons(recs: seq<Record>, t: TimerId, ts: seq<TimerId>)
    ensures Census(recs, [t] + ts) == Plus(if t < |recs| then CountOf(recs[t]) else S.UNARMED, Census(recs, ts))
  {
    assert ([t] + ts)[1..] == ts;
  }

  lemma CensusNil(recs: seq<Record>)
    ensures Census(recs, []) == S.UNARMED
  {}

  lemma PlusRegroups(a: S.Armed, b: S.Armed, c: S.Armed)
    ensures Plus(Plus(a, b), c) == Plus(a, Plus(b, c)) && Plus(S.UNARMED, c) == c
  {}

  lemma {:induction false} CensusSplit(recs: seq<Record>, first: seq<TimerId>, second: seq<TimerId>)
    ensures Census(recs, first + second) == Plus(Census(recs, first), Census(recs, second))
    decreases |first|
  {
    hide *;
    if first == [] {
      assert first + second == second;
      CensusNil(recs);
      PlusRegroups(S.UNARMED, S.UNARMED, Census(recs, second));
    } else {
      var t, rest := first[0], first[1..];
      assert first == [t] + rest && first + second == [t] + (rest + second);
      CensusCons(recs, t, rest);
      CensusCons(recs, t, rest + second);
      CensusSplit(recs, rest, second);
      var one := if t < |recs| then CountOf(recs[t]) else S.UNARMED;
      PlusRegroups(one, Census(recs, rest), Census(recs, second));
    }
  }

  lemma {:induction false} InsertCounts(recs: seq<Record>, order: seq<TimerId>, t: TimerId)
    requires Ordered(recs, order) && t < |recs|
    ensures Census(recs, Insert(recs, order, t)) == if Taken(recs, order, recs[t].next) then Census(recs, order)
      else Plus(CountOf(recs[t]), Census(recs, order))
    decreases |order|
  {
    HeadOrRest(order);
    Members(recs, order);
    if order == [] || recs[t].next < recs[order[0]].next {
      assert ([t] + order)[1..] == order;
    } else if recs[t].next != recs[order[0]].next {
      InsertCounts(recs, order[1..], t);
      assert ([order[0]] + Insert(recs, order[1..], t))[1..] == Insert(recs, order[1..], t);
      assert Taken(recs, order, recs[t].next) == Taken(recs, order[1..], recs[t].next);
    }
  }

  lemma EmptyIff(recs: seq<Record>, ts: seq<TimerId>)
    requires forall u | u in ts :: u < |recs|
    ensures ts == [] <==> Census(recs, ts) == S.UNARMED
  {
    hide Census;
    if ts == [] {
      CensusNil(recs);
    } else {
      assert ts[0] in ts && ts == [ts[0]] + ts[1..];
      CensusCons(recs, ts[0], ts[1..]);
    }
  }

  /** What one turn of the loop does to the counts. */
  lemma TurnCounts(s: State, now: int)
    requires Valid(s) && s.order != []
    ensures s.order[0] < |s.recs|
    ensures var (s', rec) := (ExpireOne(s, now), s.recs[s.order[0]]);
      var (before, left) := (Census(s.recs, s.order), Census(s'.recs, s'.order));
      && (before == Plus(CountOf(rec), left) || (rec.recurring && before == left))
      && (rec.recurring ==> left != S.UNARMED)
  {
    hide ExpireOne, Ordered, Insert, Census;
    Turn(s, now);
    assert s.order == [s.order[0]] + s.order[1..];
    CensusCons(s.recs, s.order[0], s.order[1..]);
    var t, rest, s' := s.order[0], s.order[1..], ExpireOne(s, now);
    CensusFrame(s.recs, s'.recs, rest);
    if s.recs[t].recurring {
      InsertCounts(s'.recs, rest, t);
      Members(s'.recs, s'.order);
      EmptyIff(s'.recs, s'.order);
      InsertedSomething(s'.recs, rest, t);
    }
  }

  lemma InsertedSomething(recs: seq<Record>, order: seq<TimerId>, t: TimerId)
    requires Ordered(recs, order) && t < |recs|
    ensures Insert(recs, order, t) != []
  {}

  lemma DueMembers(s: State, now: int, rollover: bool)
    requires Valid(s)
    ensures forall u | u in DuePart(s, now, rollover) :: u in s.order && u < |s.recs|
  {
    Members(s.recs, s.order);
  }

  /** The due members are a part of the set. */
  lemma TakenAreThere(s: State, now: int, rollover: bool)
    requires Valid(s)
    ensures var (before, taken) := (Census(s.recs, s.order), Census(s.recs, DuePart(s, now, rollover)));
      taken.recurring <= before.recurring && taken.dead <= before.dead
  {
    var due := DuePart(s, now, rollover);
    assert s.order == due + s.order[|due|..];
    CensusSplit(s.recs, due, s.order[|due|..]);
  }

  /** A turn, and the pass that is left. */
  lemma Compose(one: S.Armed, before: S.Armed, mid: S.Armed, taken: S.Armed, left: S.Armed, rec: Record)
    requires one == CountOf(rec) && (before == Plus(one, mid) || (rec.recurring && before == mid))
    requires (rec.recurring ==> mid != S.UNARMED) && S.Passes(mid, taken, left)
    requires Plus(one, taken).recurring <= before.recurring && Plus(one, taken).dead <= before.dead
    ensures S.Passes(before, Plus(one, taken), left)
  {}

  /** An expiry pass takes and leaves what an idle pass of the scheduler may. */
  lemma {:induction false} PassPasses(s: State, now: int, rollover: bool)
    requires Valid(s) && !Stuck(s, now, rollover)
    ensures var (s', fired) := ExpireAll(s, now, rollover);
      S.Passes(Census(s.recs, s.order), Census(s.recs, fired), Census(s'.recs, s'.order))
    decreases |DuePart(s, now, rollover)|
  {
    if !Due(s, now, rollover) {
      assert ExpireAll(s, now, rollover) == (s, []);
    } else {
      hide Stuck, Ordered, ExpireOne, DuePart, Plus, CountOf, ExpireAll, Census, S.Passes;
      PassTurn(s, now, rollover);
      PassPasses(ExpireOne(s, now), now, rollover);
      OneMoreTurn(s, now, rollover);
    }
  }

  lemma OneMoreTurn(s: State, now: int, rollover: bool)
    requires Valid(s) && Due(s, now, rollover) && !Stuck(s, now, rollover)
    requires !Stuck(ExpireOne(s, now), now, rollover)
    requires var (s1, pass) := (ExpireOne(s, now), ExpireAll(ExpireOne(s, now), now, rollover));
      S.Passes(Census(s1.recs, s1.order), Census(s1.recs, pass.1), Census(pass.0.recs, pass.0.order))
    ensures var (s', fired) := ExpireAll(s, now, rollover);
      S.Passes(Census(s.recs, s.order), Census(s.recs, fired), Census(s'.recs, s'.order))
  {
    hide Stuck, Ordered, ExpireOne, DuePart, Plus, CountOf, ExpireAll, Census, S.Passes, Expired;
    TurnCounts(s, now);
    TakenByTurn(s, now, rollover);
    var s1, t := ExpireOne(s, now), s.order[0];
    var (s', fired1) := ExpireAll(s1, now, rollover);
    Compose(CountOf(s.recs[t]), Census(s.recs, s.order), Census(s1.recs, s1.order), Census(s1.recs, fired1),
      Census(s'.recs, s'.order), s.recs[t]);
  }

  /** What a pass takes is the first member and what the rest of the pass takes, and is a part of the set. */
  lemma TakenByTurn(s: State, now: int, rollover: bool)
    requires Valid(s) && Due(s, now, rollover) && !Stuck(s, now, rollover)
    ensures s.order[0] < |s.recs| && !Stuck(ExpireOne(s, now), now, rollover)
    ensures var (s1, one) := (ExpireOne(s, now), CountOf(s.recs[s.order[0]]));
      var (taken, before) := (Plus(one, Census(s1.recs, ExpireAll(s1, now, rollover).1)), Census(s.recs, s.order));
      && ExpireAll(s, now, rollover).0 == ExpireAll(s1, now, rollover).0
      && Census(s.recs, ExpireAll(s, now, rollover).1) == taken
      && taken.recurring <= before.recurring && taken.dead <= before.dead
  {
    hide Stuck, Ordered, ExpireOne, DuePart, Plus, CountOf, ExpireAll, Census, Expired;
    PassTurn(s, now, rollover);
    var s1, t := ExpireOne(s, now), s.order[0];
    PassTakesTheDue(s1, now, rollover);
    PassTakesTheDue(s, now, rollover);
    DueMembers(s1, now, rollover);
    CensusFrame(s.recs, s1.recs, ExpireAll(s1, now, rollover).1);
    TakenAreThere(s, now, rollover);
    CensusCons(s.recs, t, ExpireAll(s1, now, rollover).1);
  }

  /** In the scheduler's terms: when `listExpiredCb` returns, the idle pass has made its collecting step, and it owes as
      many callbacks as the timers handed out have. */
  lemma ListExpiredIsCollect(s: State, now: int, clock: int, sched: S.State, w: nat)
    requires Valid(s) && !Stuck(s, now, Rollover(s, clock))
    requires S.In(sched, w, S.IdlePass) && sched.timers == Census(s.recs, s.order)
    ensures var (s', fired) := ListExpired(s, now, clock);
      var step := S.Collect(w, Census(s.recs, fired), Census(s'.recs, s'.order));
      && S.Enabled(sched, step) && !S.Fails(sched, step)
      && S.Apply(sched, step) == S.At(sched, w, S.Scheduling(Callbacks(s.recs, fired)))
           .(timers := Census(s'.recs, s'.order))
  {
    hide S.Passes, Census, Stuck, ExpireAll;
    SameStuck(s, s.(previous := clock), now, Rollover(s, clock));
    PassPasses(s.(previous := clock), now, Rollover(s, clock));
    CallbacksAre(s.recs, ListExpired(s, now, clock).1);
  }
}
