/** The expiry pass: when its loop terminates, and what it hands out and leaves behind. */
module TimerExpiry {
  import opened Common
  import opened TimerModel

  /** The guard of the expiry loop. */
  predicate Due(s: State, now: int, rollover: bool)
    requires Valid(s)
  {
    s.order != [] && (rollover || s.recs[s.order[0]].next <= now)
  }

  /** What expiry makes of the timer it has just taken out of the set. */
  function Expired(rec: Record, now: int): Record {
    if rec.recurring then rec.(next := now + Delay(rec.ms)) else rec.(cb := None)
  }

  /** One turn of the loop: take the first timer out, and put it back if it recurs. */
  function ExpireOne(s: State, now: int): (r: State)
    requires Valid(s) && s.order != []
    ensures Valid(r)
  {
    var t, rest := s.order[0], s.order[1..];
    var recs := s.recs[t := Expired(s.recs[t], now)];
    OrderedFrame(s.recs, recs, rest);
    s.(recs := recs, order := if s.recs[t].recurring then Insert(recs, rest, t) else rest)
  }

  /** All the proofs below need to know about one turn. */
  lemma Turn(s: State, now: int)
    requires Valid(s) && s.order != []
    ensures var t, rest, s' := s.order[0], s.order[1..], ExpireOne(s, now);
      && t < |s.recs| && t !in rest
      && s' == s.(recs := s.recs[t := Expired(s.recs[t], now)], order := s'.order)
      && Ordered(s'.recs, rest)
      && s'.order == (if s.recs[t].recurring then Insert(s'.recs, rest, t) else rest)
      && (forall u | u in s.order :: u < |s.recs| && (u == t || u in rest))
      && (forall u | u in rest :: u < |s.recs| && s.recs[t].next < s.recs[u].next)
  {
    HeadOrRest(s.order);
    OrderedFrame(s.recs, ExpireOne(s, now).recs, s.order[1..]);
  }

  /** The state after at most `k` turns of the loop. */
  ghost function Iterate(s: State, now: int, rollover: bool, k: nat): (r: State)
    requires Valid(s)
    ensures Valid(r)
    decreases k
  {
    if k == 0 || !Due(s, now, rollover) then s else Iterate(ExpireOne(s, now), now, rollover, k - 1)
  }

  ghost predicate Terminates(s: State, now: int, rollover: bool)
    requires Valid(s)
  {
    exists k: nat :: !Due(Iterate(s, now, rollover, k), now, rollover)
  }

  /** Re-inserting `t` would find its new deadline taken by an element behind it. */
  ghost predicate Blocked(s: State, now: int, t: TimerId)
    requires t < |s.recs|
  {
    exists u | u in s.order ::
      u < |s.recs| && s.recs[u].next == now + Delay(s.recs[t].ms) && s.recs[t].next < s.recs[u].next
  }

  /** `t` will come back to the head of the loop for ever. */
  ghost predicate StuckAt(s: State, now: int, rollover: bool, t: TimerId)
    requires t < |s.recs|
  {
    && s.recs[t].recurring
    && (rollover || (s.recs[t].next <= now && s.recs[t].ms == 0))
    && !Blocked(s, now, t)
  }

  ghost predicate Stuck(s: State, now: int, rollover: bool) {
    exists t | t in s.order :: t < |s.recs| && StuckAt(s, now, rollover, t)
  }

  /** Recurring periods of at least a millisecond, or no recurring timer at a rollover, are enough. */
  lemma SafePeriods(s: State, now: int, rollover: bool)
    requires forall t | t in s.order :: t < |s.recs| && s.recs[t].recurring ==> !rollover && s.recs[t].ms >= 1
    ensures !Stuck(s, now, rollover)
  {}

  /** The members the pass takes out. */
  function DuePart(s: State, now: int, rollover: bool): (r: seq<TimerId>)
    requires Valid(s)
    ensures r <= s.order
  {
    if rollover then s.order else Before(s.recs, s.order, now + 1)
  }

  lemma BeforeFrame(recs: seq<Record>, recs': seq<Record>, order: seq<TimerId>, key: int)
    requires Ordered(recs, order) && Ordered(recs', order)
    requires forall u | u in order :: u < |recs| && u < |recs'| && recs'[u] == recs[u]
    ensures Before(recs, order, key) == Before(recs', order, key)
  {
    if order != [] { BeforeFrame(recs, recs', order[1..], key); }
  }

  /** Inserting at or after `key` leaves the elements before `key` as they were. */
  lemma {:induction false} InsertBehind(recs: seq<Record>, order: seq<TimerId>, t: TimerId, key: int)
    requires Ordered(recs, order) && t < |recs| && key <= recs[t].next
    ensures Before(recs, Insert(recs, order, t), key) == Before(recs, order, key)
  {
    if order == [] || recs[t].next < recs[order[0]].next {
    } else if recs[t].next != recs[order[0]].next {
      InsertBehind(recs, order[1..], t, key);
      assert Insert(recs, order, t)[1..] == Insert(recs, order[1..], t);
    }
  }

  /** A first member whose new deadline another member has does not come back. */
  lemma HeadBlocked(s: State, now: int)
    requires Valid(s) && s.order != [] && s.order[0] < |s.recs| && Blocked(s, now, s.order[0])
    ensures ExpireOne(s, now).order == s.order[1..]
  {
    hide ExpireOne, Ordered, Delay;
    Turn(s, now);
    var t, rest, s' := s.order[0], s.order[1..], ExpireOne(s, now);
    if s.recs[t].recurring {
      var u :| u in s.order && u < |s.recs| && s.recs[u].next == now + Delay(s.recs[t].ms)
        && s.recs[t].next < s.recs[u].next;
      assert u in rest && s'.recs[u].next == s'.recs[t].next;
      assert Taken(s'.recs, rest, s'.recs[t].next);
    }
  }

  /** A turn that is not stuck either drops the first member or moves it past `now`. */
  lemma UnstuckStep(s: State, now: int, rollover: bool)
    requires Valid(s) && Due(s, now, rollover) && !Stuck(s, now, rollover)
    ensures ExpireOne(s, now).order == s.order[1..]
            || (!rollover && s.recs[s.order[0]].recurring && s.recs[s.order[0]].ms > 0)
  {
    hide ExpireOne, Ordered;
    var t := s.order[0];
    Turn(s, now);
    assert !StuckAt(s, now, rollover, t);
    if s.recs[t].recurring && Blocked(s, now, t) { HeadBlocked(s, now); }
  }

  lemma StepLeavesDue(s: State, now: int)
    requires Valid(s) && Due(s, now, false)
    requires ExpireOne(s, now).order == s.order[1..] || (s.recs[s.order[0]].recurring && s.recs[s.order[0]].ms > 0)
    ensures DuePart(s, now, false) == [s.order[0]] + DuePart(ExpireOne(s, now), now, false)
  {
    hide ExpireOne, Insert;
    Turn(s, now);
    var t, rest, s' := s.order[0], s.order[1..], ExpireOne(s, now);
    BeforeFrame(s.recs, s'.recs, rest, now + 1);
    if s'.order != rest { InsertBehind(s'.recs, rest, t, now + 1); }
    assert DuePart(s, now, false) == [t] + Before(s.recs, rest, now + 1);
  }

  lemma StepKeepsBlockers(s: State, now: int, rollover: bool)
    requires Valid(s) && Due(s, now, rollover) && !Stuck(s, now, rollover)
    requires ExpireOne(s, now).order == s.order[1..]
             || (!rollover && s.recs[s.order[0]].recurring && s.recs[s.order[0]].ms > 0)
    ensures !Stuck(ExpireOne(s, now), now, rollover)
  {
    hide ExpireOne;
    Turn(s, now);
    var t, rest, s' := s.order[0], s.order[1..], ExpireOne(s, now);
    forall v | v in s'.order ensures v < |s'.recs| && !StuckAt(s', now, rollover, v) {
      if v != t && s.recs[v].recurring && (rollover || (s.recs[v].next <= now && s.recs[v].ms == 0)) {
        assert !StuckAt(s, now, rollover, v);
        var u :| u in s.order && u < |s.recs| && s.recs[u].next == now + Delay(s.recs[v].ms)
          && s.recs[v].next < s.recs[u].next;
        assert u in s'.order && u != t;
      }
    }
  }

  /** A turn that is not stuck takes the first due member off and leaves the other due members as they were. */
  lemma ExpireOneProgress(s: State, now: int, rollover: bool)
    requires Valid(s) && Due(s, now, rollover) && !Stuck(s, now, rollover)
    ensures DuePart(s, now, rollover) == [s.order[0]] + DuePart(ExpireOne(s, now), now, rollover)
    ensures !Stuck(ExpireOne(s, now), now, rollover)
  {
    hide ExpireOne, Stuck;
    UnstuckStep(s, now, rollover);
    StepKeepsBlockers(s, now, rollover);
    if !rollover { StepLeavesDue(s, now); }
  }

  /** `listExpiredCb`'s loop: the state it ends in, and the timers it takes out, in order. */
  function ExpireAll(s: State, now: int, rollover: bool): (r: (State, seq<TimerId>))
    requires Valid(s) && !Stuck(s, now, rollover)
    ensures Valid(r.0)
    decreases |DuePart(s, now, rollover)|
  {
    if !Due(s, now, rollover) then (s, [])
    else
      ExpireOneProgress(s, now, rollover);
      var (s', fired) := ExpireAll(ExpireOne(s, now), now, rollover);
      (s', [s.order[0]] + fired)
  }

  /** `listExpiredCb`: `now` was read before the lock was taken, `clock` under it. */
  function ListExpired(s: State, now: int, clock: int): (r: (State, seq<TimerId>))
    requires Valid(s) && !Stuck(s, now, Rollover(s, clock))
    ensures Valid(r.0)
  {
    ExpireAll(s.(previous := clock), now, Rollover(s, clock))
  }

  // ---------------------------------------------------------------- termination, exactly

  lemma {:induction false} UnstuckTerminates(s: State, now: int, rollover: bool)
    requires Valid(s) && !Stuck(s, now, rollover)
    ensures Iterate(s, now, rollover, |DuePart(s, now, rollover)|) == ExpireAll(s, now, rollover).0
    ensures !Due(ExpireAll(s, now, rollover).0, now, rollover)
    decreases |DuePart(s, now, rollover)|
  {
    if Due(s, now, rollover) {
      hide ExpireOne, Stuck, DuePart;
      ExpireOneProgress(s, now, rollover);
      UnstuckTerminates(ExpireOne(s, now), now, rollover);
    }
  }

  /** A recurring timer already sits where its next re-insertion will put it. */
  ghost predicate Looping(s: State, now: int, rollover: bool) {
    exists t | t in s.order :: t < |s.recs| && LoopsAt(s, now, rollover, t)
  }

  ghost predicate LoopsAt(s: State, now: int, rollover: bool, t: TimerId)
    requires t < |s.recs|
  {
    s.recs[t].recurring && s.recs[t].next == now + Delay(s.recs[t].ms) && (rollover || s.recs[t].ms == 0)
  }

  /** A turn leaves the other members in the set and unchanged, with deadlines after the first one's. */
  lemma OthersStay(s: State, now: int, u: TimerId)
    requires Valid(s) && u in s.order && u != s.order[0]
    ensures s.order[0] < |s.recs| && u < |s.recs| && s.recs[s.order[0]].next < s.recs[u].next
    ensures var s' := ExpireOne(s, now); u in s'.order && |s'.recs| == |s.recs| && s'.recs[u] == s.recs[u]
  {
    hide ExpireOne, Insert, Ordered;
    Turn(s, now);
  }

  /** The first member, if it recurs and is not blocked, comes back with its next deadline. */
  lemma HeadReturns(s: State, now: int)
    requires Valid(s) && s.order != [] && s.order[0] < |s.recs| && s.recs[s.order[0]].recurring
    requires !Blocked(s, now, s.order[0])
    ensures var (s', t) := (ExpireOne(s, now), s.order[0]);
      t in s'.order && |s'.recs| == |s.recs| && s'.recs[t] == s.recs[t].(next := now + Delay(s.recs[t].ms))
  {
    hide ExpireOne, Insert, Ordered, Delay;
    Turn(s, now);
  }

  /** Another member that is not blocked stays so, unless the first one comes back just where it would be. */
  lemma UnblockedStays(s: State, now: int, u: TimerId)
    requires Valid(s) && u in s.order && u != s.order[0] && u < |s.recs| && !Blocked(s, now, u)
    ensures var (s', t) := (ExpireOne(s, now), s.order[0]);
      && u < |s'.recs| && t < |s.recs| && t < |s'.recs|
      && (Blocked(s', now, u) ==>
            && t in s'.order && s.recs[t].recurring && s'.recs[t] == s.recs[t].(next := now + Delay(s.recs[t].ms))
            && Delay(s.recs[t].ms) == Delay(s.recs[u].ms))
  {
    hide ExpireOne, Insert, Ordered, Delay;
    Turn(s, now);
    var s', t := ExpireOne(s, now), s.order[0];
    if Blocked(s', now, u) {
      var v :| v in s'.order && v < |s'.recs| && s'.recs[v].next == now + Delay(s'.recs[u].ms)
        && s'.recs[u].next < s'.recs[v].next;
      assert v == t;
    }
  }

  lemma LoopingStep(s: State, now: int, rollover: bool)
    requires Valid(s) && Looping(s, now, rollover)
    ensures Due(s, now, rollover) && Looping(ExpireOne(s, now), now, rollover)
  {
    hide ExpireOne, Insert, Ordered;
    var t, s' := s.order[0], ExpireOne(s, now);
    var u :| u in s.order && u < |s.recs| && LoopsAt(s, now, rollover, u);
    if u == t { HeadLoops(s, now); } else { OthersStay(s, now, u); }
    assert u in s'.order && LoopsAt(s', now, rollover, u);
  }

  /** A first member that recurs at its own deadline comes back to it. */
  lemma HeadLoops(s: State, now: int)
    requires Valid(s) && s.order != [] && s.order[0] < |s.recs| && s.recs[s.order[0]].recurring
    requires s.recs[s.order[0]].next == now + Delay(s.recs[s.order[0]].ms)
    ensures s.order[0] in ExpireOne(s, now).order
    ensures |ExpireOne(s, now).recs| == |s.recs| && ExpireOne(s, now).recs[s.order[0]] == s.recs[s.order[0]]
  {
    hide ExpireOne, Insert, Ordered, Delay;
    Turn(s, now);
  }

  lemma StuckStep(s: State, now: int, rollover: bool)
    requires Valid(s) && Stuck(s, now, rollover)
    ensures Due(s, now, rollover)
    ensures Stuck(ExpireOne(s, now), now, rollover) || Looping(ExpireOne(s, now), now, rollover)
  {
    hide ExpireOne, Insert, Ordered;
    var t, s' := s.order[0], ExpireOne(s, now);
    var u :| u in s.order && u < |s.recs| && StuckAt(s, now, rollover, u);
    if u == t {
      HeadReturns(s, now);
      assert LoopsAt(s', now, rollover, t);
    } else {
      OthersStay(s, now, u);
      UnblockedStays(s, now, u);
      if Blocked(s', now, u) { assert LoopsAt(s', now, rollover, t); } else { assert StuckAt(s', now, rollover, u); }
    }
  }

  lemma {:induction false} DoomedForever(s: State, now: int, rollover: bool, k: nat)
    requires Valid(s) && (Stuck(s, now, rollover) || Looping(s, now, rollover))
    ensures Due(Iterate(s, now, rollover, k), now, rollover)
    decreases k
  {
    hide Stuck, Looping, ExpireOne;
    if Looping(s, now, rollover) { LoopingStep(s, now, rollover); } else { StuckStep(s, now, rollover); }
    if k > 0 { DoomedForever(ExpireOne(s, now), now, rollover, k - 1); }
  }

  /** The loop ends exactly when no member is stuck, a condition on the set before the call. */
  lemma ExpiryTerminatesIff(s: State, now: int, rollover: bool)
    requires Valid(s)
    ensures Terminates(s, now, rollover) <==> !Stuck(s, now, rollover)
  {
    hide Stuck;
    if Stuck(s, now, rollover) {
      forall k: nat ensures Due(Iterate(s, now, rollover, k), now, rollover) { DoomedForever(s, now, rollover, k); }
    } else {
      UnstuckTerminates(s, now, rollover);
    }
  }

  // ---------------------------------------------------------------- what a pass does

  /** One turn of the loop, and the pass that is left. */
  lemma PassTurn(s: State, now: int, rollover: bool)
    requires Valid(s) && Due(s, now, rollover) && !Stuck(s, now, rollover)
    ensures var t, s1 := s.order[0], ExpireOne(s, now);
      && !Stuck(s1, now, rollover) && t < |s.recs|
      && s1 == s.(recs := s.recs[t := Expired(s.recs[t], now)], order := s1.order)
      && DuePart(s, now, rollover) == [t] + DuePart(s1, now, rollover) && t !in DuePart(s1, now, rollover)
      && ExpireAll(s, now, rollover) == (ExpireAll(s1, now, rollover).0, [t] + ExpireAll(s1, now, rollover).1)
  {
    hide ExpireOne, Stuck, Insert;
    Turn(s, now);
    ExpireOneProgress(s, now, rollover);
    UnstuckStep(s, now, rollover);
  }

  /** A pass takes out exactly the due members, in deadline order, and touches no other timer. */
  lemma {:induction false} PassTakesTheDue(s: State, now: int, rollover: bool)
    requires Valid(s) && !Stuck(s, now, rollover)
    ensures var (s', fired) := ExpireAll(s, now, rollover);
      && fired == DuePart(s, now, rollover)
      && |s'.recs| == |s.recs| && s'.tickled == s.tickled && s'.previous == s.previous
      && forall t | 0 <= t < |s.recs| :: s'.recs[t] == if t in fired then Expired(s.recs[t], now) else s.recs[t]
    decreases |DuePart(s, now, rollover)|
  {
    hide ExpireOne, Stuck, Ordered, Expired;
    if Due(s, now, rollover) {
      hide ExpireAll, DuePart;
      PassTurn(s, now, rollover);
      PassTakesTheDue(ExpireOne(s, now), now, rollover);
    }
  }

  /** Some due recurring member has its next deadline at `d`. */
  ghost predicate Rearmed(s: State, fired: seq<TimerId>, now: int, d: int) {
    exists t | t in fired :: t < |s.recs| && s.recs[t].recurring && s.recs[t].ms > 0 && d == now + Delay(s.recs[t].ms)
  }

  lemma DelayIsPositive(ms: nat)
    ensures 0 < Delay(ms) <==> 0 < ms
  {}

  /** Without a rollover the deadlines left are the ones not yet due, and now + period for each due recurring timer. */
  lemma {:induction false} PassDeadlines(s: State, now: int, d: int)
    requires Valid(s) && !Stuck(s, now, false)
    ensures var (s', fired) := ExpireAll(s, now, false);
      Taken(s'.recs, s'.order, d) <==> (now < d && Taken(s.recs, s.order, d)) || Rearmed(s, fired, now, d)
    decreases |DuePart(s, now, false)|
  {
    hide ExpireOne, Stuck, Insert, DuePart, Delay;
    if !Due(s, now, false) {
      NothingIsDue(s, now);
    } else {
      hide ExpireAll, Taken, Rearmed, Ordered;
      PassTurn(s, now, false);
      PassDeadlines(ExpireOne(s, now), now, d);
      PassTakesTheDue(ExpireOne(s, now), now, false);
      OneTurnDeadlines(s, now);
      RearmedSplit(s, ExpireOne(s, now), ExpireAll(ExpireOne(s, now), now, false).1, now);
      DelayIsPositive(s.recs[s.order[0]].ms);
    }
  }

  /** Only the due recurring timers and the members that are not due stay in the set. */
  lemma {:induction false} PassMembers(s: State, now: int)
    requires Valid(s) && !Stuck(s, now, false)
    ensures var (s', fired) := ExpireAll(s, now, false);
      && (forall u | u in s.order && u !in fired :: u in s'.order)
      && (forall u | u in s'.order ::
         u < |s.recs| && (u in fired ==> s.recs[u].recurring && s.recs[u].ms > 0) && (u !in fired ==> u in s.order))
    decreases |DuePart(s, now, false)|
  {
    hide ExpireOne, Stuck, Insert, DuePart, Delay;
    if !Due(s, now, false) {
      NothingIsDue(s, now);
    } else {
      hide ExpireAll;
      Turn(s, now);
      PassTurn(s, now, false);
      PassMembers(ExpireOne(s, now), now);
      PassTakesTheDue(ExpireOne(s, now), now, false);
      UnstuckStep(s, now, false);
    }
  }

  lemma PassLeaves(s: State, now: int)
    requires Valid(s) && !Stuck(s, now, false)
    ensures var (s', fired) := ExpireAll(s, now, false);
      && (forall d :: Taken(s'.recs, s'.order, d) <==>
         (now < d && Taken(s.recs, s.order, d)) || Rearmed(s, fired, now, d))
      && (forall u | u in s.order && u !in fired :: u in s'.order)
      && (forall u | u in s'.order ::
         u < |s.recs| && (u in fired ==> s.recs[u].recurring && s.recs[u].ms > 0) && (u !in fired ==> u in s.order))
  {
    hide ExpireAll, Stuck, Taken, Rearmed;
    PassMembers(s, now);
    var (s', fired) := ExpireAll(s, now, false);
    forall d
      ensures Taken(s'.recs, s'.order, d) <==> (now < d && Taken(s.recs, s.order, d)) || Rearmed(s, fired, now, d)
    {
      PassDeadlines(s, now, d);
    }
  }

  lemma NothingIsDue(s: State, now: int)
    requires Valid(s) && !Due(s, now, false)
    ensures forall u | u in s.order :: u < |s.recs| && now < s.recs[u].next
  {
    HeadOrRest(s.order);
  }

  lemma OneTurnDeadlines(s: State, now: int)
    requires Valid(s) && Due(s, now, false) && !Stuck(s, now, false)
    ensures var s1, rec := ExpireOne(s, now), s.recs[s.order[0]];
      forall d | now < d :: Taken(s1.recs, s1.order, d) <==>
        Taken(s.recs, s.order, d) || (rec.recurring && d == now + Delay(rec.ms))
  {
    hide ExpireOne, Stuck, Insert;
    Turn(s, now);
    var t, rest, s1 := s.order[0], s.order[1..], ExpireOne(s, now);
    forall d | now < d
      ensures Taken(s1.recs, s1.order, d) <==>
        Taken(s.recs, s.order, d) || (s.recs[t].recurring && d == now + Delay(s.recs[t].ms))
    {
      if Taken(s.recs, s.order, d) {
        var u :| u in s.order && u < |s.recs| && s.recs[u].next == d;
        assert u in s1.order && s1.recs[u].next == d;
      }
    }
  }

  lemma RearmedSplit(s: State, s1: State, fired1: seq<TimerId>, now: int)
    requires Valid(s) && s.order != [] && s1 == ExpireOne(s, now) && s.order[0] !in fired1
    ensures var rec := s.recs[s.order[0]];
      forall d :: Rearmed(s, [s.order[0]] + fired1, now, d) <==>
                  Rearmed(s1, fired1, now, d) || (rec.recurring && rec.ms > 0 && d == now + Delay(rec.ms))
  {
    hide ExpireOne, Ordered;
    Turn(s, now);
    var t, rec := s.order[0], s.recs[s.order[0]];
    var fired := [t] + fired1;
    forall d
      ensures Rearmed(s, fired, now, d) <==>
        Rearmed(s1, fired1, now, d) || (rec.recurring && rec.ms > 0 && d == now + Delay(rec.ms))
    {
      if Rearmed(s1, fired1, now, d) {
        var u :| u in fired1 && u < |s1.recs| && s1.recs[u].recurring && s1.recs[u].ms > 0
          && d == now + Delay(s1.recs[u].ms);
        assert u in fired;
      }
      if rec.recurring && rec.ms > 0 && d == now + Delay(rec.ms) { assert t in fired; }
    }
  }

  /** A rollover pass that ends drains the set, handing out every member in deadline order. */
  lemma {:induction false} RolloverDrains(s: State, now: int)
    requires Valid(s) && !Stuck(s, now, true)
    ensures ExpireAll(s, now, true).0.order == [] && ExpireAll(s, now, true).1 == s.order
    decreases |s.order|
  {
    if Due(s, now, true) {
      hide ExpireOne, Stuck;
      ExpireOneProgress(s, now, true);
      RolloverDrains(ExpireOne(s, now), now);
    }
  }
}
