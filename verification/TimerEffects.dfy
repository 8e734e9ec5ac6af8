/** What one operation on a timer answers, and where it puts the deadline, in nanoseconds. */
module TimerEffects {
  import opened Common
  import opened TimerModel
  import opened TimerExpiry

  /** A new timer is due `ms` milliseconds after it was made, and is in the set unless that deadline was taken. */
  lemma AddIs(s: State, ms: nat, cb: Callback, recurring: bool, start: int)
    requires Valid(s)
    ensures var s' := Add(s, ms, cb, recurring, start).0;
      && s'.recs == s.recs + [Record(recurring, ms, start + ms * 1_000_000, Some(cb))]
      && (|s.recs| in s'.order <==> !Taken(s.recs, s.order, start + ms * 1_000_000))
  {
    hide Ordered, Insert;
    Members(s.recs, s.order);
    var recs := s.recs + [Record(recurring, ms, start + Delay(ms), Some(cb))];
    OrderedFrame(s.recs, recs, s.order);
    SameTaken(s.recs, recs, s.order, start + ms * 1_000_000);
  }

  lemma SameTaken(recs: seq<Record>, recs': seq<Record>, order: seq<TimerId>, key: int)
    requires forall u | u in order :: u < |recs| && u < |recs'| && recs'[u].next == recs[u].next
    ensures Taken(recs, order, key) <==> Taken(recs', order, key)
  {
    if u :| u in order && u < |recs| && recs[u].next == key { assert recs'[u].next == key; }
    if u :| u in order && u < |recs'| && recs'[u].next == key { assert recs[u].next == key; }
  }

  /** The private `addTimer` asks for a wake-up exactly when no member is due before the timer and none was asked for
      since the last `getNextTimer`, and remembers that it did. */
  lemma EnqueueIs(s: State, t: TimerId)
    requires Valid(s) && t < |s.recs|
    ensures var (s', tickle) := Enqueue(s, t);
      && (tickle <==> !s.tickled && forall u | u in s.order :: u < |s.recs| && s.recs[t].next <= s.recs[u].next)
      && s' == s.(order := s'.order, tickled := s.tickled || tickle)
      && (forall u :: u in s'.order <==> u in s.order || (u == t && !Taken(s.recs, s.order, s.recs[t].next)))
  {
    hide Insert;
    HeadOrRest(s.order);
    Members(s.recs, s.order);
    if s.order != [] { assert s.order[0] in s.order; }
  }

  /** `getNextTimer` lets the next front insertion ask for a wake-up again, and changes nothing else. */
  lemma ReadingIs(s: State, now: int)
    requires Valid(s)
    ensures NextTimer(s, now).0 == s.(tickled := false)
  {}

  /** `cancel` answers true exactly when there was a callback, takes it, and leaves no member at that deadline. */
  lemma CancelIs(s: State, t: TimerId)
    requires Valid(s) && t < |s.recs|
    ensures var (s', done) := Cancel(s, t);
      && (done <==> s.recs[t].cb.Some?) && s'.recs == s.recs[t := s.recs[t].(cb := None)]
      && (done ==> forall u :: u in s'.order <==> u in s.order && u < |s.recs| && s.recs[u].next != s.recs[t].next)
      && (!done ==> s'.order == s.order)
  {
    hide Ordered, EraseKey;
    assert s.recs[t].cb.None? ==> s.recs[t := s.recs[t].(cb := None)] == s.recs;
  }

  /** `refresh` and `reset` go on exactly when there is a callback and a member at the timer's deadline. */
  ghost predicate Found(s: State, t: TimerId)
    requires t < |s.recs|
  {
    s.recs[t].cb.Some? && Taken(s.recs, s.order, s.recs[t].next)
  }

  /** `refresh` moves the deadline to one period from now. */
  lemma RefreshIs(s: State, t: TimerId, now: int)
    requires Valid(s) && t < |s.recs|
    ensures var (s', done) := Refresh(s, t, now);
      && (done <==> Found(s, t)) && (!done ==> s' == s)
      && (done ==> s'.recs == s.recs[t := s.recs[t].(next := now + s.recs[t].ms * 1_000_000)])
  {
    hide Ordered, Insert, TakeOut, FindKey;
  }

  /** `reset` counts the new period from now, or from where the old one began, and answers true without doing anything
      when neither changes. */
  lemma ResetIs(s: State, t: TimerId, ms: nat, fromNow: bool, now: int)
    requires Valid(s) && t < |s.recs|
    ensures var ((s', done, tickle), rec) := (Reset(s, t, ms, fromNow, now), s.recs[t]);
      var same := ms == rec.ms && !fromNow;
      && (done <==> same || Found(s, t)) && (same || !done ==> s' == s && !tickle)
      && (done && !same ==> s'.recs == s.recs[t := rec.(
            ms := ms,
            next := if fromNow then now + ms * 1_000_000 else rec.next + (ms - rec.ms) * 1_000_000)])
  {
    hide Ordered, Insert, TakeOut, FindKey;
  }

  /** The clock has gone back when it shows more than an hour before what it showed last. */
  lemma RolloverIs(s: State, now: int)
    ensures Rollover(s, now) <==> now + 3_600_000_000_000 < s.previous
  {}

  /** Due are the members with a deadline not after `now`, and after a rollover all of them; an expired recurring timer
      is next due one period after `now`, and a one-shot timer loses its callback. */
  lemma PassIs(s: State, now: int, rollover: bool)
    requires Valid(s) && !Stuck(s, now, rollover)
    ensures var (s', fired) := ExpireAll(s, now, rollover);
      && (forall t :: t in fired <==> t in s.order && t < |s.recs| && (rollover || s.recs[t].next <= now))
      && |s'.recs| == |s.recs|
      && forall t | 0 <= t < |s.recs| ::
        s'.recs[t] == if t !in fired then s.recs[t]
                      else if s.recs[t].recurring then s.recs[t].(next := now + s.recs[t].ms * 1_000_000)
                      else s.recs[t].(cb := None)
  {
    hide Ordered, ExpireAll, Stuck;
    PassTakesTheDue(s, now, rollover);
    Members(s.recs, s.order);
  }
}
