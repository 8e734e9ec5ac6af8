/** The timer manager on values: an ordered set of timers keyed by deadline alone, whose
    elements' deadlines change, and the shared flag that limits front-insertion wake-ups.
    Time points are nanoseconds of the system clock; intervals are milliseconds. */
module TimerModel {
  import opened Common

  const NS_PER_MS: int := 1_000_000
  /** What `getNextTimer` returns when there is no timer. */
  const NO_TIMER: nat := 0xFFFF_FFFF_FFFF_FFFF
  const ROLLOVER_NS: int := 60 * 60 * 1000 * NS_PER_MS

  type TimerId = nat

  /** One timer object. `cb` is None once the timer was cancelled or, if one-shot, has expired. */
  datatype Record = Record(recurring: bool, ms: nat, next: int, cb: Option<Callback>)

  /** `recs` holds every timer object ever made, by id; `order` is the set, in iteration order. */
  datatype State = State(recs: seq<Record>, order: seq<TimerId>, tickled: bool, previous: int)

  /** Every element of `order` is a timer with a deadline after `key`. */
  ghost predicate After(recs: seq<Record>, order: seq<TimerId>, key: int) {
    forall u | u in order :: u < |recs| && key < recs[u].next
  }

  /** Strictly increasing current deadlines: what the ordered set promises about its elements. */
  ghost predicate Ordered(recs: seq<Record>, order: seq<TimerId>) {
    order == [] ||
    (order[0] < |recs| && After(recs, order[1..], recs[order[0]].next) && Ordered(recs, order[1..]))
  }

  ghost predicate Valid(s: State) { Ordered(s.recs, s.order) }

  function Delay(ms: nat): int { ms * NS_PER_MS }

  /** The deadline `key` is taken by some element. */
  ghost predicate Taken(recs: seq<Record>, order: seq<TimerId>, key: int) {
    exists u | u in order :: u < |recs| && recs[u].next == key
  }

  /** The elements with a deadline before `key`: a prefix of the set. */
  function Before(recs: seq<Record>, order: seq<TimerId>, key: int): (r: seq<TimerId>)
    requires Ordered(recs, order)
    ensures r <= order
    ensures forall u :: u in r <==> u in order && u < |recs| && recs[u].next < key
  {
    if order == [] || key <= recs[order[0]].next then
      HeadOrRest(order);
      []
    else
      [order[0]] + Before(recs, order[1..], key)
  }

  /** `m_timers.find(x)`: the element that has deadline `key`, be it `x` or not. */
  function FindKey(recs: seq<Record>, order: seq<TimerId>, key: int): (r: Option<TimerId>)
    requires Ordered(recs, order)
    ensures r.None? <==> !Taken(recs, order, key)
    ensures r.Some? ==> r.value in order && r.value < |recs| && recs[r.value].next == key
  {
    if order == [] then None
    else if recs[order[0]].next == key then Some(order[0])
    else FindKey(recs, order[1..], key)
  }

  /** `find` then `erase`: drops whichever element has deadline `key`. */
  function EraseKey(recs: seq<Record>, order: seq<TimerId>, key: int): (r: seq<TimerId>)
    requires Ordered(recs, order)
    ensures Ordered(recs, r)
    ensures forall u :: u in r <==> u in order && u < |recs| && recs[u].next != key
  {
    if order == [] then []
    else if recs[order[0]].next == key then order[1..]
    else [order[0]] + EraseKey(recs, order[1..], key)
  }

  /** `m_timers.insert(t)`: a no-op when the deadline of `t` is taken. */
  function Insert(recs: seq<Record>, order: seq<TimerId>, t: TimerId): (r: seq<TimerId>)
    requires Ordered(recs, order) && t < |recs|
    ensures Ordered(recs, r)
    ensures Taken(recs, order, recs[t].next) ==> r == order
    ensures !Taken(recs, order, recs[t].next) ==> forall u :: u in r <==> u in order || u == t
  {
    if order == [] || recs[t].next < recs[order[0]].next then
      HeadOrRest(order);
      var r := [t] + order;
      assert r[1..] == order;
      r
    else if recs[t].next == recs[order[0]].next then order
    else [order[0]] + Insert(recs, order[1..], t)
  }

  lemma HeadOrRest(order: seq<TimerId>)
    ensures forall u | u in order :: u == order[0] || u in order[1..]
  {
    if order != [] { assert order == [order[0]] + order[1..]; }
  }

  lemma Members(recs: seq<Record>, order: seq<TimerId>)
    requires Ordered(recs, order)
    ensures forall u | u in order :: u < |recs|
  {
    HeadOrRest(order);
  }

  /** A deadline may change while its timer is outside the set. */
  lemma OrderedFrame(recs: seq<Record>, recs': seq<Record>, order: seq<TimerId>)
    requires Ordered(recs, order) && |recs| <= |recs'|
    requires forall u | u in order :: u < |recs| && recs'[u].next == recs[u].next
    ensures Ordered(recs', order)
  {
    if order != [] { OrderedFrame(recs, recs', order[1..]); }
  }

  // ---------------------------------------------------------------- the operations of one timer

  function Cancel(s: State, t: TimerId): (r: (State, bool))
    requires Valid(s) && t < |s.recs|
    ensures Valid(r.0)
  {
    if s.recs[t].cb.None? then (s, false)
    else
      var recs := s.recs[t := s.recs[t].(cb := None)];
      OrderedFrame(s.recs, recs, s.order);
      (s.(recs := recs, order := EraseKey(recs, s.order, recs[t].next)), true)
  }

  /** Takes the element with the deadline of `t` out of the set, then gives `t` new fields. */
  function TakeOut(s: State, t: TimerId, rec: Record): (r: State)
    requires Valid(s) && t < |s.recs|
    ensures Valid(r) && t !in r.order && r == s.(recs := s.recs[t := rec], order := r.order)
    ensures forall u :: u in r.order <==> u in s.order && u < |s.recs| && s.recs[u].next != s.recs[t].next
  {
    var order := EraseKey(s.recs, s.order, s.recs[t].next);
    var recs := s.recs[t := rec];
    OrderedFrame(s.recs, recs, order);
    s.(recs := recs, order := order)
  }

  function Refresh(s: State, t: TimerId, now: int): (r: (State, bool))
    requires Valid(s) && t < |s.recs|
    ensures Valid(r.0)
  {
    var rec := s.recs[t];
    if rec.cb.None? || FindKey(s.recs, s.order, rec.next).None? then (s, false)
    else
      var s1 := TakeOut(s, t, rec.(next := now + Delay(rec.ms)));
      (s1.(order := Insert(s1.recs, s1.order, t)), true)
  }

  /** The private `addTimer`: insert, and ask for a wake-up when the timer landed at the front and
      none was asked for since the last `getNextTimer`. The second result says whether it did. */
  function Enqueue(s: State, t: TimerId): (r: (State, bool))
    requires Valid(s) && t < |s.recs|
    ensures Valid(r.0)
  {
    var atFront := (s.order == [] || s.recs[t].next <= s.recs[s.order[0]].next) && !s.tickled;
    (s.(order := Insert(s.recs, s.order, t), tickled := s.tickled || atFront), atFront)
  }

  /** Results: new state, value returned, wake-up asked for. */
  function Reset(s: State, t: TimerId, ms: nat, fromNow: bool, now: int): (r: (State, bool, bool))
    requires Valid(s) && t < |s.recs|
    ensures Valid(r.0)
  {
    var rec := s.recs[t];
    if ms == rec.ms && !fromNow then (s, true, false)
    else if rec.cb.None? || FindKey(s.recs, s.order, rec.next).None? then (s, false, false)
    else
      var start := if fromNow then now else rec.next - Delay(rec.ms);
      var (s', tickle) := Enqueue(TakeOut(s, t, rec.(ms := ms, next := start + Delay(ms))), t);
      (s', true, tickle)
  }

  /** The public `addTimer`; `start` is the clock when the timer object was built. */
  function Add(s: State, ms: nat, cb: Callback, recurring: bool, start: int): (r: (State, bool))
    requires Valid(s)
    ensures Valid(r.0) && |r.0.recs| == |s.recs| + 1
  {
    var recs := s.recs + [Record(recurring, ms, start + Delay(ms), Some(cb))];
    Members(s.recs, s.order);
    OrderedFrame(s.recs, recs, s.order);
    Enqueue(s.(recs := recs), |s.recs|)
  }

  /** `getNextTimer`: clears the wake-up flag and returns the whole milliseconds left. */
  function NextTimer(s: State, now: int): (r: (State, nat))
    requires Valid(s)
    ensures Valid(r.0)
  {
    var s' := s.(tickled := false);
    if s.order == [] then (s', NO_TIMER)
    else
      var time := s.recs[s.order[0]].next;
      if now >= time then (s', 0) else (s', (time - now) / NS_PER_MS)
  }

  predicate Rollover(s: State, now: int) { now < s.previous - ROLLOVER_NS }
}
