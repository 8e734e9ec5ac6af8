/** The timer objects and the manager that updates them in place, proved against TimerModel. */
module TimerManager {
  import opened Common
  import M = TimerModel
  import E = TimerExpiry

  class Timer {
    ghost const id: nat  // the name of this object in the model
    const recurring: bool
    var ms: nat
    var next: int
    var cb: Option<Callback>

    constructor (ghost id: nat, ms: nat, cb: Callback, recurring: bool, now: int)
      ensures this.id == id && Rec() == M.Record(recurring, ms, now + M.Delay(ms), Some(cb))
    {
      this.id := id;
      this.recurring := recurring;
      this.ms := ms;
      this.next := now + M.Delay(ms);
      this.cb := Some(cb);
    }

    ghost function Rec(): M.Record
      reads this
    {
      M.Record(recurring, ms, next, cb)
    }
  }

  ghost function Spliced(order: seq<M.TimerId>, i: nat, mid: seq<M.TimerId>, j: nat): seq<M.TimerId>
    requires i <= j <= |order|
  {
    order[..i] + mid + order[j..]
  }

  lemma SplicedCons(order: seq<M.TimerId>, i: nat, mid: seq<M.TimerId>, j: nat)
    requires order != [] && i <= j < |order|
    ensures [order[0]] + Spliced(order[1..], i, mid, j) == Spliced(order, i + 1, mid, j + 1)
  {
    assert order[..i + 1] == [order[0]] + order[1..][..i];
    assert order[j + 1..] == order[1..][j..];
  }

  /** The element at the lower bound of `key` has that deadline. */
  ghost predicate HitAt(recs: seq<M.Record>, order: seq<M.TimerId>, i: nat, key: int) {
    i < |order| && order[i] < |recs| && recs[order[i]].next == key
  }

  /** Where the lower bound of its deadline puts an inserted timer. */
  lemma {:induction false} InsertSplits(recs: seq<M.Record>, order: seq<M.TimerId>, t: M.TimerId)
    requires M.Ordered(recs, order) && t < |recs|
    ensures var i := |M.Before(recs, order, recs[t].next)|;
      M.Insert(recs, order, t) == if HitAt(recs, order, i, recs[t].next) then order else Spliced(order, i, [t], i)
  {
    if order != [] && recs[order[0]].next < recs[t].next {
      var i := |M.Before(recs, order[1..], recs[t].next)|;
      InsertSplits(recs, order[1..], t);
      SplicedCons(order, i, [t], i);
      hide M.Ordered, Spliced;
      assert HitAt(recs, order[1..], i, recs[t].next) == HitAt(recs, order, i + 1, recs[t].next);
    }
  }

  /** `order` without its element at the lower bound `i`, if that has deadline `key`. */
  ghost function Cut(recs: seq<M.Record>, order: seq<M.TimerId>, i: nat, key: int): seq<M.TimerId> {
    if HitAt(recs, order, i, key) then Spliced(order, i, [], i + 1) else order
  }

  lemma CutCons(recs: seq<M.Record>, order: seq<M.TimerId>, i: nat, key: int)
    requires order != []
    ensures [order[0]] + Cut(recs, order[1..], i, key) == Cut(recs, order, i + 1, key)
  {
    HitCons(recs, order, i, key);
    if HitAt(recs, order[1..], i, key) { SplicedCons(order, i, [], i + 1); }
  }

  /** Which element an erase hits. */
  lemma {:induction false} EraseSplits(recs: seq<M.Record>, order: seq<M.TimerId>, key: int)
    requires M.Ordered(recs, order)
    ensures M.EraseKey(recs, order, key) == Cut(recs, order, |M.Before(recs, order, key)|, key)
  {
    hide Cut;
    if order == [] {
      CutMiss(recs, order, key);
    } else if recs[order[0]].next < key {
      EraseSplits(recs, order[1..], key);
      CutCons(recs, order, |M.Before(recs, order[1..], key)|, key);
    } else {
      CutMiss(recs, order, key);
      if key < recs[order[0]].next {
        KeyBeforeAll(recs, order, key);
        NothingToErase(recs, order, key);
      }
    }
  }

  lemma CutMiss(recs: seq<M.Record>, order: seq<M.TimerId>, key: int)
    ensures order == [] ==> Cut(recs, order, 0, key) == []
    ensures order != [] && order[0] < |recs| && recs[order[0]].next == key ==> Cut(recs, order, 0, key) == order[1..]
    ensures order != [] && order[0] < |recs| && recs[order[0]].next != key ==> Cut(recs, order, 0, key) == order
  {
    if order != [] { assert Spliced(order, 0, [], 1) == order[1..]; }
  }

  lemma HitCons(recs: seq<M.Record>, order: seq<M.TimerId>, i: nat, key: int)
    requires order != []
    ensures HitAt(recs, order[1..], i, key) == HitAt(recs, order, i + 1, key)
  {}

  lemma KeyBeforeAll(recs: seq<M.Record>, order: seq<M.TimerId>, key: int)
    requires M.Ordered(recs, order) && order != [] && key < recs[order[0]].next
    ensures !M.Taken(recs, order, key)
  {
    M.HeadOrRest(order);
  }

  lemma {:induction false} FindSplits(recs: seq<M.Record>, order: seq<M.TimerId>, key: int)
    requires M.Ordered(recs, order)
    ensures M.FindKey(recs, order, key).Some? <==> HitAt(recs, order, |M.Before(recs, order, key)|, key)
  {
    if order != [] && recs[order[0]].next < key {
      var i := |M.Before(recs, order[1..], key)|;
      FindSplits(recs, order[1..], key);
      HitCons(recs, order, i, key);
    } else if order != [] && key < recs[order[0]].next {
      KeyBeforeAll(recs, order, key);
    }
  }

  lemma {:induction false} NothingToErase(recs: seq<M.Record>, order: seq<M.TimerId>, key: int)
    requires M.Ordered(recs, order) && !M.Taken(recs, order, key)
    ensures M.EraseKey(recs, order, key) == order
  {
    if order != [] {
      assert order[0] in order;
      NothingToErase(recs, order[1..], key);
    }
  }

  /** How far a scan for `key` has to go. */
  lemma {:induction false} BeforeGrows(recs: seq<M.Record>, order: seq<M.TimerId>, key: int, i: nat)
    requires M.Ordered(recs, order) && i <= |M.Before(recs, order, key)|
    ensures i < |order| ==> order[i] < |recs| && (i < |M.Before(recs, order, key)| <==> recs[order[i]].next < key)
  {
    if i > 0 { BeforeGrows(recs, order[1..], key, i - 1); }
  }

  /** The callbacks that an expiry pass collects, one a turn. */
  ghost function Collected(s: M.State, now: int, rollover: bool): (r: seq<Option<Callback>>)
    requires M.Valid(s) && !E.Stuck(s, now, rollover)
    decreases |E.DuePart(s, now, rollover)|
  {
    if !E.Due(s, now, rollover) then []
    else
      E.ExpireOneProgress(s, now, rollover);
      [s.recs[s.order[0]].cb] + Collected(E.ExpireOne(s, now), now, rollover)
  }

  /** They are the callbacks the due timers had when the pass began, once each, in deadline order. */
  lemma CollectOne(s: M.State, now: int, rollover: bool)
    requires M.Valid(s) && !E.Stuck(s, now, rollover)
    ensures if E.Due(s, now, rollover)
      then s.order != [] && s.order[0] < |s.recs| && !E.Stuck(E.ExpireOne(s, now), now, rollover)
        && E.ExpireAll(s, now, rollover).0 == E.ExpireAll(E.ExpireOne(s, now), now, rollover).0
        && Collected(s, now, rollover) == [s.recs[s.order[0]].cb] + Collected(E.ExpireOne(s, now), now, rollover)
      else E.ExpireAll(s, now, rollover).0 == s && Collected(s, now, rollover) == []
  {
    hide E.Stuck, E.ExpireOne, E.DuePart;
    if E.Due(s, now, rollover) { E.ExpireOneProgress(s, now, rollover); }
  }

  lemma {:induction false} CollectedAreTheDue(s: M.State, now: int, rollover: bool)
    requires M.Valid(s) && !E.Stuck(s, now, rollover)
    ensures var (due, cbs) := (E.DuePart(s, now, rollover), Collected(s, now, rollover));
      |cbs| == |due| && forall i | 0 <= i < |due| :: due[i] < |s.recs| && cbs[i] == s.recs[due[i]].cb
    decreases |E.DuePart(s, now, rollover)|
  {
    hide E.ExpireOne, E.Stuck, M.Ordered, Collected, E.ExpireAll, E.Expired;
    CollectOne(s, now, rollover);
    if E.Due(s, now, rollover) {
      hide E.DuePart;
      E.PassTurn(s, now, rollover);
      CollectedAreTheDue(E.ExpireOne(s, now), now, rollover);
    }
  }

  /** `timers` are the objects named by `order`. */
  ghost predicate Named(registry: seq<Timer>, timers: seq<Timer>, order: seq<M.TimerId>) {
    |timers| == |order| &&
    forall j | 0 <= j < |timers| :: order[j] < |registry| && timers[j] == registry[order[j]]
  }

  lemma NamedSplice(registry: seq<Timer>, timers: seq<Timer>, order: seq<M.TimerId>, i: nat, ts: seq<Timer>,
    mid: seq<M.TimerId>, j: nat)
    requires Named(registry, timers, order) && Named(registry, ts, mid) && i <= j <= |order|
    ensures Named(registry, timers[..i] + ts + timers[j..], Spliced(order, i, mid, j))
  {}

  ghost predicate Recorded(registry: seq<Timer>, recs: seq<M.Record>)
    reads registry
  {
    |registry| == |recs| &&
    forall i | 0 <= i < |registry| :: registry[i].id == i && registry[i].Rec() == recs[i]
  }

  class TimerManager {
    var timers: seq<Timer>  // m_timers, in iteration order
    var tickled: bool
    var previous: int
    ghost var registry: seq<Timer>  // every timer made so far, by id
    ghost var model: M.State

    ghost predicate Valid()
      reads this, registry
    {
      && M.Valid(model)
      && Recorded(registry, model.recs)
      && Named(registry, timers, model.order)
      && tickled == model.tickled && previous == model.previous
    }

    ghost predicate Mine(t: Timer)
      reads this
    {
      t.id < |registry| && registry[t.id] == t
    }

    constructor (now: int)
      ensures Valid() && registry == [] && model == M.State([], [], false, now)
    {
      timers, tickled, previous := [], false, now;
      registry, model := [], M.State([], [], false, now);
    }

    /** The index of the set's lower bound for a deadline. */
    method Locate(key: int) returns (i: nat)
      requires Valid()
      ensures i == |M.Before(model.recs, model.order, key)|
    {
      i := 0;
      BeforeGrows(model.recs, model.order, key, 0);
      while i < |timers| && timers[i].next < key
        invariant i <= |M.Before(model.recs, model.order, key)|
        invariant i < |timers| ==> (i < |M.Before(model.recs, model.order, key)| <==> timers[i].next < key)
      {
        i := i + 1;
        BeforeGrows(model.recs, model.order, key, i);
      }
    }

    method Insert(t: Timer) returns (atBegin: bool)
      requires Valid() && Mine(t)
      modifies this
      ensures Valid() && registry == old(registry) && tickled == old(tickled)
      ensures model == old(model).(order := M.Insert(old(model).recs, old(model).order, t.id))
      ensures atBegin <==> old(model).order == [] || t.next <= old(model).recs[old(model).order[0]].next
    {
      hide M.Ordered, M.Insert, M.Before, Recorded;
      assert t.Rec() == model.recs[t.id] by { RecordOf(t); }
      var i := Locate(t.next);
      InsertSplits(model.recs, model.order, t.id);
      LowerBoundZero(t.next);
      KeyAt(i);
      atBegin := i == 0;
      if !(i < |timers| && timers[i].next == t.next) {
        NamedSplice(registry, timers, model.order, i, [t], [t.id], i);
        timers := timers[..i] + [t] + timers[i..];
      }
      model := model.(order := M.Insert(model.recs, model.order, t.id));
    }

    lemma RecordOf(t: Timer)
      requires Valid() && Mine(t)
      ensures t.id < |model.recs| && t.Rec() == model.recs[t.id]
    {}

    lemma KeyAt(i: nat)
      requires Valid()
      ensures |timers| == |model.order|
      ensures i < |timers| ==> model.order[i] < |model.recs| && timers[i].next == model.recs[model.order[i]].next
    {}

    lemma LowerBoundZero(key: int)
      requires Valid()
      ensures |M.Before(model.recs, model.order, key)| == 0 <==>
        model.order == [] || key <= model.recs[model.order[0]].next
    {}

    /** `find` then `erase` of a deadline. */
    method Erase(key: int) returns (found: bool)
      requires Valid()
      modifies this
      ensures Valid() && registry == old(registry) && tickled == old(tickled)
      ensures model == old(model).(order := M.EraseKey(old(model).recs, old(model).order, key))
      ensures found <==> M.FindKey(old(model).recs, old(model).order, key).Some?
    {
      hide M.Ordered, M.EraseKey, M.FindKey, M.Before, Recorded;
      var i := Locate(key);
      EraseSplits(model.recs, model.order, key);
      FindSplits(model.recs, model.order, key);
      KeyAt(i);
      found := i < |timers| && timers[i].next == key;
      if found {
        NamedSplice(registry, timers, model.order, i, [], [], i + 1);
        timers := timers[..i] + timers[i + 1..];
      }
      model := model.(order := M.EraseKey(model.recs, model.order, key));
    }

    /** Updates one timer that is outside the set or keeps its deadline. */
    method Store(t: Timer, ms: nat, next: int, cb: Option<Callback>)
      requires Valid() && Mine(t)
      requires next == t.next || t.id !in model.order
      modifies this`model, t
      ensures Valid()
      ensures model == old(model).(recs := old(model).recs[t.id := M.Record(t.recurring, ms, next, cb)])
      ensures t.ms == ms && t.next == next && t.cb == cb
    {
      hide M.Ordered;
      M.Members(model.recs, model.order);
      t.ms, t.next, t.cb := ms, next, cb;
      M.OrderedFrame(model.recs, model.recs[t.id := t.Rec()], model.order);
      model := model.(recs := model.recs[t.id := t.Rec()]);
    }

    /** Erase by deadline, then new fields; nothing changes when no element has the deadline. */
    method TakeOut(t: Timer, ms: nat, next: int) returns (found: bool)
      requires Valid() && Mine(t)
      modifies this, t
      ensures Valid() && registry == old(registry)
      ensures found <==> M.FindKey(old(model).recs, old(model).order, old(t.next)).Some?
      ensures model == if found then M.TakeOut(old(model), t.id, M.Record(t.recurring, ms, next, old(t.cb)))
        else old(model)
    {
      hide M.Ordered, M.EraseKey, M.FindKey, Named;
      found := Erase(t.next);
      if found {
        Store(t, ms, next, t.cb);
      } else {
        NothingToErase(old(model).recs, old(model).order, t.next);
      }
    }

    method Cancel(t: Timer) returns (r: bool)
      requires Valid() && Mine(t)
      modifies this, t
      ensures Valid() && registry == old(registry)
      ensures (model, r) == M.Cancel(old(model), t.id)
    {
      if t.cb.None? { return false; }
      hide M.Ordered, M.EraseKey, Named;
      Store(t, t.ms, t.next, None);
      var _ := Erase(t.next);
      r := true;
    }

    method Refresh(t: Timer, now: int) returns (r: bool)
      requires Valid() && Mine(t)
      modifies this, t
      ensures Valid() && registry == old(registry)
      ensures (model, r) == M.Refresh(old(model), t.id, now)
    {
      if t.cb.None? { return false; }
      hide M.Ordered, M.TakeOut, M.FindKey, M.Insert, Named;
      var found := TakeOut(t, t.ms, now + M.Delay(t.ms));
      if !found { return false; }
      var _ := Insert(t);
      r := true;
    }

    /** The private `addTimer`; `tickle` says whether `onTimerInsertedAtFront` is called. */
    method Enqueue(t: Timer) returns (tickle: bool)
      requires Valid() && Mine(t)
      modifies this
      ensures Valid() && registry == old(registry)
      ensures (model, tickle) == M.Enqueue(old(model), t.id)
    {
      var atBegin := Insert(t);
      tickle := atBegin && !tickled;
      if tickle {
        tickled := true;
        model := model.(tickled := true);
      }
    }

    method Reset(t: Timer, ms: nat, fromNow: bool, now: int) returns (r: bool, tickle: bool)
      requires Valid() && Mine(t)
      modifies this, t
      ensures Valid() && registry == old(registry)
      ensures (model, r, tickle) == M.Reset(old(model), t.id, ms, fromNow, now)
    {
      hide M.Ordered, M.TakeOut, M.FindKey, M.Enqueue, Named, Recorded;
      RecordOf(t);
      if ms == t.ms && !fromNow { return true, false; }
      if t.cb.None? { return false, false; }
      var start := if fromNow then now else t.next - M.Delay(t.ms);
      var found := TakeOut(t, ms, start + M.Delay(ms));
      if !found { return false, false; }
      tickle := Enqueue(t);
      r := true;
    }

    method AddTimer(ms: nat, cb: Callback, recurring: bool, now: int) returns (t: Timer, tickle: bool)
      requires Valid()
      modifies this
      ensures Valid() && fresh(t) && Mine(t) && registry == old(registry) + [t]
      ensures (model, tickle) == M.Add(old(model), ms, cb, recurring, now)
    {
      hide M.Ordered, M.Enqueue;
      M.Members(model.recs, model.order);
      t := new Timer(|registry|, ms, cb, recurring, now);
      registry := registry + [t];
      M.OrderedFrame(model.recs, model.recs + [t.Rec()], model.order);
      model := model.(recs := model.recs + [t.Rec()]);
      tickle := Enqueue(t);
    }

    method GetNextTimer(now: int) returns (left: nat)
      requires Valid()
      modifies this
      ensures Valid() && registry == old(registry)
      ensures (model, left) == M.NextTimer(old(model), now)
    {
      tickled := false;
      model := model.(tickled := false);
      if timers == [] { return M.NO_TIMER; }
      var time := timers[0].next;
      if now >= time { left := 0; } else { left := (time - now) / M.NS_PER_MS; }
    }

    method HasTimer() returns (r: bool)
      requires Valid()
      ensures r <==> model.order != []
    {
      r := timers != [];
    }

    method DetectClockRollover(now: int) returns (rollover: bool)
      requires Valid()
      modifies this
      ensures Valid() && registry == old(registry)
      ensures rollover == M.Rollover(old(model), now) && model == old(model).(previous := now)
    {
      rollover := now < previous - M.ROLLOVER_NS;
      previous := now;
      model := model.(previous := now);
    }

    /** `now` was read before the lock was taken, `clock` under it. */
    method ListExpiredCb(now: int, clock: int) returns (cbs: seq<Option<Callback>>)
      requires Valid() && !E.Stuck(model, now, M.Rollover(model, clock))
      modifies this, registry
      ensures Valid() && registry == old(registry)
      ensures model == E.ListExpired(old(model), now, clock).0
      ensures var due := E.DuePart(old(model), now, M.Rollover(old(model), clock));
        |cbs| == |due| && forall i | 0 <= i < |due| ::
          due[i] < |old(model).recs| && cbs[i] == old(model).recs[due[i]].cb
    {
      hide M.Ordered, E.Stuck, E.ExpireOne, E.DuePart, Recorded, Named, E.Due, E.ExpireAll, Collected;
      var rollover := DetectClockRollover(clock);
      cbs := [];
      ghost var start := model;
      StuckIgnoresPrevious(old(model), start, now, rollover);
      GuardIsDue(now, rollover);
      while (timers != [] && rollover) || (timers != [] && timers[0].next <= now)
        invariant Valid() && registry == old(registry)
        invariant !E.Stuck(model, now, rollover)
        invariant E.ExpireAll(start, now, rollover).0 == E.ExpireAll(model, now, rollover).0
        invariant Collected(start, now, rollover) == cbs + Collected(model, now, rollover)
        invariant E.Due(model, now, rollover) <==> timers != [] && (rollover || timers[0].next <= now)
        decreases |E.DuePart(model, now, rollover)|
      {
        E.ExpireOneProgress(model, now, rollover);
        CollectOne(model, now, rollover);
        var cb := ExpireFirst(now);
        cbs := cbs + [cb];
        GuardIsDue(now, rollover);
      }
      CollectOne(model, now, rollover);
      CollectedAreTheDue(start, now, rollover);
    }

    lemma GuardIsDue(now: int, rollover: bool)
      requires Valid()
      ensures E.Due(model, now, rollover) <==> timers != [] && (rollover || timers[0].next <= now)
    {
      KeyAt(0);
    }

    lemma StuckIgnoresPrevious(s: M.State, s': M.State, now: int, rollover: bool)
      requires M.Valid(s) && s' == s.(previous := s'.previous)
      ensures E.Stuck(s, now, rollover) == E.Stuck(s', now, rollover)
      ensures E.DuePart(s, now, rollover) == E.DuePart(s', now, rollover)
    {
      assert forall t | t in s.order && t < |s.recs| ::
        E.StuckAt(s, now, rollover, t) == E.StuckAt(s', now, rollover, t);
    }

    /** The body of the expiry loop. */
    method ExpireFirst(now: int) returns (cb: Option<Callback>)
      requires Valid() && timers != []
      modifies this, registry
      ensures Valid() && registry == old(registry)
      ensures model == E.ExpireOne(old(model), now) && cb == old(model).recs[old(model).order[0]].cb
    {
      hide M.Ordered, M.Insert;
      E.Turn(model, now);
      var temp := timers[0];
      assert M.Valid(model.(order := model.order[1..])) by { RestIsOrdered(); }
      timers := timers[1..];
      model := model.(order := model.order[1..]);
      cb := temp.cb;
      hide Named, Recorded;
      if temp.recurring {
        Store(temp, temp.ms, now + M.Delay(temp.ms), temp.cb);
        var _ := Insert(temp);
      } else {
        Store(temp, temp.ms, temp.next, None);
      }
    }

    lemma RestIsOrdered()
      requires Valid() && model.order != []
      ensures M.Valid(model.(order := model.order[1..]))
    {}
  }
}
