/** What every reactor operation keeps, and when it can fail. */
module ReactorProofs {
  import opened Common
  import opened ReactorModel

  /** The invariant without its part about the kernel. */
  ghost predicate Core(s: State) {
    && FdsOk(s.fds) && HistoryOk(s) && ResolvedOk(s)
    && s.pending == Bits(s.fds)
    && |s.regs| == s.pending + |s.tasks| + |s.dropped|
  }

  lemma {:induction false} BitsUpdate(fds: seq<FdContext>, fd: nat, ctx: FdContext)
    requires fd < |fds|
    ensures Bits(fds[fd := ctx]) == Bits(fds) - |fds[fd].events| + |ctx.events|
    ensures Bits(fds) >= |fds[fd].events|
  {
    if fd == 0 {
      assert fds[fd := ctx][1..] == fds[1..];
    } else {
      BitsUpdate(fds[1..], fd - 1, ctx);
      assert fds[fd := ctx][1..] == fds[1..][fd - 1 := ctx];
    }
  }

  lemma {:induction false} BitsGrow(fds: seq<FdContext>, more: seq<FdContext>)
    requires forall i | 0 <= i < |more| :: more[i].events == {}
    ensures Bits(fds + more) == Bits(fds)
    decreases |fds|, |more|
  {
    if fds != [] {
      assert (fds + more)[1..] == fds[1..] + more;
      BitsGrow(fds[1..], more);
    } else if more != [] {
      assert fds + more == more && more == [] + more;
      BitsGrow([], more[1..]);
      assert [] + more[1..] == more[1..];
    }
  }

  lemma GrowKeeps(s: State, fd: nat)
    requires Inv(s)
    ensures Inv(Grow(s, fd)) && fd < |Grow(s, fd).fds|
    ensures forall i | 0 <= i < |s.fds| :: Grow(s, fd).fds[i] == s.fds[i]
  {
    if |s.fds| <= fd {
      var s' := Grow(s, fd);
      var more := s'.fds[|s.fds|..];
      assert s'.fds == s.fds + more;
      BitsGrow(s.fds, more);
      assert forall r | 0 <= r < |s.regs| :: Waiting(s', r) == Waiting(s, r);
      forall i: nat, ev: Event ensures SlotMatches(s', i, ev) { assert SlotMatches(s, i, ev); }
      forall i | 0 <= i < |s'.tasks| ensures TaskMatches(s', s'.tasks[i]) { assert TaskMatches(s, s.tasks[i]); }
    }
  }

  ghost function Added(s: State, fd: nat, ev: Event, scheduler: nat, w: Waiter): FdContext
    requires fd < |s.fds|
  {
    s.fds[fd].(events := s.fds[fd].events + {ev}).Set(ev, Slot(Some(scheduler), FiberOf(w), CallbackOf(w), |s.regs|))
  }

  lemma AddShape(s: State, fd: nat, ev: Event, scheduler: nat, w: Waiter)
    requires FdsOk(s.fds) && KernelOk(s) && fd < |s.fds| && ev !in s.fds[fd].events
    ensures AddEvent(s, fd, ev, scheduler, w) ==
      (s.(fds := s.fds[fd := Added(s, fd, ev, scheduler, w)], pending := s.pending + 1,
          kernel := s.kernel[fd := s.fds[fd].events + {ev}],
          regs := s.regs + [Registration(fd, ev, scheduler, w)]), Success)
  {
    assert ContextOk(s.fds[fd]);
    assert s.fds[fd].events == {} <==> fd !in s.kernel;
  }

  lemma AddParts(s: State, fd: nat, ev: Event, scheduler: nat, w: Waiter)
    requires FdsOk(s.fds) && KernelOk(s) && fd < |s.fds| && ev !in s.fds[fd].events
    ensures var s' := AddEvent(s, fd, ev, scheduler, w).0;
      && s'.fds == s.fds[fd := Added(s, fd, ev, scheduler, w)] && s'.pending == s.pending + 1
      && s'.kernel == s.kernel[fd := s.fds[fd].events + {ev}] && s'.tasks == s.tasks && |s'.regs| == |s.regs| + 1
  {
    hide AddEvent;
    AddShape(s, fd, ev, scheduler, w);
  }

  /** An `addEvent` of an event that is not registered succeeds and registers it. */
  lemma AddRegisters(s: State, fd: nat, ev: Event, scheduler: nat, w: Waiter)
    requires Inv(s) && fd < |s.fds| && ev !in s.fds[fd].events
    ensures var (s', code) := AddEvent(s, fd, ev, scheduler, w);
      && code == Success && Inv(s')
      && s'.regs == s.regs + [Registration(fd, ev, scheduler, w)] && Waiting(s', |s.regs|) == 1
  {
    hide AddEvent, HistoryOk, ResolvedOk, Bits, KernelOk;
    AddShape(s, fd, ev, scheduler, w);
    var s' := AddEvent(s, fd, ev, scheduler, w).0;
    BitsUpdate(s.fds, fd, Added(s, fd, ev, scheduler, w));
    AddedTables(s, s', fd, ev, scheduler, w);
    SlotsAfterAdd(s, s', fd, ev, scheduler, w);
    ResolvedAfterAdd(s, s', fd, ev);
  }

  /** The table and the kernel after an event was added. */
  lemma AddedTables(s: State, s': State, fd: nat, ev: Event, scheduler: nat, w: Waiter)
    requires FdsOk(s.fds) && KernelOk(s) && fd < |s.fds| && ev !in s.fds[fd].events
    requires s'.fds == s.fds[fd := Added(s, fd, ev, scheduler, w)]
    requires s'.kernel == s.kernel[fd := s.fds[fd].events + {ev}]
    ensures FdsOk(s'.fds) && KernelOk(s')
    ensures |Added(s, fd, ev, scheduler, w).events| == |s.fds[fd].events| + 1
  {
    var ctx' := Added(s, fd, ev, scheduler, w);
    assert ContextOk(s.fds[fd]);
    assert ContextOk(ctx') by {
      forall e: Event ensures if e in ctx'.events then Full(ctx'.Get(e)) else ctx'.Get(e) == EMPTY {}
    }
  }

  lemma SlotsAfterAdd(s: State, s': State, fd: nat, ev: Event, scheduler: nat, w: Waiter)
    requires HistoryOk(s) && fd < |s.fds| && ev !in s.fds[fd].events
    requires s' == s.(
      fds := s.fds[fd := s.fds[fd].(events := s.fds[fd].events + {ev})
        .Set(ev, Slot(Some(scheduler), FiberOf(w), CallbackOf(w), |s.regs|))],
      pending := s'.pending, kernel := s'.kernel, regs := s.regs + [Registration(fd, ev, scheduler, w)])
    ensures HistoryOk(s')
  {
    forall i: nat, e: Event ensures SlotMatches(s', i, e) {
      assert SlotMatches(s, i, e);
    }
    forall i | 0 <= i < |s'.tasks| ensures TaskMatches(s', s'.tasks[i]) {
      assert TaskMatches(s, s.tasks[i]);
    }
  }

  lemma ResolvedAfterAdd(s: State, s': State, fd: nat, ev: Event)
    requires Core(s) && fd < |s.fds| && ev !in s.fds[fd].events
    requires |s'.fds| == |s.fds| && s'.tasks == s.tasks && s'.dropped == s.dropped && |s'.regs| == |s.regs| + 1
    requires s.regs <= s'.regs
    requires forall i | 0 <= i < |s.fds| && i != fd :: s'.fds[i] == s.fds[i]
    requires s'.fds[fd].events == s.fds[fd].events + {ev}
    requires forall e: Event | e != ev :: s'.fds[fd].Get(e) == s.fds[fd].Get(e)
    requires s'.fds[fd].Get(ev).reg == |s.regs| && s'.regs[|s.regs|].fd == fd && s'.regs[|s.regs|].ev == ev
    ensures ResolvedOk(s')
  {
    forall r | 0 <= r < |s'.regs|
      ensures Waiting(s', r) + TimesScheduled(s'.tasks, r) + TimesDropped(s'.dropped, r) == 1
    {
      if r < |s.regs| {
        assert Waiting(s', r) == Waiting(s, r);
      } else {
        NewIsUnresolved(s, r);
      }
    }
  }

  lemma NewIsUnresolved(s: State, r: nat)
    requires HistoryOk(s) && |s.regs| <= r
    ensures TimesScheduled(s.tasks, r) == 0 && TimesDropped(s.dropped, r) == 0
  {
    forall i | 0 <= i < |s.tasks| ensures s.tasks[i].reg != r { assert TaskMatches(s, s.tasks[i]); }
    NeverScheduled(s.tasks, r);
    NeverDropped(s.dropped, r);
  }

  lemma {:induction false} NeverScheduled(tasks: seq<Task>, r: nat)
    requires forall i | 0 <= i < |tasks| :: tasks[i].reg != r
    ensures TimesScheduled(tasks, r) == 0
  {
    if tasks != [] { NeverScheduled(tasks[..|tasks| - 1], r); }
  }

  lemma {:induction false} NeverDropped(dropped: seq<nat>, r: nat)
    requires r !in dropped
    ensures TimesDropped(dropped, r) == 0
  {
    if dropped != [] { NeverDropped(dropped[..|dropped| - 1], r); }
  }

  /** Emptying one slot leaves the other slots matching and the other registrations where they were. */
  lemma SlotCleared(s: State, s': State, fd: nat, ev: Event)
    requires Core(s) && fd < |s.fds| && ev in s.fds[fd].events
    requires s'.fds == s.fds[fd := s.fds[fd].(events := s.fds[fd].events - {ev}).Set(ev, EMPTY)] && s'.regs == s.regs
    ensures FdsOk(s'.fds) && Bits(s'.fds) == Bits(s.fds) - 1
    ensures forall i: nat, e: Event :: SlotMatches(s', i, e)
    ensures var r := s.fds[fd].Get(ev).reg;
      && r < |s.regs| && Waiting(s, r) == 1 && Waiting(s', r) == 0 && SlotMatches(s, fd, ev)
      && forall q | 0 <= q < |s.regs| && q != r :: Waiting(s', q) == Waiting(s, q)
  {
    var ctx' := s'.fds[fd];
    assert ContextOk(s.fds[fd]);
    assert ContextOk(ctx');
    BitsUpdate(s.fds, fd, ctx');
    assert |s.fds[fd].events - {ev}| == |s.fds[fd].events| - 1;
    forall i: nat, e: Event ensures SlotMatches(s', i, e) { assert SlotMatches(s, i, e); }
    assert SlotMatches(s, fd, ev);
  }

  /** One resolution moves the waiter into its scheduler's queue, exactly as it was registered. */
  lemma ResolveKeeps(s: State, fd: nat, ev: Event)
    requires Core(s) && fd < |s.fds| && ev in s.fds[fd].events
    ensures var ((s', code), r) := (Resolve(s, fd, ev), s.fds[fd].Get(ev).reg);
      && code == Success && Core(s') && s'.kernel == s.kernel && s'.regs == s.regs && s'.dropped == s.dropped
      && s'.fds == s.fds[fd := s.fds[fd].(events := s.fds[fd].events - {ev}).Set(ev, EMPTY)]
      && r < |s.regs| && Waiting(s, r) == 1 && |s'.tasks| == |s.tasks| + 1 && s.tasks <= s'.tasks
         && s'.tasks[|s.tasks|].reg == r
  {
    var (s', code) := Resolve(s, fd, ev);
    assert ContextOk(s.fds[fd]);
    SlotCleared(s, s', fd, ev);
    var slot := s.fds[fd].Get(ev);
    var task := s'.tasks[|s.tasks|];
    assert TaskMatches(s', task);
    forall i | 0 <= i < |s'.tasks| ensures TaskMatches(s', s'.tasks[i]) {
      if i < |s.tasks| { assert TaskMatches(s, s.tasks[i]); }
    }
    forall r | 0 <= r < |s'.regs|
      ensures Waiting(s', r) + TimesScheduled(s'.tasks, r) + TimesDropped(s'.dropped, r) == 1
    {
      assert s'.tasks[..|s.tasks|] == s.tasks;
    }
  }

  /** Resolving a set of registered events clears exactly those. */
  lemma ResolveAllKeeps(s: State, fd: nat, evs: Mask)
    requires Core(s) && fd < |s.fds| && evs <= s.fds[fd].events
    ensures var (s', code) := ResolveAll(s, fd, evs);
      && code == Success && Core(s') && s'.kernel == s.kernel && s'.regs == s.regs && s'.dropped == s.dropped
      && |s'.fds| == |s.fds| && s'.fds[fd].events == s.fds[fd].events - evs
      && (forall i | 0 <= i < |s.fds| && i != fd :: s'.fds[i] == s.fds[i])
      && s.tasks <= s'.tasks
  {
    hide Resolve, Core;
    var s1 := s;
    if READ in evs {
      ResolveKeeps(s, fd, READ);
      s1 := Resolve(s, fd, READ).0;
    }
    if WRITE in evs {
      ResolveKeeps(s1, fd, WRITE);
    }
    EventsAreTwo(evs);
  }

  lemma EventsAreTwo(evs: Mask)
    ensures evs <= {READ, WRITE}
  {
    forall ev | ev in evs ensures ev in {READ, WRITE} {
      match ev case READ => case WRITE =>
    }
  }

  /** Resolving an unregistered event is the failed assertion of `triggerEvent`. */
  lemma ResolveAllAborts(s: State, fd: nat, evs: Mask)
    requires Core(s) && fd < |s.fds| && !(evs <= s.fds[fd].events)
    ensures ResolveAll(s, fd, evs).1 == Aborted
  {
    hide Core;
    EventsAreTwo(evs);
    if READ in evs && READ in s.fds[fd].events { ResolveKeeps(s, fd, READ); }
  }

  lemma {:induction false} KernelFollows(s: State, s': State, fd: nat)
    requires KernelOk(s) && fd < |s.fds| && s.fds[fd].events != {} && |s'.fds| == |s.fds|
    requires forall i | 0 <= i < |s.fds| && i != fd :: s'.fds[i].events == s.fds[i].events
    requires s'.kernel == if s'.fds[fd].events != {} then s.kernel[fd := s'.fds[fd].events] else s.kernel - {fd}
    ensures KernelOk(s')
  {}

  /** The interest set once the events of `fd` are cut down to `left`. */
  ghost function Narrowed(kernel: map<nat, Mask>, fd: nat, left: Mask): map<nat, Mask> {
    if left != {} then kernel[fd := left] else kernel - {fd}
  }

  /** Narrowing a watched descriptor is a legal MOD or DEL. */
  lemma NarrowIsLegal(s: State, fd: nat, left: Mask)
    requires KernelOk(s) && fd < |s.fds| && s.fds[fd].events != {}
    ensures EpollCtl(s.kernel, if left != {} then CTL_MOD else CTL_DEL, fd, left) == Some(Narrowed(s.kernel, fd, left))
  {}

  lemma DelShape(s: State, fd: nat, ev: Event)
    requires Inv(s) && fd < |s.fds| && ev in s.fds[fd].events
    ensures var (s', left) := (DelEvent(s, fd, ev).0, s.fds[fd].events - {ev});
      && s'.fds == s.fds[fd := s.fds[fd].(events := left).Set(ev, EMPTY)] && s'.pending == s.pending - 1
      && s'.kernel == Narrowed(s.kernel, fd, left) && s'.tasks == s.tasks && s'.regs == s.regs
  {
    NarrowIsLegal(s, fd, s.fds[fd].events - {ev});
  }

  lemma CancelShape(s: State, fd: nat, ev: Event)
    requires Inv(s) && fd < |s.fds| && ev in s.fds[fd].events
    ensures CancelEvent(s, fd, ev) == Resolve(s.(kernel := Narrowed(s.kernel, fd, s.fds[fd].events - {ev})), fd, ev)
  {
    NarrowIsLegal(s, fd, s.fds[fd].events - {ev});
  }

  lemma CancelAllShape(s: State, fd: nat)
    requires Inv(s) && fd < |s.fds| && s.fds[fd].events != {}
    ensures CancelAll(s, fd).0 == ResolveAll(s.(kernel := Narrowed(s.kernel, fd, {})), fd, s.fds[fd].events).0
  {
    NarrowIsLegal(s, fd, {});
  }

  lemma DispatchShape(s: State, r: Report)
    requires Inv(s) && r.fd < |s.fds| && s.fds[r.fd].events * RealEvents(r, s.fds[r.fd].events) != {}
    ensures var happened := RealEvents(r, s.fds[r.fd].events);
      Dispatch(s, r) == ResolveAll(s.(kernel := Narrowed(s.kernel, r.fd, s.fds[r.fd].events - happened)), r.fd,
        happened)
  {
    NarrowIsLegal(s, r.fd, s.fds[r.fd].events - RealEvents(r, s.fds[r.fd].events));
  }

  /** The descriptor without event `ev`, its slot reset. */
  ghost function Cleared(s: State, fd: nat, ev: Event): seq<FdContext>
    requires fd < |s.fds|
  {
    s.fds[fd := s.fds[fd].(events := s.fds[fd].events - {ev}).Set(ev, EMPTY)]
  }

  lemma DelKeeps(s: State, fd: nat, ev: Event)
    requires Inv(s) && fd < |s.fds| && ev in s.fds[fd].events
    ensures var (s', code) := DelEvent(s, fd, ev);
      && code == Success && Inv(s') && s'.regs == s.regs && s'.tasks == s.tasks
      && s'.fds == Cleared(s, fd, ev) && s'.dropped == s.dropped + [s.fds[fd].Get(ev).reg]
  {
    hide KernelOk, Bits, FdsOk;
    var (s', code) := DelEvent(s, fd, ev);
    DelLegal(s, fd, ev);
    SlotCleared(s, s', fd, ev);
    KernelFollows(s, s', fd);
    HistoryAfterDel(s, s', fd, ev);
  }

  lemma DelLegal(s: State, fd: nat, ev: Event)
    requires Inv(s) && fd < |s.fds| && ev in s.fds[fd].events
    ensures DelEvent(s, fd, ev).1 == Success
    ensures DelEvent(s, fd, ev).0.kernel == Narrowed(s.kernel, fd, s.fds[fd].events - {ev})
  {
    NarrowIsLegal(s, fd, s.fds[fd].events - {ev});
  }

  lemma HistoryAfterDel(s: State, s': State, fd: nat, ev: Event)
    requires HistoryOk(s) && ResolvedOk(s) && s'.tasks == s.tasks && s'.regs == s.regs
    requires fd < |s.fds| && s.fds[fd].Get(ev).reg < |s.regs|
    requires s'.dropped == s.dropped + [s.fds[fd].Get(ev).reg]
    requires var r := s.fds[fd].Get(ev).reg;
      && Waiting(s, r) == 1 && Waiting(s', r) == 0
      && forall q | 0 <= q < |s.regs| && q != r :: Waiting(s', q) == Waiting(s, q)
    requires forall i: nat, e: Event :: SlotMatches(s', i, e)
    ensures HistoryOk(s') && ResolvedOk(s')
  {
    hide Waiting, SlotMatches;
    forall i | 0 <= i < |s'.tasks| ensures TaskMatches(s', s'.tasks[i]) { assert TaskMatches(s, s.tasks[i]); }
    forall r | 0 <= r < |s'.regs|
      ensures Waiting(s', r) + TimesScheduled(s'.tasks, r) + TimesDropped(s'.dropped, r) == 1
    {
      assert s'.dropped[..|s.dropped|] == s.dropped;
    }
  }

  lemma CancelKeeps(s: State, fd: nat, ev: Event)
    requires Inv(s) && fd < |s.fds| && ev in s.fds[fd].events
    ensures var (s', code) := CancelEvent(s, fd, ev);
      && code == Success && Inv(s') && s'.regs == s.regs && s'.dropped == s.dropped && s'.fds == Cleared(s, fd, ev)
      && |s'.tasks| == |s.tasks| + 1 && s.tasks <= s'.tasks && s'.tasks[|s.tasks|].reg == s.fds[fd].Get(ev).reg
  {
    hide Resolve, Inv, Core, KernelOk, Waiting, CancelEvent;
    InvCore(s);
    CancelShape(s, fd, ev);
    var s1 := s.(kernel := Narrowed(s.kernel, fd, s.fds[fd].events - {ev}));
    CoreIgnoresKernel(s, s1);
    ResolveKeeps(s1, fd, ev);
    var s' := Resolve(s1, fd, ev).0;
    KernelFollows(s, s', fd);
    CoreInv(s');
  }

  lemma CoreInv(s: State)
    ensures Core(s) && KernelOk(s) <==> Inv(s)
  {}

  lemma CoreIgnoresKernel(s: State, s1: State)
    requires Core(s) && s1 == s.(kernel := s1.kernel)
    ensures Core(s1)
  {
    forall i: nat, e: Event ensures SlotMatches(s1, i, e) { assert SlotMatches(s, i, e); }
    forall i | 0 <= i < |s1.tasks| ensures TaskMatches(s1, s1.tasks[i]) { assert TaskMatches(s, s.tasks[i]); }
    assert forall r | 0 <= r < |s.regs| :: Waiting(s1, r) == Waiting(s, r);
  }

  /** Clearing a nonempty part of a descriptor's events, kernel first. */
  lemma ClearKeeps(s: State, fd: nat, evs: Mask)
    requires Inv(s) && fd < |s.fds| && s.fds[fd].events != {} && evs <= s.fds[fd].events
    ensures var left := s.fds[fd].events - evs;
      var (s', code) := ResolveAll(s.(kernel := if left != {} then s.kernel[fd := left] else s.kernel - {fd}), fd, evs);
      && code == Success && Inv(s') && s'.regs == s.regs && s'.dropped == s.dropped
      && |s'.fds| == |s.fds| && s'.fds[fd].events == left
      && (forall i | 0 <= i < |s.fds| && i != fd :: s'.fds[i] == s.fds[i])
      && s.tasks <= s'.tasks
  {
    hide ResolveAll;
    var left := s.fds[fd].events - evs;
    var s1 := s.(kernel := if left != {} then s.kernel[fd := left] else s.kernel - {fd});
    CoreIgnoresKernel(s, s1);
    ResolveAllKeeps(s1, fd, evs);
    KernelFollows(s, ResolveAll(s1, fd, evs).0, fd);
  }

  lemma CancelAllKeeps(s: State, fd: nat)
    requires Inv(s) && fd < |s.fds| && s.fds[fd].events != {}
    ensures var (s', code) := CancelAll(s, fd);
      && code == Success && Inv(s') && s'.regs == s.regs && s'.dropped == s.dropped
      && |s'.fds| == |s.fds| && s'.fds[fd].events == {}
      && (forall i | 0 <= i < |s.fds| && i != fd :: s'.fds[i] == s.fds[i])
      && s.tasks <= s'.tasks
  {
    hide ResolveAll, Inv;
    ClearKeeps(s, fd, s.fds[fd].events);
    assert fd in s.kernel by { WatchedIfRegistered(s, fd); }
    assert s.fds[fd].events - s.fds[fd].events == {};
  }

  lemma WatchedIfRegistered(s: State, fd: nat)
    requires Inv(s) && fd < |s.fds|
    ensures fd in s.kernel <==> s.fds[fd].events != {}
  {}

  /** Dispatch fails exactly when it meets a registered event together with one that was deregistered
      after the report; otherwise it resolves exactly the events that are both ready and registered. */
  lemma DispatchOutcome(s: State, r: Report)
    requires Inv(s) && r.fd < |s.fds|
    ensures var events := s.fds[r.fd].events;
      var happened := RealEvents(r, events);
      var (s', code) := Dispatch(s, r);
      && (code == Aborted <==> events * happened != {} && !(r.ready <= events))
      && code != Refused
    ensures Dispatch(s, r).1 != Aborted ==>
      var (s', events) := (Dispatch(s, r).0, s.fds[r.fd].events);
      && Inv(s') && s'.regs == s.regs && s'.dropped == s.dropped && |s'.fds| == |s.fds|
      && s'.fds[r.fd].events == events - RealEvents(r, events)
      && s.tasks <= s'.tasks && forall i | 0 <= i < |s.fds| && i != r.fd :: s'.fds[i] == s.fds[i]
  {
    hide ResolveAll, Inv;
    var events := s.fds[r.fd].events;
    var happened := RealEvents(r, events);
    if events * happened != {} {
      WatchedIfRegistered(s, r.fd);
      var left := events - happened;
      var s1 := s.(kernel := if left != {} then s.kernel[r.fd := left] else s.kernel - {r.fd});
      assert Dispatch(s, r) == ResolveAll(s1, r.fd, happened);
      if happened <= events {
        ClearKeeps(s, r.fd, happened);
      } else {
        assert Core(s1) by { InvCore(s); CoreIgnoresKernel(s, s1); }
        ResolveAllAborts(s1, r.fd, happened);
      }
    } else {
      forall ev | ev in events ensures ev !in happened { assert !(ev in events * happened); }
      assert events - happened == events;
    }
  }

  lemma InvCore(s: State)
    requires Inv(s)
    ensures Core(s) && KernelOk(s)
  {}
}
