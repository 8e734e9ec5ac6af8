/** Any run of the reactor: operations of any threads between an epoll report and its dispatch. */
module ReactorRuns {
  import opened Common
  import opened ReactorModel
  import opened ReactorProofs

  /** `reports` are the epoll reports that some idle worker holds but has not dispatched yet. */
  datatype Sys = Sys(r: State, reports: seq<Report>)

  datatype Op =
    | AddOp(fd: nat, ev: Event, scheduler: nat, w: Waiter)
    | DelOp(fd: nat, ev: Event)
    | CancelOp(fd: nat, ev: Event)
    | CancelAllOp(fd: nat)
    | WaitOp(report: Report)
    | DispatchOp(i: nat)

  /** The kernel reports only what it watches; a worker dispatches only what was reported. */
  ghost predicate Enabled(s: Sys, op: Op) {
    match op
    case WaitOp(report) => report.fd in s.r.kernel && report.ready <= s.r.kernel[report.fd]
    case DispatchOp(i) => i < |s.reports| && s.reports[i].fd < |s.r.fds|
    case _ => 2 <= |s.r.fds|
  }

  ghost function Call(s: Sys, op: Op): Outcome
    requires Enabled(s, op)
  {
    match op
    case AddOp(fd, ev, scheduler, w) => AddEvent(s.r, fd, ev, scheduler, w)
    case DelOp(fd, ev) => DelEvent(s.r, fd, ev)
    case CancelOp(fd, ev) => CancelEvent(s.r, fd, ev)
    case CancelAllOp(fd) => CancelAll(s.r, fd)
    case WaitOp(_) => (s.r, Success)
    case DispatchOp(i) => Dispatch(s.r, s.reports[i])
  }

  ghost function Reports(s: Sys, op: Op): seq<Report>
    requires Enabled(s, op)
  {
    match op
    case WaitOp(report) => s.reports + [report]
    case DispatchOp(i) => s.reports[..i] + s.reports[i + 1..]
    case _ => s.reports
  }

  /** The state after `ops`; None once an operation is impossible or a call aborts or is refused. */
  ghost function Run(s: Sys, ops: seq<Op>): Option<Sys>
    decreases |ops|
  {
    if ops == [] then Some(s)
    else if !Enabled(s, ops[0]) || Call(s, ops[0]).1 in {Aborted, Refused} then None
    else Run(Sys(Call(s, ops[0]).0, Reports(s, ops[0])), ops[1..])
  }

  ghost predicate SysInv(s: Sys) {
    Inv(s.r) && forall i | 0 <= i < |s.reports| :: s.reports[i].fd < |s.r.fds|
  }

  /** A report that still meets a registered event but also names one deregistered since. */
  ghost predicate Stale(r: Report, events: Mask) {
    events * RealEvents(r, events) != {} && !(r.ready <= events)
  }

  /** No call is refused by the kernel, and none fails an assertion, except the dispatch of a stale report. */
  lemma CallFailsIff(s: Sys, op: Op)
    requires SysInv(s) && Enabled(s, op)
    ensures Call(s, op).1 != Refused
    ensures Call(s, op).1 == Aborted <==> op.DispatchOp? && Stale(s.reports[op.i], s.r.fds[s.reports[op.i].fd].events)
    ensures Call(s, op).1 != Aborted ==> Inv(Call(s, op).0) && |s.r.fds| <= |Call(s, op).0.fds|
  {
    hide Inv;
    match op
    case AddOp(fd, ev, scheduler, w) =>
      GrowKeeps(s.r, fd);
      var g := Grow(s.r, fd);
      GrowOnce(s.r, fd, ev, scheduler, w);
      if ev !in g.fds[fd].events {
        AddRegisters(g, fd, ev, scheduler, w);
        AddKeepsSize(g, fd, ev, scheduler, w);
      }
    case DelOp(fd, ev) => if fd < |s.r.fds| && ev in s.r.fds[fd].events { DelKeeps(s.r, fd, ev); }
    case CancelOp(fd, ev) => if fd < |s.r.fds| && ev in s.r.fds[fd].events { CancelKeeps(s.r, fd, ev); }
    case CancelAllOp(fd) => if fd < |s.r.fds| && s.r.fds[fd].events != {} { CancelAllKeeps(s.r, fd); }
    case WaitOp(_) =>
    case DispatchOp(i) => DispatchOutcome(s.r, s.reports[i]);
  }

  /** The history only grows: what was scheduled or dropped stays so, and nothing is registered again. */
  lemma HistoryGrows(s: Sys, op: Op)
    requires SysInv(s) && Enabled(s, op) && Call(s, op).1 !in {Aborted, Refused}
    ensures var s' := Call(s, op).0; s.r.regs <= s'.regs && s.r.tasks <= s'.tasks && s.r.dropped <= s'.dropped
    ensures var s' := Call(s, op).0; forall r | 0 <= r < |s.r.regs| :: Waiting(s', r) <= Waiting(s.r, r)
  {
    var s' := Call(s, op).0;
    CallFailsIff(s, op);
    OnlyAppends(s, op);
    assert ResolvedOk(s.r) && ResolvedOk(s');
    forall r | 0 <= r < |s.r.regs| ensures Waiting(s', r) <= Waiting(s.r, r) {
      ScheduledGrows(s.r.tasks, s'.tasks, r);
      DroppedGrows(s.r.dropped, s'.dropped, r);
    }
  }

  lemma OnlyAppends(s: Sys, op: Op)
    requires SysInv(s) && Enabled(s, op) && Call(s, op).1 !in {Aborted, Refused}
    ensures var s' := Call(s, op).0; s.r.regs <= s'.regs && s.r.tasks <= s'.tasks && s.r.dropped <= s'.dropped
  {
    hide Inv, Dispatch, CancelEvent, CancelAll;
    match op
    case CancelOp(fd, ev) =>
      if fd < |s.r.fds| && ev in s.r.fds[fd].events { CancelKeeps(s.r, fd, ev); } else { AbsentStays(s.r, fd, ev); }
    case CancelAllOp(fd) =>
      if fd < |s.r.fds| && s.r.fds[fd].events != {} { CancelAllKeeps(s.r, fd); } else { AbsentStays(s.r, fd, READ); }
    case DispatchOp(i) => DispatchOutcome(s.r, s.reports[i]);
    case _ =>
  }

  lemma AbsentStays(s: State, fd: nat, ev: Event)
    ensures !(fd < |s.fds| && ev in s.fds[fd].events) ==> CancelEvent(s, fd, ev) == (s, Absent)
    ensures !(fd < |s.fds| && s.fds[fd].events != {}) ==> CancelAll(s, fd) == (s, Absent)
  {}

  lemma {:induction false} ScheduledGrows(tasks: seq<Task>, tasks': seq<Task>, r: nat)
    requires tasks <= tasks'
    ensures TimesScheduled(tasks, r) <= TimesScheduled(tasks', r)
    decreases |tasks'|
  {
    if tasks != tasks' {
      ScheduledGrows(tasks, tasks'[..|tasks'| - 1], r);
    }
  }

  lemma {:induction false} DroppedGrows(dropped: seq<nat>, dropped': seq<nat>, r: nat)
    requires dropped <= dropped'
    ensures TimesDropped(dropped, r) <= TimesDropped(dropped', r)
    decreases |dropped'|
  {
    if dropped != dropped' {
      DroppedGrows(dropped, dropped'[..|dropped'| - 1], r);
    }
  }

  lemma GrowOnce(s: State, fd: nat, ev: Event, scheduler: nat, w: Waiter)
    requires 2 <= |s.fds|
    ensures AddEvent(s, fd, ev, scheduler, w) == AddEvent(Grow(s, fd), fd, ev, scheduler, w)
  {}

  lemma AddKeepsSize(s: State, fd: nat, ev: Event, scheduler: nat, w: Waiter)
    requires 2 <= |s.fds|
    ensures |s.fds| <= |AddEvent(s, fd, ev, scheduler, w).0.fds|
  {}

  lemma StepKeepsInv(s: Sys, op: Op)
    requires SysInv(s) && Enabled(s, op) && Call(s, op).1 !in {Aborted, Refused}
    ensures SysInv(Sys(Call(s, op).0, Reports(s, op)))
  {
    hide Inv, Call;
    CallFailsIff(s, op);
    if op.WaitOp? { WatchedIsOpen(s.r, op.report.fd); }
  }

  lemma {:induction false} RunKeepsInv(s: Sys, ops: seq<Op>)
    requires SysInv(s) && Run(s, ops).Some?
    ensures SysInv(Run(s, ops).value)
    decreases |ops|
  {
    hide SysInv, Call, Reports, Enabled;
    if ops != [] {
      StepKeepsInv(s, ops[0]);
      RunKeepsInv(Sys(Call(s, ops[0]).0, Reports(s, ops[0])), ops[1..]);
    }
  }

  lemma WatchedIsOpen(s: State, fd: nat)
    requires Inv(s) && fd in s.kernel
    ensures fd < |s.fds|
  {}

  lemma InitFds()
    ensures FdsOk(Init().fds) && Bits(Init().fds) == 0
  {
    BitsGrow([], seq(INITIAL_FDS, i => IDLE));
    assert [] + seq(INITIAL_FDS, i => IDLE) == Init().fds;
  }

  lemma InitHistory()
    ensures KernelOk(Init()) && HistoryOk(Init()) && ResolvedOk(Init())
  {
    hide Bits;
  }

  lemma InitInv()
    ensures SysInv(Sys(Init(), []))
  {
    hide FdsOk, Bits, KernelOk, HistoryOk, ResolvedOk;
    InitFds();
    InitHistory();
  }

  /** In every reachable state the counter is the number of registered bits and the kernel watches
      exactly those; every registration is waiting, scheduled or dropped, exactly once; and a task
      carries the waiter and scheduler that were registered. */
  lemma EveryRunAccounts(ops: seq<Op>, r: nat)
    requires Run(Sys(Init(), []), ops).Some?
    ensures var s := Run(Sys(Init(), []), ops).value.r;
      && s.pending == Bits(s.fds) && KernelOk(s) && FdsOk(s.fds)
      && |s.regs| == s.pending + |s.tasks| + |s.dropped|
      && (r < |s.regs| ==> Waiting(s, r) + TimesScheduled(s.tasks, r) + TimesDropped(s.dropped, r) == 1)
      && (r < |s.tasks| ==> TaskMatches(s, s.tasks[r]))
  {
    InitInv();
    RunKeepsInv(Sys(Init(), []), ops);
  }

  /** A report is stale only if both events happened and exactly one is still registered. */
  lemma StaleNeedsBoth(r: Report, events: Mask)
    ensures Stale(r, events) ==> RealEvents(r, events) == {READ, WRITE} && |events| == 1
  {
    if Stale(r, events) {
      EventsAreTwo(events);
      EventsAreTwo(RealEvents(r, events));
      var a :| a in events * RealEvents(r, events);
      var b :| b in r.ready && b !in events;
      assert {a, b} == {READ, WRITE};
      assert events == {a};
    }
  }

  /** Such a state is reachable: both events of a descriptor are reported, one is cancelled before the
      worker takes the descriptor's lock, and the dispatch fails the assertion of `triggerEvent`. */
  lemma StaleDispatchIsReachable(fd: nat, f: nat, g: nat)
    requires fd < INITIAL_FDS
    ensures var both := Report(fd, {READ, WRITE}, false);
      var ops := [AddOp(fd, READ, 0, FiberWaiter(f)), AddOp(fd, WRITE, 0, FiberWaiter(g)), WaitOp(both),
        CancelOp(fd, WRITE)];
      var s := Run(Sys(Init(), []), ops);
      s.Some? && Enabled(s.value, DispatchOp(0)) && Call(s.value, DispatchOp(0)).1 == Aborted
  {
    hide Run, Inv, AddEvent, CancelEvent, Dispatch, EpollCtl, Stale, KernelOk;
    var both := Report(fd, {READ, WRITE}, false);
    var s0 := Sys(Init(), []);
    InitInv();
    var s1 := RegisterOne(s0, fd, READ, f);
    var s2 := RegisterOne(s1, fd, WRITE, g);
    assert s2.r.fds[fd].events == {READ, WRITE};
    var s3 := Sys(s2.r, [both]);
    var s4 := Sys(CancelEvent(s3.r, fd, WRITE).0, [both]);
    CallFailsIff(s3, CancelOp(fd, WRITE));
    CancelledMask(s3.r, fd, WRITE);
    assert s4.r.fds[fd].events == {READ, WRITE} - {WRITE} == {READ};
    assert Stale(both, {READ}) by { BothIsStale(both); }
    CallFailsIff(s4, DispatchOp(0));
    RunNil(s4);
    RunCons(s3, CancelOp(fd, WRITE), []);
    assert [CancelOp(fd, WRITE)] + [] == [CancelOp(fd, WRITE)];
    assert Reports(s2, WaitOp(both)) == [both];
    RunCons(s2, WaitOp(both), [CancelOp(fd, WRITE)]);
    RunCons(s1, AddOp(fd, WRITE, 0, FiberWaiter(g)), [WaitOp(both)] + [CancelOp(fd, WRITE)]);
    RunCons(s0, AddOp(fd, READ, 0, FiberWaiter(f)), [AddOp(fd, WRITE, 0, FiberWaiter(g))] +
      ([WaitOp(both)] + [CancelOp(fd, WRITE)]));
    assert [AddOp(fd, READ, 0, FiberWaiter(f)), AddOp(fd, WRITE, 0, FiberWaiter(g)), WaitOp(both),
      CancelOp(fd, WRITE)] ==
      [AddOp(fd, READ, 0, FiberWaiter(f))] +
        ([AddOp(fd, WRITE, 0, FiberWaiter(g))] + ([WaitOp(both)] + [CancelOp(fd, WRITE)]));
  }

  lemma BothIsStale(both: Report)
    requires both.ready == {READ, WRITE}
    ensures Stale(both, {READ})
  {
    assert READ in {READ} * RealEvents(both, {READ});
    assert WRITE in both.ready;
  }

  lemma RunNil(s: Sys)
    ensures Run(s, []) == Some(s)
  {}

  lemma RunCons(s: Sys, op: Op, ops: seq<Op>)
    requires Enabled(s, op) && Call(s, op).1 !in {Aborted, Refused}
    ensures Run(s, [op] + ops) == Run(Sys(Call(s, op).0, Reports(s, op)), ops)
  {
    assert ([op] + ops)[1..] == ops;
  }

  /** One successful registration, as a step of a run with no report outstanding. */
  lemma RegisterOne(s: Sys, fd: nat, ev: Event, f: nat) returns (s': Sys)
    requires s == Sys(Init(), []) || SysInv(s)
    requires s.reports == [] && fd < |s.r.fds| && ev !in s.r.fds[fd].events
    ensures Enabled(s, AddOp(fd, ev, 0, FiberWaiter(f))) && Call(s, AddOp(fd, ev, 0, FiberWaiter(f))).1 == Success
    ensures s' == Sys(Call(s, AddOp(fd, ev, 0, FiberWaiter(f))).0, []) && SysInv(s')
    ensures |s'.r.fds| == |s.r.fds| && s'.r.fds[fd].events == s.r.fds[fd].events + {ev}
    ensures fd in s'.r.kernel && s'.r.kernel[fd] == s'.r.fds[fd].events
  {
    hide Inv, AddEvent;
    InitInv();
    FdsThere(s.r);
    RegisterShape(s.r, fd, ev, f);
    AddRegisters(s.r, fd, ev, 0, FiberWaiter(f));
    s' := Sys(AddEvent(s.r, fd, ev, 0, FiberWaiter(f)).0, []);
  }

  lemma FdsThere(s: State)
    requires Inv(s)
    ensures 2 <= |s.fds|
  {}

  lemma RegisterShape(s: State, fd: nat, ev: Event, f: nat)
    requires Inv(s) && fd < |s.fds| && ev !in s.fds[fd].events
    ensures var s' := AddEvent(s, fd, ev, 0, FiberWaiter(f)).0;
      && |s'.fds| == |s.fds| && s'.fds[fd].events == s.fds[fd].events + {ev}
      && fd in s'.kernel && s'.kernel[fd] == s'.fds[fd].events
  {
    hide AddEvent, HistoryOk, ResolvedOk, Bits;
    AddShape(s, fd, ev, 0, FiberWaiter(f));
  }

  lemma CancelledMask(s: State, fd: nat, ev: Event)
    requires Inv(s) && fd < |s.fds| && ev in s.fds[fd].events
    ensures var s' := CancelEvent(s, fd, ev).0; |s'.fds| == |s.fds| && s'.fds[fd].events == s.fds[fd].events - {ev}
  {
    CancelKeeps(s, fd, ev);
  }
}
