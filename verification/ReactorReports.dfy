/** What a report does when it is dispatched, in the terms of the report alone: EPOLLERR or EPOLLHUP counts as every
    registered event, and otherwise only what is ready counts. */
module ReactorReports {
  import opened ReactorModel
  import opened ReactorProofs
  import R = ReactorRuns

  // ---------------------------------------------------------------- answers

  /** What each call answers: registering succeeds exactly where the event is not registered yet, and taking back
      exactly where there is something to take back. */
  lemma AnswersIff(s: State, fd: nat, ev: Event, scheduler: nat, w: Waiter)
    requires Inv(s)
    ensures var there := fd < |s.fds| && ev in s.fds[fd].events;
      && AddEvent(s, fd, ev, scheduler, w).1 == (if there then Absent else Success)
      && DelEvent(s, fd, ev).1 == (if there then Success else Absent)
      && CancelEvent(s, fd, ev).1 == (if there then Success else Absent)
      && CancelAll(s, fd).1 == (if fd < |s.fds| && s.fds[fd].events != {} then Success else Absent)
  {
    hide Inv, AddEvent, CancelEvent, CancelAll, DelEvent;
    AddAnswers(s, fd, ev, scheduler, w);
    NothingThere(s, fd, ev);
    if fd < |s.fds| && ev in s.fds[fd].events {
      DelKeeps(s, fd, ev);
      CancelKeeps(s, fd, ev);
    }
    if fd < |s.fds| && s.fds[fd].events != {} { CancelAllKeeps(s, fd); }
  }

  lemma NothingThere(s: State, fd: nat, ev: Event)
    ensures !(fd < |s.fds| && ev in s.fds[fd].events) ==>
      DelEvent(s, fd, ev) == (s, Absent) && CancelEvent(s, fd, ev) == (s, Absent)
    ensures !(fd < |s.fds| && s.fds[fd].events != {}) ==> CancelAll(s, fd) == (s, Absent)
  {}

  lemma AddAnswers(s: State, fd: nat, ev: Event, scheduler: nat, w: Waiter)
    requires Inv(s)
    ensures 2 <= |s.fds|
    ensures AddEvent(s, fd, ev, scheduler, w).1 == if fd < |s.fds| && ev in s.fds[fd].events then Absent else Success
  {
    hide HistoryOk, ResolvedOk, KernelOk, Bits;
    GrowKeeps(s, fd);
    R.GrowOnce(s, fd, ev, scheduler, w);
    var g := Grow(s, fd);
    if ev !in g.fds[fd].events { AddRegisters(g, fd, ev, scheduler, w); }
  }

  /** The table begins with 32 descriptors, and grows to one and a half times the number of the one it lacks. */
  lemma TableSize(s: State, fd: nat)
    requires Inv(s)
    ensures |Init().fds| == 32 && 32 <= |s.fds|
    ensures |Grow(s, fd).fds| == if fd < |s.fds| then |s.fds| else fd + fd / 2
  {}

  // ---------------------------------------------------------------- reports

  /** The registrations that wait for `evs`, READ first. */
  function WaitersOf(s: State, fd: nat, evs: Mask): seq<nat>
    requires fd < |s.fds|
  {
    (if READ in evs then [s.fds[fd].read.reg] else []) + (if WRITE in evs then [s.fds[fd].write.reg] else [])
  }

  /** `regs` were queued, in this order and behind what was queued before. */
  predicate QueuedBehind(tasks: seq<Task>, tasks': seq<Task>, regs: seq<nat>) {
    && |tasks'| == |tasks| + |regs| && tasks <= tasks'
    && forall i | 0 <= i < |regs| :: tasks'[|tasks| + i].reg == regs[i]
  }

  lemma ResolveAllQueues(s: State, fd: nat, evs: Mask)
    requires Core(s) && fd < |s.fds| && evs <= s.fds[fd].events
    ensures QueuedBehind(s.tasks, ResolveAll(s, fd, evs).0.tasks, WaitersOf(s, fd, evs))
  {
    hide Resolve, Core;
    var s1 := s;
    if READ in evs {
      ResolveKeeps(s, fd, READ);
      s1 := Resolve(s, fd, READ).0;
    }
    if WRITE in evs { ResolveKeeps(s1, fd, WRITE); }
  }

  /** When dispatch fails its assertion: something registered is to be triggered, and something reported is not
      registered. */
  lemma AbortsIff(s: State, r: Report)
    requires Inv(s) && r.fd < |s.fds|
    ensures var events := s.fds[r.fd].events;
      Dispatch(s, r).1 == Aborted <==>
        !(r.ready <= events) && (events * r.ready != {} || (r.trouble && events != {}))
  {
    hide Inv, Dispatch;
    DispatchOutcome(s, r);
    var events := s.fds[r.fd].events;
    if r.trouble {
      assert events * (r.ready + events) == events;
      if events == {} { assert events * r.ready == {}; }
    }
  }

  /** The events a report is about, among the registered ones. */
  function Reported(r: Report, events: Mask): Mask { if r.trouble then events else events * r.ready }

  /** After any dispatch that does not fail, exactly the reported events are gone and exactly their waiters queued. */
  lemma DispatchReports(s: State, r: Report)
    requires Inv(s) && r.fd < |s.fds| && Dispatch(s, r).1 != Aborted
    ensures var (s', events) := (Dispatch(s, r).0, s.fds[r.fd].events);
      && r.fd < |s'.fds|
      && s'.fds[r.fd].events == (if r.trouble then {} else events - r.ready)
      && QueuedBehind(s.tasks, s'.tasks, WaitersOf(s, r.fd, Reported(r, events)))
  {
    hide Inv, Core, ResolveAll;
    DispatchOutcome(s, r);
    AbortsIff(s, r);
    var events := s.fds[r.fd].events;
    var happened := RealEvents(r, events);
    if events * happened != {} {
      hide Dispatch;
      var s1 := s.(kernel := Narrowed(s.kernel, r.fd, events - happened));
      DispatchShape(s, r);
      InvCore(s);
      CoreIgnoresKernel(s, s1);
      assert happened == Reported(r, events);
      ResolveAllQueues(s1, r.fd, happened);
    } else {
      assert Reported(r, events) == {} by { NothingReported(r, events); }
    }
  }

  lemma NothingReported(r: Report, events: Mask)
    requires events * RealEvents(r, events) == {}
    ensures Reported(r, events) == {} && (r.trouble ==> events == {})
  {
    if r.trouble { assert events * (r.ready + events) == events; }
  }

  /** So a reported event's waiter waits no more and is scheduled, once. */
  lemma ReportedIsScheduledOnce(s: State, r: Report, ev: Event)
    requires Inv(s) && r.fd < |s.fds| && Dispatch(s, r).1 != Aborted && ev in s.fds[r.fd].events
    ensures var (s', q) := (Dispatch(s, r).0, s.fds[r.fd].Get(ev).reg);
      && Inv(s') && q < |s.regs| && |s'.regs| == |s.regs| && Waiting(s, q) == 1
      && (if r.trouble || ev in r.ready then TimesScheduled(s'.tasks, q) == 1 && Waiting(s', q) == 0
          else Waiting(s', q) == 1)
  {
    hide KernelOk, Bits, FdsOk, Dispatch;
    DispatchOutcome(s, r);
    DispatchReports(s, r);
    assert SlotMatches(s, r.fd, ev);
    var s', q := Dispatch(s, r).0, s.fds[r.fd].Get(ev).reg;
    if r.trouble || ev in r.ready {
      var ws := WaitersOf(s, r.fd, Reported(r, s.fds[r.fd].events));
      var i :| 0 <= i < |ws| && ws[i] == q;
      AtLeastOnce(s'.tasks, |s.tasks| + i);
    } else {
      StaysWaiting(s, r, ev);
    }
  }

  lemma {:induction false} AtLeastOnce(tasks: seq<Task>, i: nat)
    requires i < |tasks|
    ensures TimesScheduled(tasks, tasks[i].reg) >= 1
    decreases |tasks|
  {
    if i < |tasks| - 1 { AtLeastOnce(tasks[..|tasks| - 1], i); }
  }

  /** What was not reported keeps its slot. */
  lemma StaysWaiting(s: State, r: Report, ev: Event)
    requires Inv(s) && r.fd < |s.fds| && Dispatch(s, r).1 != Aborted && ev in s.fds[r.fd].events
    requires !r.trouble && ev !in r.ready
    ensures var (s', q) := (Dispatch(s, r).0, s.fds[r.fd].Get(ev).reg);
      r.fd < |s'.fds| && q < |s'.regs| && s'.fds[r.fd].Get(ev) == s.fds[r.fd].Get(ev) && Waiting(s', q) == 1
  {
    hide KernelOk, Bits, FdsOk, ResolvedOk;
    DispatchOutcome(s, r);
    assert SlotMatches(s, r.fd, ev);
  }
}
