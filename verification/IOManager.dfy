/** The per-descriptor contexts and the reactor that updates them in place, proved against ReactorModel. */
module IOManager {
  import opened Common
  import R = ReactorModel
  import P = ReactorProofs
  import Runs = ReactorRuns

  class FdContext {
    ghost const fd: nat
    var read: R.Slot
    var write: R.Slot
    var events: R.Mask

    constructor (ghost fd: nat)
      ensures this.fd == fd && Value() == R.IDLE
    {
      this.fd := fd;
      read, write, events := R.EMPTY, R.EMPTY, {};
    }

    ghost function Value(): R.FdContext
      reads this
    {
      R.FdContext(read, write, events)
    }

    method GetEventContext(ev: R.Event) returns (slot: R.Slot)
      ensures slot == Value().Get(ev)
    {
      match ev
      case READ => slot := read;
      case WRITE => slot := write;
    }

    method SetEventContext(ev: R.Event, slot: R.Slot)
      modifies this
      ensures Value() == old(Value()).Set(ev, slot)
    {
      match ev
      case READ => read := slot;
      case WRITE => write := slot;
    }
  }

  ghost predicate Stored(contexts: seq<FdContext>, fds: seq<R.FdContext>)
    reads contexts
  {
    |contexts| == |fds| && forall i | 0 <= i < |contexts| :: contexts[i].fd == i && contexts[i].Value() == fds[i]
  }

  lemma NothingStored()
    ensures Stored([], [])
  {}

  lemma ResizeNothing()
    ensures R.State(R.Resize([], R.INITIAL_FDS), 0, map[], [], [], []) == R.Init()
  {
    assert |R.Init().fds| == R.INITIAL_FDS && forall i | 0 <= i < R.INITIAL_FDS :: R.Init().fds[i] == R.IDLE;
  }

  class IOManager {
    var contexts: seq<FdContext>  // m_fdContexts
    var pending: int              // m_pendingEventCount
    var tasks: seq<R.Task>        // what the triggers have pushed
    var registered: nat           // numbers the registrations
    ghost var kernel: map<nat, R.Mask>
    ghost var model: R.State

    /** The fields agree with `s`. */
    ghost predicate Agrees(s: R.State)
      reads this, contexts
    {
      Stored(contexts, s.fds) && pending == s.pending && tasks == s.tasks && kernel == s.kernel
        && registered == |s.regs|
    }

    ghost predicate Valid()
      reads this, contexts
    {
      Agrees(model) && R.Inv(model)
    }

    lemma ContextIs(s: R.State, fd: nat)
      requires Agrees(s)
      ensures |contexts| == |s.fds|
      ensures fd < |contexts| ==> contexts[fd].Value() == s.fds[fd]
    {}

    constructor ()
      ensures Valid() && model == R.Init()
    {
      contexts, pending, tasks, registered := [], 0, [], 0;
      kernel, model := map[], R.State([], 0, map[], [], [], []);
      new;
      hide *;
      NothingStored();
      ContextResize(R.INITIAL_FDS);
      ResizeNothing();
      FreshIsValid();
    }

    lemma FreshIsValid()
      requires Stored(contexts, model.fds) && model == R.Init()
      requires pending == 0 && tasks == [] && kernel == map[] && registered == 0
      ensures Valid()
    {
      hide R.Inv, Stored;
      Runs.InitInv();
    }

    /** Fills the table with fresh contexts up to `size`. */
    method ContextResize(size: nat)
      requires Stored(contexts, model.fds) && |contexts| <= size
      modifies this`contexts, this`model
      ensures Stored(contexts, model.fds) && model == old(model).(fds := R.Resize(old(model).fds, size))
      ensures old(contexts) <= contexts && forall i | |old(contexts)| <= i < |contexts| :: fresh(contexts[i])
    {
      ghost var fds := model.fds;
      while |contexts| < size
        invariant |contexts| <= size && model == old(model)
        invariant Stored(contexts, fds)
        invariant old(contexts) <= contexts && (forall i | |old(contexts)| <= i < |contexts| :: fresh(contexts[i]))
        invariant old(model).fds <= fds && forall i | |old(model).fds| <= i < |fds| :: fds[i] == R.IDLE
      {
        var ctx := new FdContext(|contexts|);
        contexts := contexts + [ctx];
        fds := fds + [R.IDLE];
      }
      assert fds == R.Resize(old(model).fds, size);
      model := model.(fds := fds);
    }

    /** `epoll_ctl`; every operation issued must be legal. */
    ghost method EpollCtl(op: R.CtlOp, fd: nat, mask: R.Mask)
      requires R.EpollCtl(kernel, op, fd, mask).Some?
      modifies this`kernel
      ensures kernel == R.EpollCtl(old(kernel), op, fd, mask).value
    {
      kernel := R.EpollCtl(kernel, op, fd, mask).value;
    }

    /** The context of `fd`, the table grown if need be. */
    method FindOrGrow(fd: nat) returns (ctx: FdContext)
      requires Valid()
      modifies this`contexts, this`model
      ensures Valid() && model == R.Grow(old(model), fd) && fd < |contexts| && ctx == contexts[fd]
      ensures old(contexts) <= contexts && forall i | |old(contexts)| <= i < |contexts| :: fresh(contexts[i])
    {
      P.GrowKeeps(model, fd);
      if |contexts| <= fd { ContextResize(fd * 3 / 2); }
      ctx := contexts[fd];
    }

    /** The MOD or DEL that cuts the interest in `fd` down to `left`. */
    method Narrow(fd: nat, left: R.Mask)
      requires Valid() && fd < |contexts| && contexts[fd].events != {}
      modifies this`kernel
      ensures kernel == P.Narrowed(old(kernel), fd, left)
    {
      ContextIs(model, fd);
      P.InvCore(model);
      P.NarrowIsLegal(model, fd, left);
      hide R.Inv, R.EpollCtl, P.Narrowed, Stored;
      EpollCtl(if left != {} then R.CTL_MOD else R.CTL_DEL, fd, left);
    }

    /** The ADD or MOD that adds `ev` to the interest in `fd`. */
    method Widen(fd: nat, ev: R.Event)
      requires Valid() && fd < |contexts|
      modifies this`kernel
      ensures kernel == old(kernel)[fd := contexts[fd].events + {ev}]
    {
      LegalAdd(fd, ev);
      hide R.Inv, R.EpollCtl, Stored;
      EpollCtl(if contexts[fd].events != {} then R.CTL_MOD else R.CTL_ADD, fd, contexts[fd].events + {ev});
    }

    /** Gives descriptor `fd` a new mask and a new slot for `ev`. */
    method Update(fd: nat, ev: R.Event, events: R.Mask, slot: R.Slot, ghost fds: seq<R.FdContext>)
      requires Stored(contexts, fds) && fd < |contexts|
      modifies contexts[fd]
      ensures Stored(contexts, fds[fd := fds[fd].(events := events).Set(ev, slot)])
      ensures contexts[fd].events == events
    {
      var ctx := contexts[fd];
      ctx.events := events;
      ctx.SetEventContext(ev, slot);
    }

    method AddEvent(fd: nat, ev: R.Event, scheduler: nat, w: R.Waiter) returns (rt: int)
      requires Valid()
      modifies this, contexts
      ensures Valid() && model == R.AddEvent(old(model), fd, ev, scheduler, w).0
      ensures rt == 0 <==> !(fd < |old(model).fds| && ev in old(model).fds[fd].events)
      ensures rt == if R.AddEvent(old(model), fd, ev, scheduler, w).1 == R.Success then 0 else -1
    {
      ContextIs(model, fd);
      var ctx := FindOrGrow(fd);
      ContextIs(model, fd);
      Runs.GrowOnce(old(model), fd, ev, scheduler, w);
      if ev in ctx.events { return -1; }
      Register(fd, ev, scheduler, w);
      rt := 0;
    }

    /** The part of `addEvent` after the early return. */
    method Register(fd: nat, ev: R.Event, scheduler: nat, w: R.Waiter)
      requires Valid() && fd < |contexts| && ev !in contexts[fd].events
      modifies this, contexts[fd]
      ensures Valid() && contexts == old(contexts)
      ensures (model, R.Success) == R.AddEvent(old(model), fd, ev, scheduler, w)
    {
      hide R.Inv, P.Core, R.KernelOk, R.AddEvent, Stored, R.FdsOk;
      ContextIs(model, fd);
      P.InvCore(model);
      Contexts(fd);
      P.AddParts(model, fd, ev, scheduler, w);
      P.AddRegisters(model, fd, ev, scheduler, w);
      Widen(fd, ev);
      pending := pending + 1;
      Fill(fd, ev, R.Slot(Some(scheduler), R.FiberOf(w), R.CallbackOf(w), registered), model.fds);
      registered := registered + 1;
      model := R.AddEvent(model, fd, ev, scheduler, w).0;
    }

    lemma Contexts(fd: nat)
      requires Valid() && fd < |contexts|
      ensures R.FdsOk(model.fds) && R.INITIAL_FDS <= |model.fds| && R.ContextOk(model.fds[fd])
    {}

    /** Fills a slot that must be empty: `addEvent` asserts that it holds no scheduler, fiber or callback. */
    method Fill(fd: nat, ev: R.Event, slot: R.Slot, ghost fds: seq<R.FdContext>)
      requires Stored(contexts, fds) && fd < |contexts| && R.ContextOk(fds[fd]) && ev !in contexts[fd].events
      modifies contexts[fd]
      ensures Stored(contexts, fds[fd := fds[fd].(events := fds[fd].events + {ev}).Set(ev, slot)])
    {
      var ctx := contexts[fd];
      var was := ctx.GetEventContext(ev);
      assert was == R.EMPTY;
      Update(fd, ev, ctx.events + {ev}, slot, fds);
    }

    lemma LegalAdd(fd: nat, ev: R.Event)
      requires Valid() && fd < |contexts|
      ensures var events := contexts[fd].events + {ev};
        R.EpollCtl(kernel, if contexts[fd].events != {} then R.CTL_MOD else R.CTL_ADD, fd, events) ==
          Some(kernel[fd := events])
    {
      ContextIs(model, fd);
      P.WatchedIfRegistered(model, fd);
    }

    method DelEvent(fd: nat, ev: R.Event) returns (r: bool)
      requires Valid()
      modifies this, contexts
      ensures Valid() && model == R.DelEvent(old(model), fd, ev).0
      ensures r <==> fd < |old(model).fds| && ev in old(model).fds[fd].events
    {
      ContextIs(model, fd);
      if |contexts| <= fd { return false; }
      var ctx := contexts[fd];
      if ev !in ctx.events { return false; }
      Delete(fd, ev);
      r := true;
    }

    /** The part of `delEvent` after the early returns. */
    method Delete(fd: nat, ev: R.Event)
      requires Valid() && fd < |contexts| && ev in contexts[fd].events
      modifies this, contexts[fd]
      ensures Valid() && contexts == old(contexts) && model == R.DelEvent(old(model), fd, ev).0
    {
      hide R.Inv, R.DelEvent, P.Narrowed, Stored;
      ContextIs(model, fd);
      P.DelKeeps(model, fd, ev);
      P.DelShape(model, fd, ev);
      var left := contexts[fd].events - {ev};
      Narrow(fd, left);
      pending := pending - 1;
      Update(fd, ev, left, R.EMPTY, model.fds);
      model := R.DelEvent(model, fd, ev).0;
    }

    /** `triggerEvent`: its assertion that the event is registered is the precondition. */
    method TriggerEvent(fd: nat, ev: R.Event, ghost s: R.State)
      requires Agrees(s) && fd < |contexts| && ev in contexts[fd].events && R.ContextOk(s.fds[fd])
      modifies this`tasks, contexts[fd]
      ensures Agrees(R.Trigger(s, fd, ev).0)
      ensures contexts[fd].events == old(contexts[fd].events) - {ev}
    {
      var ctx := contexts[fd];
      ContextIs(s, fd);
      hide Stored;
      var slot := ctx.GetEventContext(ev);
      var task := R.Task(slot.scheduler.value, if slot.cb.Some? then None else slot.fiber, slot.cb, slot.reg);
      tasks := tasks + [task];
      Update(fd, ev, ctx.events - {ev}, R.EMPTY, s.fds);
    }

    /** A trigger and the count taken down, on a state whose kernel part may be ahead. */
    method TriggerAndCount(fd: nat, ev: R.Event, ghost s: R.State)
      requires Agrees(s) && P.Core(s) && fd < |contexts| && ev in contexts[fd].events
      modifies this`tasks, this`pending, contexts[fd]
      ensures Agrees(R.Resolve(s, fd, ev).0) && P.Core(R.Resolve(s, fd, ev).0)
      ensures contexts[fd].events == old(contexts[fd].events) - {ev}
    {
      ContextIs(s, fd);
      P.ResolveKeeps(s, fd, ev);
      assert R.ContextOk(s.fds[fd]);
      hide P.Core, Stored, R.Trigger;
      pending := pending - 1;
      TriggerEvent(fd, ev, s.(pending := s.pending - 1));
    }

    method CancelEvent(fd: nat, ev: R.Event) returns (r: bool)
      requires Valid()
      modifies this, contexts
      ensures Valid() && model == R.CancelEvent(old(model), fd, ev).0
      ensures r <==> fd < |old(model).fds| && ev in old(model).fds[fd].events
    {
      hide R.Inv, R.Resolve, R.EpollCtl, P.Narrowed, P.Core, Stored;
      ContextIs(model, fd);
      if |contexts| <= fd { return false; }
      var ctx := contexts[fd];
      if ev !in ctx.events { return false; }
      P.CancelKeeps(model, fd, ev);
      P.CancelShape(model, fd, ev);
      P.InvCore(model);
      var left := ctx.events - {ev};
      ghost var s1 := model.(kernel := P.Narrowed(model.kernel, fd, left));
      P.CoreIgnoresKernel(model, s1);
      Narrow(fd, left);
      TriggerAndCount(fd, ev, s1);
      model := R.CancelEvent(model, fd, ev).0;
      r := true;
    }

    /** Triggers the events of `evs`, READ before WRITE, counting each off. */
    method TriggerAll(fd: nat, evs: R.Mask, ghost s: R.State)
      requires Agrees(s) && P.Core(s) && fd < |contexts| && evs <= contexts[fd].events
      modifies this`tasks, this`pending, contexts[fd]
      ensures Agrees(R.ResolveAll(s, fd, evs).0)
      ensures contexts[fd].events == old(contexts[fd].events) - evs
    {
      hide P.Core, R.Resolve, Stored;
      ContextIs(s, fd);
      ghost var s1 := s;
      if R.READ in evs {
        P.ResolveKeeps(s, fd, R.READ);
        TriggerAndCount(fd, R.READ, s);
        s1 := R.Resolve(s, fd, R.READ).0;
      }
      if R.WRITE in evs {
        P.ResolveKeeps(s1, fd, R.WRITE);
        TriggerAndCount(fd, R.WRITE, s1);
      }
      P.EventsAreTwo(evs);
    }

    method CancelAll(fd: nat) returns (r: bool)
      requires Valid()
      modifies this, contexts
      ensures Valid() && model == R.CancelAll(old(model), fd).0
      ensures r <==> fd < |old(model).fds| && old(model).fds[fd].events != {}
    {
      hide R.Inv, R.ResolveAll, R.EpollCtl, P.Narrowed, P.Core, Stored;
      ContextIs(model, fd);
      if |contexts| <= fd { return false; }
      var ctx := contexts[fd];
      if ctx.events == {} { return false; }
      P.CancelAllKeeps(model, fd);
      P.CancelAllShape(model, fd);
      P.InvCore(model);
      ghost var s1 := model.(kernel := P.Narrowed(model.kernel, fd, {}));
      P.CoreIgnoresKernel(model, s1);
      Narrow(fd, {});
      TriggerAll(fd, ctx.events, s1);
      assert ctx.events == {};  // the assertion that ends `cancelAll`
      model := R.CancelAll(model, fd).0;
      r := true;
    }

    /** One turn of the dispatch loop, for a report that is not stale. */
    method DispatchOne(report: R.Report)
      requires Valid() && report.fd < |contexts| && !Runs.Stale(report, contexts[report.fd].events)
      modifies this, contexts
      ensures Valid() && contexts == old(contexts) && model == R.Dispatch(old(model), report).0
      ensures R.Dispatch(old(model), report).1 in {R.Success, R.Absent}
    {
      var fd, ctx := report.fd, contexts[report.fd];
      ContextIs(model, fd);
      P.DispatchOutcome(model, report);
      hide R.Inv, Stored, R.ResolveAll, R.EpollCtl;
      var happened := if report.trouble then report.ready + ctx.events else report.ready;
      if ctx.events * happened != {} { Happen(report, happened); }
    }

    /** The part of a dispatch turn after the early exit. */
    method Happen(report: R.Report, happened: R.Mask)
      requires Valid() && report.fd < |contexts| && happened == R.RealEvents(report, contexts[report.fd].events)
      requires contexts[report.fd].events * happened != {} && report.ready <= contexts[report.fd].events
      modifies this, contexts[report.fd]
      ensures Valid() && contexts == old(contexts) && model == R.Dispatch(old(model), report).0
    {
      hide R.Inv, R.Dispatch, R.ResolveAll, P.Narrowed, P.Core, Stored;
      var fd, ctx := report.fd, contexts[report.fd];
      ContextIs(model, fd);
      P.DispatchOutcome(model, report);
      P.DispatchShape(model, report);
      P.InvCore(model);
      var left := ctx.events - happened;
      ghost var s1 := model.(kernel := P.Narrowed(model.kernel, fd, left));
      P.CoreIgnoresKernel(model, s1);
      Narrow(fd, left);
      TriggerAll(fd, happened, s1);
      model := R.Dispatch(model, report).0;
    }

    /** Dispatching `reports` in turn, until one is stale. */
    static ghost function DispatchSeq(s: R.State, reports: seq<R.Report>): Option<R.State>
      decreases |reports|
    {
      if reports == [] then Some(s)
      else if |s.fds| <= reports[0].fd || Runs.Stale(reports[0], s.fds[reports[0].fd].events) then None
      else DispatchSeq(R.Dispatch(s, reports[0]).0, reports[1..])
    }

    /** The dispatch loop of `idle`: it fails only at a stale report, and otherwise has dispatched them all. */
    method DispatchReady(reports: seq<R.Report>) returns (ok: bool)
      requires Valid() && forall i | 0 <= i < |reports| :: reports[i].fd < |contexts|
      modifies this, contexts
      ensures Valid() && contexts == old(contexts)
      ensures ok <==> DispatchSeq(old(model), reports).Some?
      ensures ok ==> Some(model) == DispatchSeq(old(model), reports)
    {
      var i := 0;
      ok := true;
      hide R.Inv, R.Dispatch;
      while i < |reports|
        invariant 0 <= i <= |reports| && Valid() && contexts == old(contexts)
        invariant DispatchSeq(old(model), reports) == DispatchSeq(model, reports[i..])
      {
        var ctx := contexts[reports[i].fd];
        ContextIs(model, reports[i].fd);
        assert reports[i..][1..] == reports[i + 1..];
        if ctx.events * (if reports[i].trouble then reports[i].ready + ctx.events else reports[i].ready) != {}
          && !(reports[i].ready <= ctx.events) {
          return false;
        }
        DispatchOne(reports[i]);
        i := i + 1;
      }
    }
  }
}
