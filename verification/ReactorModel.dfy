/** The reactor on values: per-descriptor event masks and waiter slots, the pending counter and the
    kernel's interest set, with every operation under the descriptor's lock as one step. */
module ReactorModel {
  import opened Common

  datatype Event = READ | WRITE

  type Mask = set<Event>

  /** One `EventContext`. `reg` names the registration that filled it. */
  datatype Slot = Slot(scheduler: Option<nat>, fiber: Option<nat>, cb: Option<Callback>, reg: nat)

  const EMPTY: Slot := Slot(None, None, None, 0)

  datatype FdContext = FdContext(read: Slot, write: Slot, events: Mask) {
    function Get(ev: Event): Slot { if ev == READ then read else write }

    function Set(ev: Event, slot: Slot): FdContext {
      if ev == READ then this.(read := slot) else this.(write := slot)
    }
  }

  const IDLE: FdContext := FdContext(EMPTY, EMPTY, {})

  /** Who waits: a fiber, or a callback handed to `addEvent`. */
  datatype Waiter = FiberWaiter(fiber: nat) | CallbackWaiter(cb: Callback)

  /** The history of successful `addEvent` calls: registration number `r` is `regs[r]`. */
  datatype Registration = Registration(fd: nat, ev: Event, scheduler: nat, waiter: Waiter)

  /** A task moved into a scheduler's queue by a trigger. */
  datatype Task = Task(scheduler: nat, fiber: Option<nat>, cb: Option<Callback>, reg: nat)

  datatype CtlOp = CTL_ADD | CTL_MOD | CTL_DEL

  /** `tasks` and `dropped` list the registrations resolved so far, by trigger and by `delEvent`. */
  datatype State = State(
    fds: seq<FdContext>, pending: int, kernel: map<nat, Mask>,
    regs: seq<Registration>, tasks: seq<Task>, dropped: seq<nat>)

  /** How a call ends; `Absent` is the early return, `Refused` an epoll failure, `Aborted` a failed assertion. */
  datatype Code = Success | Absent | Refused | Aborted

  type Outcome = (State, Code)

  const INITIAL_FDS: nat := 32

  function Init(): State { State(seq(INITIAL_FDS, i => IDLE), 0, map[], [], [], []) }

  /** `epoll_ctl`: None where the kernel refuses the operation. */
  function EpollCtl(kernel: map<nat, Mask>, op: CtlOp, fd: nat, mask: Mask): Option<map<nat, Mask>> {
    match op
    case CTL_ADD => if fd in kernel then None else Some(kernel[fd := mask])
    case CTL_MOD => if fd in kernel then Some(kernel[fd := mask]) else None
    case CTL_DEL => if fd in kernel then Some(kernel - {fd}) else None
  }

  /** `contextResize`, for a size that is not smaller. */
  function Resize(fds: seq<FdContext>, size: nat): (r: seq<FdContext>)
    ensures |r| == if |fds| <= size then size else |fds|
    ensures fds <= r && forall i | |fds| <= i < |r| :: r[i] == IDLE
  {
    if |fds| <= size then fds + seq(size - |fds|, i => IDLE) else fds
  }

  function Grow(s: State, fd: nat): State {
    if fd < |s.fds| then s else s.(fds := Resize(s.fds, fd * 3 / 2))
  }

  function FiberOf(w: Waiter): Option<nat> { if w.FiberWaiter? then Some(w.fiber) else None }

  function CallbackOf(w: Waiter): Option<Callback> { if w.CallbackWaiter? then Some(w.cb) else None }

  function AddEvent(s: State, fd: nat, ev: Event, scheduler: nat, w: Waiter): Outcome
    requires 2 <= |s.fds|
  {
    var s := Grow(s, fd);
    var ctx := s.fds[fd];
    if ev in ctx.events then (s, Absent)
    else
      var op := if ctx.events != {} then CTL_MOD else CTL_ADD;
      match EpollCtl(s.kernel, op, fd, ctx.events + {ev})
      case None => (s, Refused)
      case Some(kernel) =>
        if ctx.Get(ev) != EMPTY then (s, Aborted)
        else
          var slot := Slot(Some(scheduler), FiberOf(w), CallbackOf(w), |s.regs|);
          (s.(fds := s.fds[fd := ctx.(events := ctx.events + {ev}).Set(ev, slot)], pending := s.pending + 1,
              kernel := kernel, regs := s.regs + [Registration(fd, ev, scheduler, w)]),
           Success)
  }

  function DelEvent(s: State, fd: nat, ev: Event): Outcome {
    if |s.fds| <= fd || ev !in s.fds[fd].events then (s, Absent)
    else
      var ctx := s.fds[fd];
      var left := ctx.events - {ev};
      match EpollCtl(s.kernel, if left != {} then CTL_MOD else CTL_DEL, fd, left)
      case None => (s, Refused)
      case Some(kernel) =>
        (s.(fds := s.fds[fd := ctx.(events := left).Set(ev, EMPTY)], pending := s.pending - 1,
            kernel := kernel, dropped := s.dropped + [ctx.Get(ev).reg]),
         Success)
  }

  /** `triggerEvent`: the waiter moves into its scheduler's queue and the slot is reset. */
  function Trigger(s: State, fd: nat, ev: Event): Outcome
    requires fd < |s.fds|
  {
    var ctx := s.fds[fd];
    var slot := ctx.Get(ev);
    if ev !in ctx.events || slot.scheduler.None? then (s, Aborted)
    else
      var task := Task(slot.scheduler.value, if slot.cb.Some? then None else slot.fiber, slot.cb, slot.reg);
      (s.(fds := s.fds[fd := ctx.(events := ctx.events - {ev}).Set(ev, EMPTY)], tasks := s.tasks + [task]), Success)
  }

  /** Trigger, with the counter taken down as well. */
  function Resolve(s: State, fd: nat, ev: Event): Outcome
    requires fd < |s.fds|
  {
    Trigger(s.(pending := s.pending - 1), fd, ev)
  }

  /** `Resolve` for the events of a set, READ before WRITE, stopping at a failed assertion. */
  function ResolveAll(s: State, fd: nat, evs: Mask): Outcome
    requires fd < |s.fds|
  {
    var (s1, c1) := if READ in evs then Resolve(s, fd, READ) else (s, Success);
    if c1 == Aborted then (s1, Aborted)
    else if |s1.fds| <= fd then (s1, Aborted)
    else if WRITE in evs then Resolve(s1, fd, WRITE)
    else (s1, Success)
  }

  function CancelEvent(s: State, fd: nat, ev: Event): Outcome {
    if |s.fds| <= fd || ev !in s.fds[fd].events then (s, Absent)
    else
      var left := s.fds[fd].events - {ev};
      match EpollCtl(s.kernel, if left != {} then CTL_MOD else CTL_DEL, fd, left)
      case None => (s, Refused)
      case Some(kernel) => Resolve(s.(kernel := kernel), fd, ev)
  }

  function CancelAll(s: State, fd: nat): Outcome {
    if |s.fds| <= fd || s.fds[fd].events == {} then (s, Absent)
    else
      match EpollCtl(s.kernel, CTL_DEL, fd, {})
      case None => (s, Refused)
      case Some(kernel) =>
        var (s1, c1) := ResolveAll(s.(kernel := kernel), fd, s.fds[fd].events);
        if c1 == Success && (|s1.fds| <= fd || s1.fds[fd].events != {}) then (s1, Aborted) else (s1, c1)
  }

  /** What `epoll_wait` reports for a descriptor; `trouble` is EPOLLERR or EPOLLHUP. */
  datatype Report = Report(fd: nat, ready: Mask, trouble: bool)

  /** The events dispatch will act on, given the ones registered now. */
  function RealEvents(r: Report, events: Mask): Mask {
    if r.trouble then r.ready + events else r.ready
  }

  /** One turn of the dispatch loop: the ready bits are not masked with the registered ones. */
  function Dispatch(s: State, r: Report): Outcome
    requires r.fd < |s.fds|
  {
    var events := s.fds[r.fd].events;
    var happened := RealEvents(r, events);
    if events * happened == {} then (s, Absent)
    else
      var left := events - happened;
      match EpollCtl(s.kernel, if left != {} then CTL_MOD else CTL_DEL, r.fd, left)
      case None => (s, Refused)
      case Some(kernel) => ResolveAll(s.(kernel := kernel), r.fd, happened)
  }

  // ---------------------------------------------------------------- the invariant

  ghost predicate Full(slot: Slot) {
    slot.scheduler.Some? && (slot.fiber.Some? <==> slot.cb.None?)
  }

  /** A bit is set exactly when its slot holds a scheduler and one of fiber and callback. */
  ghost predicate ContextOk(ctx: FdContext) {
    forall ev: Event :: if ev in ctx.events then Full(ctx.Get(ev)) else ctx.Get(ev) == EMPTY
  }

  ghost predicate FdsOk(fds: seq<FdContext>) {
    INITIAL_FDS <= |fds| && forall fd | 0 <= fd < |fds| :: ContextOk(fds[fd])
  }

  /** The kernel watches exactly the registered events. */
  ghost predicate KernelOk(s: State) {
    forall fd: nat ::
      if fd < |s.fds| && s.fds[fd].events != {} then fd in s.kernel && s.kernel[fd] == s.fds[fd].events
      else fd !in s.kernel
  }

  /** The number of registered events over all descriptors. */
  ghost function Bits(fds: seq<FdContext>): nat {
    if fds == [] then 0 else |fds[0].events| + Bits(fds[1..])
  }

  /** What registration `r` put where: the slot, and later the task, that carries it. */
  ghost predicate SlotMatches(s: State, fd: nat, ev: Event) {
    fd < |s.fds| && ev in s.fds[fd].events ==>
      var slot := s.fds[fd].Get(ev);
      slot.reg < |s.regs|
      && s.regs[slot.reg] == Registration(fd, ev, s.regs[slot.reg].scheduler, s.regs[slot.reg].waiter)
      && slot == Slot(Some(s.regs[slot.reg].scheduler), FiberOf(s.regs[slot.reg].waiter),
         CallbackOf(s.regs[slot.reg].waiter), slot.reg)
  }

  ghost predicate TaskMatches(s: State, task: Task) {
    task.reg < |s.regs| && task ==
      Task(s.regs[task.reg].scheduler, FiberOf(s.regs[task.reg].waiter), CallbackOf(s.regs[task.reg].waiter), task.reg)
  }

  ghost predicate HistoryOk(s: State) {
    && (forall fd: nat, ev: Event :: SlotMatches(s, fd, ev))
    && (forall i | 0 <= i < |s.tasks| :: TaskMatches(s, s.tasks[i]))
    && (forall d | d in s.dropped :: d < |s.regs|)
  }

  /** How often registration `r` is still waiting. */
  ghost function Waiting(s: State, r: nat): (w: nat)
    requires r < |s.regs|
    ensures w <= 1
  {
    var reg := s.regs[r];
    if reg.fd < |s.fds| && reg.ev in s.fds[reg.fd].events && s.fds[reg.fd].Get(reg.ev).reg == r then 1 else 0
  }

  ghost function TimesScheduled(tasks: seq<Task>, r: nat): nat {
    if tasks == [] then 0 else (if tasks[|tasks| - 1].reg == r then 1 else 0) + TimesScheduled(tasks[..|tasks| - 1], r)
  }

  ghost function TimesDropped(dropped: seq<nat>, r: nat): nat {
    if dropped == [] then 0
    else (if dropped[|dropped| - 1] == r then 1 else 0) + TimesDropped(dropped[..|dropped| - 1], r)
  }

  /** Every registration is in exactly one place: waiting, scheduled once, or dropped once. */
  ghost predicate ResolvedOk(s: State) {
    forall r | 0 <= r < |s.regs| :: Waiting(s, r) + TimesScheduled(s.tasks, r) + TimesDropped(s.dropped, r) == 1
  }

  ghost predicate Inv(s: State) {
    && FdsOk(s.fds) && KernelOk(s) && HistoryOk(s) && ResolvedOk(s)
    && s.pending == Bits(s.fds)
    && |s.regs| == s.pending + |s.tasks| + |s.dropped|
  }
}
