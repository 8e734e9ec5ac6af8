/** Blocking calls emulated over the timers and the reactor: any number of `do_io` and
    `connect_with_timeout` calls, retrying, racing with readiness and with their own timeouts. */
module BlockingCall {
  import opened Common
  import TM = TimerModel
  import T = TimerRuns
  import RM = ReactorModel
  import R = ReactorRuns

  datatype Kind = DoIo | Connect

  /** What the wrapped function reports: a value, EINTR, EAGAIN (EINPROGRESS for connect), another error. */
  datatype Attempt = Got(n: int) | Interrupted | WouldBlock | Failed

  datatype Result = Returned(n: int) | Error | TimedOut

  /** Where a call is; `Parked` holds the number of its registration. */
  datatype Phase =
    | Try | Arm | Armed | Parked(reg: nat) | AddFailed | Resumed | Check | Settle
    | Done(result: Result)

  /** One call's frame: `cancelled` is `tinfo->cancelled`, `timer` the timer of the present round. */
  datatype Call = Call(
    kind: Kind, fd: nat, ev: RM.Event, fiber: nat, timeout: Option<nat>, begin: int,
    phase: Phase, cancelled: bool, timer: Option<TM.TimerId>)

  /** `queue` holds the callbacks handed out by expiry and not yet run; `owner` and `waiter` record
      which call made which timer and which registration. */
  datatype Sys = Sys(
    ts: T.Sys, rs: R.Sys, calls: seq<Call>, queue: seq<Option<Callback>>,
    owner: map<TM.TimerId, nat>, waiter: map<nat, nat>)

  datatype Step =
    | Begin(kind: Kind, fd: nat, ev: RM.Event, fiber: nat, timeout: Option<nat>)
    | Attempted(c: nat, outcome: Attempt)
    | ArmTimer(c: nat, start: int)
    | Register(c: nat)
    | Abandon(c: nat)
    | Wake(c: nat)
    | Disarm(c: nat)
    | Decide(c: nat)
    | Settled(c: nat, error: bool)
    | RunCallback(i: nat)
    | Timers(top: T.Op)     // the clock, an expiry pass, a read, or someone else's timer
    | Reactor(rop: R.Op)    // an epoll report, a dispatch, or someone else's event

  /** Only the call itself has a pointer to its timers. */
  predicate Foreign(s: Sys, op: T.Op) {
    match op
    case AddOp(_, cb, _, _) => cb.UserCallback?
    case CancelOp(t) => t !in s.owner
    case RefreshOp(t) => t !in s.owner
    case ResetOp(t, _, _) => t !in s.owner
    case _ => true
  }

  ghost predicate ReactorAllows(s: Sys, op: R.Op) {
    R.Enabled(s.rs, op) && R.Call(s.rs, op).1 !in {RM.Aborted, RM.Refused}
  }

  predicate At(s: Sys, c: nat, phase: Phase) { c < |s.calls| && s.calls[c].phase == phase }

  ghost function AddEventOp(call: Call): R.Op { R.AddOp(call.fd, call.ev, 0, RM.FiberWaiter(call.fiber)) }

  ghost function TimerOp(c: nat, call: Call, start: int): T.Op
    requires call.timeout.Some?
  {
    T.AddOp(call.timeout.value, TimeoutOf(c), false, start)
  }

  ghost predicate Enabled(s: Sys, step: Step) {
    match step
    case Begin(_, _, _, _, _) => true
    case Attempted(c, _) => At(s, c, Try)
    case ArmTimer(c, start) =>
      At(s, c, Arm) && s.calls[c].begin <= start <= s.ts.clock
      && (s.calls[c].timeout.Some? ==> T.Enabled(s.ts, TimerOp(c, s.calls[c], start)))
    case Register(c) => At(s, c, Armed) && ReactorAllows(s, AddEventOp(s.calls[c]))
    case Abandon(c) => At(s, c, AddFailed)
      && (s.calls[c].timer.Some? ==> T.Enabled(s.ts, T.CancelOp(s.calls[c].timer.value)))
    case Wake(c) =>
      // the fiber is resumed by nothing but the task its own registration turned into
      c < |s.calls| && s.calls[c].phase.Parked? && RM.TimesScheduled(s.rs.r.tasks, s.calls[c].phase.reg) > 0
    case Disarm(c) => At(s, c, Resumed)
      && (s.calls[c].timer.Some? ==> T.Enabled(s.ts, T.CancelOp(s.calls[c].timer.value)))
    case Decide(c) => At(s, c, Check)
    case Settled(c, _) => At(s, c, Settle)
    case RunCallback(i) =>
      i < |s.queue| && (Acts(s, s.queue[i]) ==> ReactorAllows(s, CancelOf(s, s.queue[i].value.call)))
    case Timers(op) => Foreign(s, op) && T.Enabled(s.ts, op)
    case Reactor(op) => ReactorAllows(s, op)
  }

  /** The timeout callback finds its call alive and not yet cancelled. */
  predicate Acts(s: Sys, cb: Option<Callback>) {
    && cb.Some? && cb.value.TimeoutOf? && cb.value.call < |s.calls|
    && !s.calls[cb.value.call].phase.Done? && !s.calls[cb.value.call].cancelled
  }

  ghost function CancelOf(s: Sys, c: nat): R.Op
    requires c < |s.calls|
  {
    R.CancelOp(s.calls[c].fd, s.calls[c].ev)
  }

  ghost function ReactorAfter(rs: R.Sys, op: R.Op): R.Sys
    requires R.Enabled(rs, op)
  {
    R.Sys(R.Call(rs, op).0, R.Reports(rs, op))
  }

  function CallbackAt(recs: seq<TM.Record>, t: nat): Option<Callback> {
    if t < |recs| then recs[t].cb else None
  }

  function Callbacks(recs: seq<TM.Record>, ids: seq<TM.TimerId>): seq<Option<Callback>> {
    seq(|ids|, i requires 0 <= i < |ids| => CallbackAt(recs, ids[i]))
  }

  function Put(s: Sys, c: nat, call: Call): Sys
    requires c < |s.calls|
  {
    s.(calls := s.calls[c := call])
  }

  function AfterAttempt(kind: Kind, outcome: Attempt): Phase {
    match outcome
    case Got(n) => Done(Returned(n))
    case Interrupted => if kind == DoIo then Try else Done(Error)
    case WouldBlock => Arm
    case Failed => Done(Error)
  }

  ghost function Apply(s: Sys, step: Step): Sys
    requires Enabled(s, step)
  {
    match step
    case Begin(kind, fd, ev, fiber, timeout) =>
      s.(calls := s.calls + [Call(kind, fd, ev, fiber, timeout, s.ts.clock, Try, false, None)])
    case Attempted(c, outcome) => Put(s, c, s.calls[c].(phase := AfterAttempt(s.calls[c].kind, outcome)))
    case ArmTimer(c, start) =>
      var call := s.calls[c];
      if call.timeout.None? then Put(s, c, call.(phase := Armed, timer := None))
      else
        var t := |s.ts.tm.recs|;
        Put(s, c, call.(phase := Armed, timer := Some(t)))
          .(ts := T.Apply(s.ts, TimerOp(c, call, start)), owner := s.owner[t := c])
    case Register(c) =>
      var op, r := AddEventOp(s.calls[c]), |s.rs.r.regs|;
      var s1 := s.(rs := ReactorAfter(s.rs, op));
      if R.Call(s.rs, op).1 == RM.Success then Put(s1, c, s.calls[c].(phase := Parked(r))).(waiter := s.waiter[r := c])
      else Put(s1, c, s.calls[c].(phase := AddFailed))
    case Abandon(c) =>
      var call := s.calls[c];
      var s1 := if call.timer.Some? then s.(ts := T.Apply(s.ts, T.CancelOp(call.timer.value))) else s;
      Put(s1, c, call.(phase := if call.kind == DoIo then Done(Error) else Settle))
    case Wake(c) => Put(s, c, s.calls[c].(phase := Resumed))
    case Disarm(c) =>
      var call := s.calls[c];
      var s1 := if call.timer.Some? then s.(ts := T.Apply(s.ts, T.CancelOp(call.timer.value))) else s;
      Put(s1, c, call.(phase := Check))
    case Decide(c) =>
      var call := s.calls[c];
      Put(s, c, call.(phase := if call.cancelled then Done(TimedOut) else if call.kind == DoIo then Try else Settle))
    case Settled(c, error) => Put(s, c, s.calls[c].(phase := Done(if error then Error else Returned(0))))
    case RunCallback(i) =>
      var s1 := s.(queue := s.queue[..i] + s.queue[i + 1..]);
      if Acts(s, s.queue[i]) then
        var c := s.queue[i].value.call;
        Put(s1, c, s.calls[c].(cancelled := true)).(rs := ReactorAfter(s.rs, CancelOf(s, c)))
      else s1
    case Timers(op) =>
      var ts := T.Apply(s.ts, op);
      var handed := if |s.ts.fired| <= |ts.fired| then ts.fired[|s.ts.fired|..] else [];
      s.(ts := ts, queue := s.queue + Callbacks(s.ts.tm.recs, handed))
    case Reactor(op) => s.(rs := ReactorAfter(s.rs, op))
  }

  ghost function Run(s: Sys, steps: seq<Step>): Option<Sys>
    decreases |steps|
  {
    if steps == [] then Some(s)
    else if Enabled(s, steps[0]) then Run(Apply(s, steps[0]), steps[1..])
    else None
  }

  // ---------------------------------------------------------------- the invariant

  /** The configured timeout has passed since the call began. */
  ghost predicate Late(s: Sys, c: nat) {
    c < |s.calls| && s.calls[c].timeout.Some? && s.calls[c].begin + TM.Delay(s.calls[c].timeout.value) <= s.ts.clock
  }

  predicate HoldsTimer(p: Phase) { p.Armed? || p.Parked? || p.AddFailed? || p.Resumed? }

  ghost predicate OwnedTimer(s: Sys, t: TM.TimerId)
    requires t in s.owner
  {
    var c := s.owner[t];
    && t < |s.ts.tm.recs| && c < |s.calls| && s.calls[c].timeout.Some?
    && var rec := s.ts.tm.recs[t];
    && !rec.recurring
    && s.calls[c].begin + TM.Delay(s.calls[c].timeout.value) <= rec.next
    && (rec.cb.Some? ==> rec.cb == Some(TimeoutOf(c)))
    && (t in s.ts.tm.order ==> s.calls[c].timer == Some(t) && HoldsTimer(s.calls[c].phase))
  }

  ghost predicate TimersOk(s: Sys) {
    && (forall t | t in s.owner :: OwnedTimer(s, t))
    && (forall t | 0 <= t < |s.ts.tm.recs| && s.ts.tm.recs[t].cb.Some? && s.ts.tm.recs[t].cb.value.TimeoutOf? ::
       t in s.owner)
    && (forall c | 0 <= c < |s.calls| && s.calls[c].timer.Some? && HoldsTimer(s.calls[c].phase) ::
          s.calls[c].timer.value in s.owner && s.owner[s.calls[c].timer.value] == c)
  }

  ghost predicate OwnedWait(s: Sys, r: nat)
    requires r in s.waiter
  {
    var c := s.waiter[r];
    && r < |s.rs.r.regs| && c < |s.calls|
    && s.rs.r.regs[r] == RM.Registration(s.calls[c].fd, s.calls[c].ev, 0, RM.FiberWaiter(s.calls[c].fiber))
    && (RM.Waiting(s.rs.r, r) == 1 ==> s.calls[c].phase == Parked(r))
  }

  ghost predicate WaitsOk(s: Sys) {
    && (forall r | r in s.waiter :: OwnedWait(s, r))
    && (forall c | 0 <= c < |s.calls| && s.calls[c].phase.Parked? ::
          s.calls[c].phase.reg in s.waiter && s.waiter[s.calls[c].phase.reg] == c)
  }

  ghost predicate LateOk(s: Sys) {
    && (forall c | 0 <= c < |s.calls| :: s.calls[c].begin <= s.ts.clock)
    && (forall c | 0 <= c < |s.calls| && (s.calls[c].cancelled || s.calls[c].phase == Done(TimedOut)) :: Late(s, c))
    && (forall i | 0 <= i < |s.queue| && s.queue[i].Some? && s.queue[i].value.TimeoutOf? ::
       Late(s, s.queue[i].value.call))
  }

  ghost predicate Inv(s: Sys) {
    T.Inv(s.ts) && R.SysInv(s.rs) && TimersOk(s) && WaitsOk(s) && LateOk(s)
  }

  ghost predicate Init(s: Sys) {
    T.Init(s.ts) && s.rs == R.Sys(RM.Init(), []) && s.calls == [] && s.queue == [] && s.owner == map[]
      && s.waiter == map[]
  }
}
