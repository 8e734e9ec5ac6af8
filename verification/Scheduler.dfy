/** The fiber, thread and scheduler objects that `run` updates in place, proved against SchedulerModel. Each method
    is one lock-delimited action of one worker. */
module Scheduler {
  import opened Common
  import M = SchedulerModel
  import P = SchedulerProofs
  import K = SchedulerTasks

  class Thread {
    var current: Fiber?  // t_fiber; null is the scheduler's own fiber

    constructor ()
      ensures current == null
    {
      current := null;
    }
  }

  class Fiber {
    ghost const id: M.FiberId
    var state: M.FiberState
    var cb: Option<Callback>
    var holder: Option<nat>  // who holds m_mutex

    constructor (ghost id: M.FiberId, cb: Callback)
      ensures this.id == id && this.cb == Some(cb) && Value() == M.Fiber(M.READY, None)
    {
      this.id := id;
      this.cb := Some(cb);
      state, holder := M.READY, None;
    }

    ghost function Value(): M.Fiber
      reads this
    {
      M.Fiber(state, holder)
    }

    /** Makes this fiber current, unless the assertion fails. */
    method Resume(t: Thread) returns (ok: bool)
      modifies this`state, t
      ensures ok <==> old(state) == M.READY
      ensures M.Resumed(old(state)) == if ok then Some(M.RUNNING) else None
      ensures if ok then Some(state) == M.Resumed(old(state)) && t.current == this
        else state == old(state) && t.current == old(t.current)
    {
      ok := state == M.READY;
      if ok {
        state := M.RUNNING;
        t.current := this;
      }
    }

    /** Back to the scheduler's fiber, unless the assertion fails. */
    method Yield(t: Thread) returns (ok: bool)
      modifies this`state, t
      ensures ok <==> old(state) != M.READY
      ensures M.Yielded(old(state)) ==
        if old(state) == M.RUNNING then Some(M.READY) else if old(state) == M.TERM then Some(M.TERM) else None
      ensures if ok then Some(state) == M.Yielded(old(state)) && t.current == null
        else state == old(state) && t.current == old(t.current)
    {
      ok := state == M.RUNNING || state == M.TERM;
      if ok {
        if state != M.TERM {
          state := M.READY;
        }
        t.current := null;
      }
    }

    /** What `MainFunc` does once the fiber's function has returned. */
    method MainTail(t: Thread) returns (ok: bool)
      modifies this`state, this`cb, t
      ensures ok && state == M.TERM && cb.None? && t.current == null
    {
      cb := None;
      state := M.TERM;
      ok := Yield(t);
    }

    /** A fiber that has ended is given a new function. */
    method Reset(f: Callback) returns (ok: bool)
      modifies this`state, this`cb
      ensures ok == (old(state) == M.TERM)
      ensures if ok then state == M.READY && cb == Some(f) else state == old(state) && cb == old(cb)
    {
      ok := state == M.TERM;
      if ok {
        state := M.READY;
        cb := Some(f);
      }
    }
  }

  /** A caller's pair of pointers, out of which a task's content is swapped. */
  class Slot {
    var fiber: Option<M.FiberId>
    var cb: bool

    constructor (fiber: Option<M.FiberId>, cb: bool)
      ensures this.fiber == fiber && this.cb == cb
    {
      this.fiber := fiber;
      this.cb := cb;
    }
  }

  class Scheduler {
    var tasks: seq<M.ScheduleTask>  // m_tasks
    var active: int                 // m_activeThreadCount
    var idlers: int                 // m_idleThreadCount
    var stopping: bool              // m_stopping
    var pushed: nat                 // numbers the pushes
    ghost var fibers: seq<Fiber>
    ghost var model: M.State

    ghost predicate Agrees(s: M.State)
      reads this, fibers
    {
      && tasks == s.queue && active == s.active && idlers == s.idlers && stopping == s.stopping && pushed == |s.pins|
      && |fibers| == |s.fibers| && forall f | 0 <= f < |fibers| :: fibers[f].id == f && fibers[f].Value() == s.fibers[f]
    }

    ghost predicate Valid()
      reads this, fibers
    {
      Agrees(model) && M.Inv(model)
    }

    constructor (ghost threads: nat)
      requires threads > 0
      ensures Valid() && M.Init(model) && |model.workers| == threads
    {
      tasks, active, idlers, stopping, pushed, fibers := [], 0, 0, false, 0, [];
      model := M.State(seq(threads, _ => M.Worker(M.Outside, M.READY, M.OnScheduler)), [], [], 0, 0, false, M.UNARMED,
        0, [], multiset{}, []);
      new;
      P.InitInv(model);
    }

    /** Appends a task unless it is empty; asks for a wake-up when the queue was empty. */
    method ScheduleLock(ghost who: M.Pusher, fiber: Option<M.FiberId>, cb: bool, thread: int) returns (needTickle: bool)
      requires Valid() && M.Enabled(model, M.Push(who, fiber, cb, thread))
      modifies this
      ensures Valid() && model == M.Apply(old(model), M.Push(who, fiber, cb, thread)) && fibers == old(fibers)
      ensures needTickle <==> old(tasks) == []
      ensures tasks == if fiber.None? && !cb then old(tasks)
        else old(tasks) + [M.ScheduleTask(old(pushed), fiber, cb, thread)]
    {
      hide M.Inv;
      needTickle := tasks == [];
      var task := M.ScheduleTask(pushed, fiber, cb, thread);
      if task.fiber.Some? || task.cb {
        tasks := tasks + [task];
        pushed := pushed + 1;
      }
      P.StepKeepsInv(model, M.Push(who, fiber, cb, thread));
      model := M.Apply(model, M.Push(who, fiber, cb, thread));
    }

    /** The same with the fiber swapped out of the caller's slot, which is left empty. */
    method ScheduleFiberOf(ghost who: M.Pusher, slot: Slot, thread: int) returns (needTickle: bool)
      requires Valid() && M.Enabled(model, M.Push(who, slot.fiber, false, thread))
      modifies this, slot`fiber
      ensures Valid() && model == M.Apply(old(model), M.Push(who, old(slot.fiber), false, thread))
      ensures fibers == old(fibers)
      ensures slot.fiber.None? && (needTickle <==> old(tasks) == [])
    {
      var content: Option<M.FiberId> := None;
      content, slot.fiber := slot.fiber, content;
      needTickle := ScheduleLock(who, content, false, thread);
    }

    /** The same with the callback swapped out. */
    method ScheduleCallbackOf(ghost who: M.Pusher, slot: Slot, thread: int) returns (needTickle: bool)
      requires Valid() && M.Enabled(model, M.Push(who, None, slot.cb, thread))
      modifies this, slot`cb
      ensures Valid() && model == M.Apply(old(model), M.Push(who, None, old(slot.cb), thread)) && fibers == old(fibers)
      ensures !slot.cb && (needTickle <==> old(tasks) == [])
    {
      var content := false;
      content, slot.cb := slot.cb, content;
      needTickle := ScheduleLock(who, None, content, thread);
    }

    /** The scan: takes the first task this worker may take. `tickleMe` says that tasks remain. */
    method Select(worker: nat) returns (task: Option<M.ScheduleTask>, tickleMe: bool)
      requires Valid() && M.Enabled(model, M.Scan(worker)) && !M.Fails(model, M.Scan(worker))
      modifies this
      ensures Valid() && model == M.Apply(old(model), M.Scan(worker)) && fibers == old(fibers)
      ensures tickleMe <==> tasks != []
      ensures var k := M.FirstFor(old(tasks), worker); task == if k < |old(tasks)| then Some(old(tasks)[k]) else None
    {
      hide M.Inv, M.Apply, M.FirstFor, M.Enabled, M.Fails;
      task, tickleMe := None, false;
      var it := 0;
      while it < |tasks|
        invariant 0 <= it <= |tasks|
        invariant tasks == old(tasks) && model == old(model) && fibers == old(fibers) && Agrees(model) && task.None?
        invariant forall i | 0 <= i < it :: !M.Eligible(tasks[i].thread, worker)
        invariant tickleMe <==> it > 0
      {
        if tasks[it].thread != M.ANY_THREAD && tasks[it].thread != worker {
          it := it + 1;
          tickleMe := true;
          continue;
        }
        task := Some(tasks[it]);
        tasks := tasks[..it] + tasks[it + 1..];
        active := active + 1;
        break;
      }
      tickleMe := tickleMe || it != |tasks|;
      ScanStops(model.queue, worker, it);
      ScanParts(model, worker);
      P.StepKeepsInv(model, M.Scan(worker));
      model := M.Apply(model, M.Scan(worker));
    }

    /** The middle of `run`: under the fiber's mutex, resumes the fiber of the task in hand unless it has ended, until
        its function returns or yields; then counts the task out. No assertion on the way can fail. */
    method RunFiberTask(worker: nat, f: Fiber, t: Thread, ends: bool)
      requires Valid() && M.Enabled(model, M.Lock(worker)) && t.current == null
      requires model.workers[worker].phase.task.fiber == Some(f.id) && f.id < |fibers| && fibers[f.id] == f
      modifies this, f, t
      ensures Valid() && fibers == old(fibers)
      ensures M.Run(old(model), K.TaskSteps(worker, old(f.state), ends)) == Some(model)
      ensures f.holder.None? && f.state == K.StateAfter(old(f.state), ends) && t.current == null
      ensures active == old(active) - 1 && tasks == old(tasks)
    {
      hide M.Inv, M.Enabled, M.Run, K.TaskSteps;
      K.LockFindsFree(model, worker);
      K.TaskRuns(model, worker, ends);
      P.RunKeepsInv(model, K.TaskSteps(worker, f.state, ends));
      model := M.Run(model, K.TaskSteps(worker, f.state, ends)).value;
      f.holder := Some(worker);
      if f.state != M.TERM {
        var ok := f.Resume(t);
        assert ok;
        if ends {
          ok := f.MainTail(t);
        } else {
          ok := f.Yield(t);
        }
        assert ok;
      }
      f.holder := None;
      active := active - 1;
    }

    /** `Scheduler::stopping`; when it is true every push has been finished. */
    method Stopping() returns (r: bool)
      requires Valid()
      ensures r == M.SchedulerStopping(model)
    {
      r := stopping && |tasks| == 0 && active == 0;
    }

    method Stop()
      requires Valid()
      modifies this
      ensures Valid() && model == M.Apply(old(model), M.Stop) && stopping && fibers == old(fibers)
    {
      hide M.Inv;
      P.StepKeepsInv(model, M.Stop);
      stopping := true;
      model := M.Apply(model, M.Stop);
    }
  }

  lemma ScanParts(s: M.State, worker: nat)
    requires M.Enabled(s, M.Scan(worker)) && !M.Fails(s, M.Scan(worker))
    ensures var (s', k) := (M.Apply(s, M.Scan(worker)), M.FirstFor(s.queue, worker));
      && s'.queue == (if k < |s.queue| then M.Without(s.queue, k) else s.queue)
      && s'.active == s.active + (if k < |s.queue| then 1 else 0)
      && s'.idlers == s.idlers && s'.stopping == s.stopping && s'.pins == s.pins && s'.fibers == s.fibers
  {}

  lemma {:induction false} ScanStops(queue: seq<M.ScheduleTask>, worker: int, k: nat)
    requires k <= |queue| && forall i | 0 <= i < k :: !M.Eligible(queue[i].thread, worker)
    requires k < |queue| ==> M.Eligible(queue[k].thread, worker)
    ensures M.FirstFor(queue, worker) == k
  {
    if k > 0 { ScanStops(queue[1..], worker, k - 1); }
  }
}
