/** What a completed shutdown may leave armed or pending: `stopping` reads the timers, the pending count and the queue
    one after another, and only what the last idle fiber finds when it decides matters. */
module SchedulerShutdown {
  import opened Common
  import opened SchedulerModel
  import opened SchedulerProofs
  import opened SchedulerRuns

  // ---------------------------------------------------------------- undisturbed reads

  predicate MidRead(phase: Phase) { phase.NoTimers? || phase.NoPending? }

  /** Nobody changes the timers or the pending events while a worker is between the reads of `stopping`. */
  predicate Undisturbed(s: State, steps: seq<Step>)
    decreases |steps|
  {
    steps == [] || !Enabled(s, steps[0]) || Fails(s, steps[0]) ||
    (&& (steps[0].Adjust? ==> forall w | 0 <= w < |s.workers| :: !MidRead(s.workers[w].phase))
     && Undisturbed(Apply(s, steps[0]), steps[1..]))
  }

  /** What was read still holds, and once every idle fiber has decided, nothing is armed or pending. */
  predicate ReadsOk(s: State) {
    && (forall w | 0 <= w < |s.workers| && MidRead(s.workers[w].phase) :: s.timers == UNARMED)
    && (forall w | 0 <= w < |s.workers| && s.workers[w].phase.NoPending? :: s.pending == 0)
    && (AllDecided(s) ==> s.timers == UNARMED && s.pending == 0)
  }

  predicate AllDecided(s: State) { forall w | 0 <= w < |s.workers| :: Decided(s.workers[w]) }

  /** Once every idle fiber has decided, nobody can change what is armed or pending. */
  lemma NobodyAdjusts(s: State, step: Step)
    requires Inv(s) && step.Adjust? && Enabled(s, step)
    ensures !AllDecided(s)
  {
    hide AccountOk, OrderOk, FirstFor;
    if AllDecided(s) {
      assert Decided(s.workers[0]) && s.stopping;
      assert WorkerOk(s, step.who.w);
      IdleHandsEmpty(s, step.who.w);
    }
  }

  lemma AdjustKeepsReads(s: State, step: Step)
    requires Inv(s) && step.Adjust? && Enabled(s, step)
    requires forall v | 0 <= v < |s.workers| :: !MidRead(s.workers[v].phase)
    ensures ReadsOk(Apply(s, step))
  {
    NobodyAdjusts(s, step);
  }

  /** Where a worker's own step takes it, as far as the reads go. */
  lemma OwnStepReads(s: State, step: Step)
    requires ControlOk(s) && ByOneWorker(step) && Enabled(s, step) && !Fails(s, step)
    ensures var (s', phase) := (Apply(s, step), Apply(s, step).workers[step.w].phase);
      && (step.Collect? || s'.timers == s.timers) && (step.CountEvent? || s'.pending == s.pending)
      && (s.timers == UNARMED ==> s'.timers == UNARMED) && (s.pending == 0 ==> s'.pending == 0)
      && (MidRead(phase) ==> if phase.NoTimers? then s.timers == UNARMED
         else s.pending == 0 && s.workers[step.w].phase.NoTimers?)
      && (phase.NoTimers? ==> step.ReadTimers?) && (phase.NoPending? ==> step.ReadPending?)
      && (step.ReadQueue? ==> s.workers[step.w].phase.NoPending?)
  {
    hide FirstFor, Acting, RunsCode, Count, TaskOk, Without, WorkerOk, FiberOk;
  }

  lemma StepKeepsReads(s: State, step: Step)
    requires Inv(s) && ReadsOk(s) && Enabled(s, step) && !Fails(s, step)
    requires step.Adjust? ==> forall w | 0 <= w < |s.workers| :: !MidRead(s.workers[w].phase)
    ensures ReadsOk(Apply(s, step))
  {
    hide Apply, Enabled, Fails, Inv, ReadsOk;
    if step.Adjust? {
      AdjustKeepsReads(s, step);
    } else if ByOneWorker(step) {
      OwnStepKeepsReads(s, step);
    } else {
      SharedStepReads(s, step);
    }
  }

  lemma OwnStepKeepsReads(s: State, step: Step)
    requires Inv(s) && ReadsOk(s) && ByOneWorker(step) && Enabled(s, step) && !Fails(s, step)
    ensures ReadsOk(Apply(s, step))
  {
    hide Apply, Decided, AccountOk, OrderOk, ShutdownOk, ControlOk, Fails;
    DecidesByReading(s, step);
    OwnStepReads(s, step);
    SameWorkers(s, step);
    var s' := Apply(s, step);
    if forall v | 0 <= v < |s.workers| :: Decided(s'.workers[v]) {
      if Decided(s.workers[step.w]) { assert forall v | 0 <= v < |s.workers| :: Decided(s.workers[v]); }
    }
  }

  lemma SharedStepReads(s: State, step: Step)
    requires ReadsOk(s) && !ByOneWorker(step) && !step.Adjust? && Enabled(s, step) && !Fails(s, step)
    ensures ReadsOk(Apply(s, step))
  {
    assert Apply(s, step).workers == s.workers;
  }

  lemma {:induction false} UndisturbedRun(s: State, steps: seq<Step>)
    requires Inv(s) && ReadsOk(s) && Run(s, steps).Some? && Undisturbed(s, steps)
    ensures Inv(Run(s, steps).value) && ReadsOk(Run(s, steps).value)
    decreases |steps|
  {
    hide Inv, Enabled, Fails, Apply, ReadsOk;
    if steps != [] {
      StepKeepsInv(s, steps[0]);
      StepKeepsReads(s, steps[0]);
      UndisturbedRun(Apply(s, steps[0]), steps[1..]);
    }
  }

  /** As long as the three reads are not disturbed, a completed shutdown leaves no timer armed and no event pending. */
  lemma UndisturbedShutdownLosesNothing(s0: State, steps: seq<Step>)
    requires Init(s0) && Run(s0, steps).Some? && Undisturbed(s0, steps) && AllLeft(Run(s0, steps).value)
    ensures Run(s0, steps).value.timers == UNARMED && Run(s0, steps).value.pending == 0
  {
    hide AccountOk, OrderOk, Run, Undisturbed;
    InitInv(s0);
    assert !Decided(s0.workers[0]);
    UndisturbedRun(s0, steps);
    var s := Run(s0, steps).value;
    forall w | 0 <= w < |s.workers| ensures Decided(s.workers[w]) { assert WorkerOk(s, w); }
  }

  // ---------------------------------------------------------------- exactly what is lost

  lemma SharedFrame(s: State, step: Step)
    requires !ByOneWorker(step) && Enabled(s, step) && !Fails(s, step)
    ensures Apply(s, step).workers == s.workers
    ensures !step.Adjust? ==> Apply(s, step).timers == s.timers && Apply(s, step).pending == s.pending
  {}

  /** What every step keeps once all idle fibers have decided. */
  lemma DecidedIsFinal(s: State, step: Step)
    requires Inv(s) && AllDecided(s) && Enabled(s, step) && !Fails(s, step)
    ensures var s' := Apply(s, step); AllDecided(s') && s'.timers == s.timers && s'.pending == s.pending
  {
    hide Apply, Decided, AccountOk, OrderOk, ShutdownOk, ControlOk, Enabled, Fails;
    if step.Adjust? {
      NobodyAdjusts(s, step);
    } else if ByOneWorker(step) {
      DecidesByReading(s, step);
      OwnFrame(s, step);
      OwnStepReads(s, step);
    } else {
      SharedFrame(s, step);
    }
  }

  lemma {:induction false} DecidedRun(s: State, steps: seq<Step>)
    requires Inv(s) && AllDecided(s) && Run(s, steps).Some?
    ensures Run(s, steps).value.timers == s.timers && Run(s, steps).value.pending == s.pending
    decreases |steps|
  {
    hide Inv, Enabled, Fails, Apply, AllDecided;
    if steps != [] {
      StepKeepsInv(s, steps[0]);
      DecidedIsFinal(s, steps[0]);
      DecidedRun(Apply(s, steps[0]), steps[1..]);
    }
  }

  /** Step `k` of the run is the reading of the queue by which worker `w` decides, the last to do so; `d` is the state
      before it. */
  predicate LastDecision(s: State, steps: seq<Step>, k: nat, w: nat, d: State) {
    && k < |steps| && steps[k] == ReadQueue(w) && Run(s, steps[..k]) == Some(d)
    && w < |d.workers| && d.workers[w].phase == NoPending && !Decided(d.workers[w]) && SchedulerStopping(d)
    && forall v | 0 <= v < |d.workers| && v != w :: Decided(d.workers[v])
  }

  lemma {:induction false} DecisionIsFound(s: State, steps: seq<Step>) returns (k: nat, w: nat, d: State)
    requires Inv(s) && Run(s, steps).Some? && !AllDecided(s) && AllDecided(Run(s, steps).value)
    ensures LastDecision(s, steps, k, w, d)
    ensures Run(s, steps).value.timers == d.timers && Run(s, steps).value.pending == d.pending
    decreases |steps|
  {
    hide Inv, Enabled, Fails, Apply, AllDecided, Decided, SchedulerStopping;
    var s' := Apply(s, steps[0]);
    StepKeepsInv(s, steps[0]);
    if AllDecided(s') {
      w := DecidesLast(s, steps[0]);
      k, d := 0, s;
      assert steps[..0] == [];
      DecidedRun(s', steps[1..]);
    } else {
      k, w, d := DecisionIsFound(s', steps[1..]);
      k := k + 1;
      RunCons(s, steps[0], steps[1..][..k - 1]);
      assert steps[..k] == [steps[0]] + steps[1..][..k - 1];
    }
  }

  lemma RunCons(s: State, step: Step, steps: seq<Step>)
    requires Enabled(s, step) && !Fails(s, step)
    ensures Run(s, [step] + steps) == Run(Apply(s, step), steps)
  {
    hide Enabled, Fails, Apply;
    assert ([step] + steps)[1..] == steps;
  }

  /** The step by which all have decided is the reading of a worker, the others having decided before. */
  lemma DecidesLast(s: State, step: Step) returns (w: nat)
    requires Inv(s) && Enabled(s, step) && !Fails(s, step) && !AllDecided(s) && AllDecided(Apply(s, step))
    ensures step == ReadQueue(w) && w < |s.workers| && s.workers[w].phase == NoPending && !Decided(s.workers[w])
    ensures SchedulerStopping(s) && forall v | 0 <= v < |s.workers| && v != w :: Decided(s.workers[v])
    ensures Apply(s, step).timers == s.timers && Apply(s, step).pending == s.pending
  {
    hide Apply, Decided, AccountOk, OrderOk, ShutdownOk, ControlOk, Fails, SchedulerStopping, FirstFor, Without;
    if !ByOneWorker(step) {
      SharedWorkers(s, step);
      assert false;
    }
    w := step.w;
    DecidesByReading(s, step);
    OwnStepReads(s, step);
    SameWorkers(s, step);
    forall v | 0 <= v < |s.workers| && v != w ensures Decided(s.workers[v]) {
      assert Apply(s, step).workers[v] == s.workers[v];
    }
    assert !Decided(s.workers[w]);
  }

  /** A completed shutdown leaves something armed or pending if and only if that was so when the last idle fiber
      decided to end. */
  lemma ShutdownLosesIff(s0: State, steps: seq<Step>) returns (k: nat, w: nat, d: State)
    requires Init(s0) && Run(s0, steps).Some? && AllLeft(Run(s0, steps).value)
    ensures LastDecision(s0, steps, k, w, d)
    ensures Run(s0, steps).value.timers == d.timers && Run(s0, steps).value.pending == d.pending
  {
    hide AccountOk, OrderOk, Run;
    InitInv(s0);
    assert !Decided(s0.workers[0]);
    RunKeepsInv(s0, steps);
    var s := Run(s0, steps).value;
    forall w | 0 <= w < |s.workers| ensures Decided(s.workers[w]) { assert WorkerOk(s, w); }
    k, w, d := DecisionIsFound(s0, steps);
  }

  // ---------------------------------------------------------------- when what is lost was added

  /** Worker `w` takes none of its own steps from step `i` on. */
  predicate Rests(steps: seq<Step>, i: nat, w: nat) {
    forall m | i <= m < |steps| :: ByOneWorker(steps[m]) ==> steps[m].w != w
  }

  /** Step `i` is the worker's reading of the timers, of which there were none. */
  predicate ReadNoTimers(s: State, steps: seq<Step>, i: nat, w: nat) {
    i < |steps| && steps[i] == ReadTimers(w) && Run(s, steps[..i]).Some? && Run(s, steps[..i]).value.timers == UNARMED
  }

  predicate ReadNoPending(s: State, steps: seq<Step>, j: nat, w: nat) {
    j < |steps| && steps[j] == ReadPending(w) && Run(s, steps[..j]).Some? && Run(s, steps[..j]).value.pending == 0
  }

  lemma {:induction false} RunSnoc(s: State, steps: seq<Step>)
    requires steps != [] && Run(s, steps).Some?
    ensures var init, last := steps[..|steps| - 1], steps[|steps| - 1];
      && Run(s, init).Some? && Enabled(Run(s, init).value, last) && !Fails(Run(s, init).value, last)
      && Run(s, steps) == Some(Apply(Run(s, init).value, last))
    decreases |steps|
  {
    hide Enabled, Fails, Apply;
    if |steps| == 1 {
      assert steps[1..] == [] && steps[..0] == [];
    } else {
      RunSnoc(Apply(s, steps[0]), steps[1..]);
      var init := steps[..|steps| - 1];
      assert steps[1..][..|steps| - 2] == init[1..];
    }
  }

  /** A worker that is past its reading of the timers has read that there are none. */
  lemma {:induction false} TimersReadBefore(s0: State, steps: seq<Step>, w: nat) returns (i: nat)
    requires Init(s0) && Run(s0, steps).Some? && w < |Run(s0, steps).value.workers|
    requires Run(s0, steps).value.workers[w].phase == NoTimers
    ensures ReadNoTimers(s0, steps, i, w) && Rests(steps, i + 1, w)
    decreases |steps|
  {
    hide Run, Enabled, Fails, Apply, Inv;
    if steps == [] {
      RunNothing(s0);
      assert false;
    }
    RunSnoc(s0, steps);
    var init, last := steps[..|steps| - 1], steps[|steps| - 1];
    InitInv(s0);
    RunKeepsInv(s0, init);
    var s := Run(s0, init).value;
    SameWorkers(s, last);
    if ByOneWorker(last) && last.w == w {
      i := |steps| - 1;
      ReadsAsItSays(s, last);
    } else {
      InvControl(s);
      OthersStay(s, last, w);
      i := TimersReadBefore(s0, init, w);
      assert steps[..i] == init[..i];
      assert forall m | i + 1 <= m < |init| :: steps[m] == init[m];
    }
  }

  lemma RunNothing(s: State)
    ensures Run(s, []) == Some(s)
  {}

  lemma ReadsAsItSays(s: State, step: Step)
    requires Inv(s) && ByOneWorker(step) && Enabled(s, step) && !Fails(s, step)
    ensures var (s', phase) := (Apply(s, step), Apply(s, step).workers[step.w].phase);
      && (phase.NoTimers? ==> step.ReadTimers? && s.timers == UNARMED)
      && (phase.NoPending? ==> step.ReadPending? && s.pending == 0 && s.workers[step.w].phase.NoTimers?)
  {
    hide Apply, Fails, AccountOk, OrderOk, ShutdownOk, ControlOk;
    OwnStepReads(s, step);
  }

  /** A worker about to read the queue has read, in this order, that there are no timers and nothing pending. */
  lemma {:induction false} PendingReadBefore(s0: State, steps: seq<Step>, w: nat) returns (i: nat, j: nat)
    requires Init(s0) && Run(s0, steps).Some? && w < |Run(s0, steps).value.workers|
    requires Run(s0, steps).value.workers[w].phase == NoPending
    ensures i < j && ReadNoTimers(s0, steps, i, w) && ReadNoPending(s0, steps, j, w)
    ensures j < |steps| && Rests(steps[..j], i + 1, w) && Rests(steps, j + 1, w)
    decreases |steps|
  {
    hide Run, Enabled, Fails, Apply, Inv;
    if steps == [] {
      RunNothing(s0);
      assert false;
    }
    RunSnoc(s0, steps);
    var init, last := steps[..|steps| - 1], steps[|steps| - 1];
    InitInv(s0);
    RunKeepsInv(s0, init);
    var s := Run(s0, init).value;
    SameWorkers(s, last);
    if ByOneWorker(last) && last.w == w {
      j := |steps| - 1;
      ReadsAsItSays(s, last);
      i := TimersReadBefore(s0, init, w);
      assert steps[..i] == init[..i];
    } else {
      InvControl(s);
      OthersStay(s, last, w);
      i, j := PendingReadBefore(s0, init, w);
      assert steps[..i] == init[..i] && steps[..j] == init[..j];
      assert forall m | j + 1 <= m < |init| :: steps[m] == init[m];
    }
  }

  /** Timers that were not there at step `i` were armed since. */
  lemma {:induction false} ArmedSince(s0: State, steps: seq<Step>, i: nat) returns (m: nat)
    requires Init(s0) && Run(s0, steps).Some? && i <= |steps| && Run(s0, steps[..i]).Some?
    requires Run(s0, steps[..i]).value.timers == UNARMED && Run(s0, steps).value.timers != UNARMED
    ensures i <= m < |steps| && steps[m].Adjust? && steps[m].timers != UNARMED
    decreases |steps|
  {
    hide Run, Enabled, Fails, Apply, Inv;
    assert steps[..|steps|] == steps;
    if i == |steps| { assert false; }
    RunSnoc(s0, steps);
    var init, last := steps[..|steps| - 1], steps[|steps| - 1];
    InitInv(s0);
    RunKeepsInv(s0, init);
    OnlyAdjustAdds(Run(s0, init).value, last);
    if last.Adjust? {
      m := |steps| - 1;
    } else {
      assert init[..i] == steps[..i];
      m := ArmedSince(s0, init, i);
    }
  }

  lemma OnlyAdjustAdds(s: State, step: Step)
    requires Inv(s) && Enabled(s, step) && !Fails(s, step)
    ensures if step.Adjust? then Apply(s, step).timers == step.timers
            else s.timers == UNARMED ==> Apply(s, step).timers == UNARMED
    ensures if step.Adjust? then Apply(s, step).pending == step.pending
            else s.pending == 0 ==> Apply(s, step).pending == 0
  {
    hide AccountOk, OrderOk, ShutdownOk, ControlOk;
    if ByOneWorker(step) {
      hide Apply;
      OwnStepReads(s, step);
    }
  }

  /** Events that were not pending at step `j` were registered since. */
  lemma {:induction false} RegisteredSince(s0: State, steps: seq<Step>, j: nat) returns (m: nat)
    requires Init(s0) && Run(s0, steps).Some? && j <= |steps| && Run(s0, steps[..j]).Some?
    requires Run(s0, steps[..j]).value.pending == 0 && Run(s0, steps).value.pending != 0
    ensures j <= m < |steps| && steps[m].Adjust? && steps[m].pending != 0
    decreases |steps|
  {
    hide Run, Enabled, Fails, Apply, Inv;
    assert steps[..|steps|] == steps;
    if j == |steps| { assert false; }
    RunSnoc(s0, steps);
    var init, last := steps[..|steps| - 1], steps[|steps| - 1];
    InitInv(s0);
    RunKeepsInv(s0, init);
    OnlyAdjustAdds(Run(s0, init).value, last);
    if last.Adjust? {
      m := |steps| - 1;
    } else {
      assert init[..j] == steps[..j];
      m := RegisteredSince(s0, init, j);
    }
  }

  /** A timer or event that a completed shutdown leaves behind was added while the last worker to decide was between
      its own reading of that count and its decision. */
  lemma LostWasAddedMidRead(s0: State, steps: seq<Step>) returns (k: nat, w: nat, d: State, i: nat, j: nat, m: nat)
    requires Init(s0) && Run(s0, steps).Some? && AllLeft(Run(s0, steps).value)
    requires Run(s0, steps).value.timers != UNARMED || Run(s0, steps).value.pending != 0
    ensures LastDecision(s0, steps, k, w, d)
    ensures i < j < k && ReadNoTimers(s0, steps, i, w) && ReadNoPending(s0, steps, j, w) && m < k
    ensures Rests(steps[..j], i + 1, w) && Rests(steps[..k], j + 1, w)
    ensures steps[m].Adjust? && ((i < m && steps[m].timers != UNARMED) || (j < m && steps[m].pending != 0))
  {
    hide Run, Enabled, Fails, Apply, Inv, SchedulerStopping, Decided;
    k, w, d := ShutdownLosesIff(s0, steps);
    var before := steps[..k];
    i, j := PendingReadBefore(s0, before, w);
    assert before[..i] == steps[..i] && before[..j] == steps[..j];
    if d.timers != UNARMED { m := ArmedSince(s0, before, i); } else { m := RegisteredSince(s0, before, j); }
  }
}
