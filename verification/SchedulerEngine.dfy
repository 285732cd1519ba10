/** The scheduling loop as the program runs it (src/ai_push_hooks/engine.py): mutable module states,
    a dictionary of futures, a pass over the modules, a wait for completions.  Proved against the
    moves of Scheduler. */
module SchedulerEngine {

  import opened Options
  import opened Scheduler
  import opened SchedulerService

  /** What a run cannot choose: which steps are done after a wait, in the order their results are
      read, and how each submitted step ends. */
  datatype Environment = Environment(wait: (nat, set<nat>) -> seq<nat>, outcome: nat -> Outcome)

  /** A wait returns some of the futures it is given, at least one if there are any, each once. */
  ghost predicate WaitsProperly(env: Environment) {
    forall round, futures :: futures != {} ==> ProperDone(env.wait(round, futures), futures)
  }

  ghost predicate ProperDone(done: seq<nat>, futures: set<nat>) {
    && done != []
    && (forall i | 0 <= i < |done| :: done[i] in futures)
    && (forall i, j | 0 <= i < j < |done| :: done[i] != done[j])
  }

  datatype RunError = StepRaised(id: StepId) | Deadlock

  class ModuleRuntimeState {
    var stepIndex: nat
    var status: Status
    var active: bool

    constructor ()
      ensures stepIndex == 0 && status == Pending && !active
    {
      stepIndex, status, active := 0, Pending, false;
    }

    ghost function View(): ModuleState
      reads this
    {
      ModuleState(stepIndex, status, active)
    }
  }

  class WorkflowEngine {
    const modules: Modules
    const cap: nat
    const states: seq<ModuleRuntimeState>
    var statuses: seq<Status>
    var futures: map<nat, StepId>
    var next: nat
    var log: seq<Event>

    /** One state object per module, no two shared. */
    ghost predicate Valid()
      reads this
    {
      && cap >= 1
      && |states| == |statuses| == |modules|
      && (forall i, j | 0 <= i < j < |states| :: states[i] != states[j])
    }

    ghost function Views(): (views: seq<ModuleState>)
      reads states
      ensures |views| == |states|
      ensures forall i | 0 <= i < |states| :: views[i] == states[i].View()
    {
      seq(|states|, i requires 0 <= i < |states| reads states => states[i].View())
    }

    ghost function State(): Engine
      reads this, states
    {
      Engine(Views(), statuses, futures, next, log)
    }

    constructor (modules: Modules, maxParallel: int)
      ensures Valid() && State() == Init(modules) && this.modules == modules
      ensures cap == if maxParallel < 1 then 1 else maxParallel
      ensures fresh(states)
    {
      this.modules := modules;
      cap := if maxParallel < 1 then 1 else maxParallel;
      var objects: seq<ModuleRuntimeState> := [];
      for m := 0 to |modules|
        invariant |objects| == m && fresh(objects)
        invariant forall i, j | 0 <= i < j < m :: objects[i] != objects[j]
        invariant forall i | 0 <= i < m :: objects[i].View() == ModuleState(0, Pending, false)
      {
        var state := new ModuleRuntimeState();
        objects := objects + [state];
      }
      states := objects;
      statuses := seq(|modules|, _ => Pending);
      futures, next, log := map[], 0, [];
      new;
      assert Views() == Init(modules).states;
    }

    /** One module of the scheduling pass; `stop` ends the pass after a mutating step was submitted. */
    method VisitModule(m: nat) returns (stop: bool)
      requires Valid() && m < |modules|
      modifies this, states[m]
      ensures Valid() && State() == Visit(modules, cap, old(State()), m)
      ensures |old(Views())| == |modules| &&
              log == old(log) + if Startable(modules, cap, old(Views()), old(futures), m)
                                then [Submit((m, old(states[m].stepIndex)))] else []
      ensures stop ==> MutatingInFlight(modules, futures)
    {
      stop := false;
      ghost var before := Views();
      VisitStarts(modules, cap, State(), m);
      var state := states[m];
      if state.status.Completed? || state.status.Failed? {
        statuses := statuses[m := state.status];
        assert Views() == before;
        return;
      }
      if state.active {
        assert Views() == before;
        return;
      }
      if state.stepIndex >= |modules[m]| {
        state.status := Completed;
        statuses := statuses[m := Completed];
        assert Views() == before[m := before[m].(status := Completed)];
        return;
      }
      var step := modules[m][state.stepIndex];
      if futures != map[] && !ReadOnly(step) {
        return;
      }
      if MutatingInFlight(modules, futures) {
        return;
      }
      if ReadOnly(step) && |futures| >= cap {
        return;
      }
      futures := futures[next := (m, state.stepIndex)];
      assert next in futures;
      log := log + [Submit((m, state.stepIndex))];
      next := next + 1;
      state.active := true;
      state.status := Running;
      assert Views() == before[m := before[m].(status := Running, active := true)];
      stop := !ReadOnly(step);
      assert stop ==> Mutating(modules, futures[next - 1]);
    }

    /** One finished future: its result is read, and a raised step ends the run. */
    method Collect(t: nat, outcome: Outcome)
      requires Valid() && t in futures && futures[t].0 < |modules|
      modifies this, states[futures[t].0]
      ensures Valid() && State() == End(modules, old(State()), t, outcome)
    {
      var id := futures[t];
      var m := id.0;
      var state := states[m];
      ghost var before := Views();
      futures := Without(futures, t);
      state.active := false;
      match outcome {
        case Raised =>
          state.status := Failed;
          log := log + [Raise(id)];
        case Returned(skipModule) =>
          state.stepIndex := state.stepIndex + 1;
          if skipModule {
            state.stepIndex := |modules[m]|;
            state.status := Completed;
          } else if state.stepIndex >= |modules[m]| {
            state.status := Completed;
          } else {
            state.status := Pending;
          }
          statuses := statuses[m := state.status];
          log := log + [Finish(id, skipModule)];
      }
      assert Views() == before[m := state.View()];
    }

    /** The scheduling pass.  Afterwards nothing more can be started: a mutating step is in flight, or as
        many steps as may be, or no idle module has a read-only next step.  With nothing in flight before,
        the first idle module is served first; with nothing in flight afterwards, every module is completed. */
    method Pass(ghost outcome: nat -> Outcome)
      requires Valid() && Inv(modules, cap, State()) && !HasRaised(log) && Ledger(outcome, State())
      modifies this, states
      ensures Valid() && Inv(modules, cap, State()) && !HasRaised(log) && Ledger(outcome, State())
      ensures Remaining(modules, State().states, 0) == old(Remaining(modules, State().states, 0))
      ensures Busy(modules, cap, Views(), futures) && OnlySubmits(old(log), log)
      ensures |old(Views())| == |modules| && ServesIdle(modules, old(State()), State())
      ensures futures == map[] ==> forall m | 0 <= m < |modules| :: State().states[m].status.Completed?
    {
      ghost var start := State();
      AttendsStart(modules, cap, start);
      for m := 0 to |states|
        invariant Valid() && Passing(modules, cap, outcome, start, State(), m)
      {
        PassingStep(modules, cap, outcome, start, State(), m);
        var stop := VisitModule(m);
        if stop {
          PassDone(modules, cap, start, State(), m + 1);
          return;
        }
      }
      PassDone(modules, cap, start, State(), |modules|);
    }

    /** Reads one result: a raised step ends the run, a returned one leaves less to do. */
    method CollectOne(env: Environment, t: nat) returns (raised: Option<StepId>)
      requires Valid() && Inv(modules, cap, State()) && !HasRaised(log) && Ledger(env.outcome, State())
      requires t in futures
      modifies this, states
      ensures Valid() && Inv(modules, cap, State()) && Ledger(env.outcome, State())
      ensures raised.Some? <==> env.outcome(t).Raised?
      ensures raised.Some? ==> EndsWithRaise(log, raised.value)
      ensures raised.None? ==> !HasRaised(log) && futures == Without(old(futures), t)
      ensures OnlyEnds(old(log), log)
      ensures raised.None? ==> Remaining(modules, State().states, 0) < old(Remaining(modules, State().states, 0))
    {
      var id := futures[t];
      var outcome := env.outcome(t);
      ghost var before := State();
      LedgerEnd(env.outcome, modules, before, t);
      EndKeepsInv(modules, cap, before, t, outcome);
      EndLog(modules, before, t, outcome);
      if outcome.Returned? {
        ReturnStep(modules, cap, before, t, outcome.skipModule);
      }
      Collect(t, outcome);
      raised := if outcome.Raised? then Some(id) else None;
    }

    /** Reads the results of finished futures in the given order, up to the first that raised. */
    method CollectAll(env: Environment, done: seq<nat>) returns (raised: Option<StepId>)
      requires Valid() && Inv(modules, cap, State()) && !HasRaised(log) && Ledger(env.outcome, State())
      requires ProperDone(done, futures.Keys)
      modifies this, states
      ensures Valid() && Inv(modules, cap, State()) && Ledger(env.outcome, State())
      ensures raised.None? ==> !HasRaised(log)
      ensures raised.None? ==> Remaining(modules, State().states, 0) < old(Remaining(modules, State().states, 0))
      ensures raised.Some? ==> EndsWithRaise(log, raised.value)
      ensures OnlyEnds(old(log), log)
    {
      for n := 0 to |done|
        invariant Valid() && Inv(modules, cap, State()) && !HasRaised(log) && Ledger(env.outcome, State())
        invariant forall i | n <= i < |done| :: done[i] in futures
        invariant OnlyEnds(old(log), log)
        invariant n > 0 ==> Remaining(modules, State().states, 0) < old(Remaining(modules, State().states, 0))
        invariant n == 0 ==> Remaining(modules, State().states, 0) == old(Remaining(modules, State().states, 0))
      {
        ghost var before := log;
        raised := CollectOne(env, done[n]);
        OnlyEndsOn(old(log), before, log);
        if raised.Some? {
          return;
        }
      }
      return None;
    }

    /** The whole run.  The log is safe whatever the environment does, and records of every submitted step
        the end it really had.  The run returns exactly when no submitted step raises, and then every
        step ran and every module is completed; otherwise its error names the step that raised, and
        nothing was submitted after it.  The deadlock error is never returned.  `waits` are the states in
        which the run waited: never while something could have been started. */
    method Run(env: Environment) returns (result: Result<seq<Status>, RunError>, ghost waits: seq<Engine>)
      requires WaitsProperly(env) && Valid() && State() == Init(modules)
      modifies this, states
      ensures Valid() && SafeLog(modules, cap, log) && Truthful(env.outcome, log)
      ensures result.Ok? <==> !SomeRaises(env.outcome, log)
      ensures result.Ok? ==> AllRan(modules, log) && !HasRaised(log)
      ensures result.Ok? ==>
        |result.value| == |modules| && forall m | 0 <= m < |modules| :: result.value[m] == Completed
      ensures result.Err? ==> result.error.StepRaised? && EndsWithRaise(log, result.error.id)
      ensures AllBusy(modules, cap, waits) && EndsAfterWaits(log, waits)
    {
      InitInv(modules, cap);
      waits := [];
      var round := 0;
      while true
        invariant Valid() && Inv(modules, cap, State()) && !HasRaised(log) && Ledger(env.outcome, State())
        invariant AllBusy(modules, cap, waits) && EndsAfterWaits(log, waits)
        decreases Remaining(modules, State().states, 0)
      {
        ghost var before := log;
        Pass(env.outcome);
        SubmitsAfterEnds(before, waits, log);
        if futures == map[] {
          result := if forall m | 0 <= m < |states| :: states[m].status.Completed? then Ok(statuses) else Err(Deadlock);
          break;
        }
        var done := env.wait(round, futures.Keys);
        assert ProperDone(done, futures.Keys);
        round := round + 1;
        ghost var wait := State();
        var raised := CollectAll(env, done);
        AllBusySnoc(modules, cap, waits, wait);
        NextWait(before, waits, wait, log);
        waits := waits + [wait];
        if raised.Some? {
          result := Err(StepRaised(raised.value));
          break;
        }
      }
      RaisesAreRecorded(env.outcome, State());
      if result.Ok? {
        CompletedMeansRan(modules, cap, State());
      }
    }
  }
}
