/** The workflow scheduling loop (src/ai_push_hooks/engine.py, `WorkflowEngine.run`), with step bodies
    abstract.

    Modules run their steps one after another.  Read-only steps of different modules run
    concurrently; a mutating step runs alone.  The pure part states what one visit of a module and
    one finished step do to the engine, and what every run of such moves keeps. */
module Scheduler {

  datatype StepType = Collect | Ask | Apply | Exec | Assert

  predicate ReadOnly(step: StepType) {
    step.Collect? || step.Ask?
  }

  /** The enabled modules, each a list of steps. */
  type Modules = seq<seq<StepType>>

  /** A submitted step: its module and its index there. */
  type StepId = (nat, nat)

  datatype Status = Pending | Running | Completed | Failed

  datatype ModuleState = ModuleState(stepIndex: nat, status: Status, active: bool)

  /** How a step ends: it raises, or it returns and may ask to skip the rest of its module. */
  datatype Outcome = Raised | Returned(skipModule: bool)

  datatype Event = Submit(id: StepId) | Finish(id: StepId, skipModule: bool) | Raise(id: StepId)

  /** `futures` maps the handle of each step in flight to the step; `log` is what happened. */
  datatype Engine = Engine(states: seq<ModuleState>, statuses: seq<Status>, futures: map<nat, StepId>,
                           next: nat, log: seq<Event>)

  ghost function Init(modules: Modules): Engine {
    Engine(seq(|modules|, _ => ModuleState(0, Pending, false)),
           seq(|modules|, _ => Pending), map[], 0, [])
  }

  predicate InRange(modules: Modules, id: StepId) {
    id.0 < |modules| && id.1 < |modules[id.0]|
  }

  predicate Mutating(modules: Modules, id: StepId) {
    InRange(modules, id) && !ReadOnly(modules[id.0][id.1])
  }

  // ---------------------------------------------------------------------------------
  // What a log says
  // ---------------------------------------------------------------------------------

  /** The steps submitted and not yet ended. */
  ghost function InFlight(log: seq<Event>): set<StepId> {
    if log == [] then {}
    else
      var before := InFlight(log[..|log| - 1]);
      var event := log[|log| - 1];
      if event.Submit? then before + {event.id} else before - {event.id}
  }

  /** The steps of one module in the order they were submitted. */
  ghost function Submissions(log: seq<Event>, m: nat): seq<nat> {
    if log == [] then []
    else
      var before := Submissions(log[..|log| - 1], m);
      var event := log[|log| - 1];
      if event.Submit? && event.id.0 == m then before + [event.id.1] else before
  }

  /** A mutating step in flight is the only one, each module has at most one, and the cap holds. */
  ghost predicate SafeTogether(modules: Modules, cap: nat, flight: set<StepId>) {
    && |flight| <= cap
    && (forall id | id in flight :: InRange(modules, id))
    && (forall a, b | a in flight && b in flight :: a.0 == b.0 ==> a == b)
    && (forall a, b | a in flight && b in flight :: Mutating(modules, a) ==> a == b)
  }

  /** Steps 0, 1, 2, .. of a module: a prefix of its list, in order, each at most once. */
  ghost predicate IsPrefix(submitted: seq<nat>, count: nat) {
    && |submitted| <= count
    && forall i | 0 <= i < |submitted| :: submitted[i] == i
  }

  /** Only a step in flight ends.  Step k > 0 of a module is submitted only after step k - 1 returned
      without skipping, and nothing is submitted twice at a time or after a step raised. */
  ghost predicate Justified(log: seq<Event>, n: nat)
    requires n < |log|
  {
    if !log[n].Submit? then log[n].id in InFlight(log[..n])
    else
      && log[n].id !in InFlight(log[..n])
      && (log[n].id.1 > 0 ==> Finish((log[n].id.0, log[n].id.1 - 1), false) in log[..n])
      && forall i | 0 <= i < n :: !log[i].Raise?
  }

  /** What is promised of a whole run, at every moment of it. */
  ghost predicate SafeLog(modules: Modules, cap: nat, log: seq<Event>) {
    && AlwaysTogether(modules, cap, log)
    && (forall m | 0 <= m < |modules| :: IsPrefix(Submissions(log, m), |modules[m]|))
    && AlwaysJustified(log)
  }

  ghost predicate AlwaysTogether(modules: Modules, cap: nat, log: seq<Event>) {
    forall n | 0 <= n <= |log| :: SafeTogether(modules, cap, InFlight(log[..n]))
  }

  ghost predicate AlwaysJustified(log: seq<Event>) {
    forall n | 0 <= n < |log| :: Justified(log, n)
  }

  // ---------------------------------------------------------------------------------
  // The two moves
  // ---------------------------------------------------------------------------------

  predicate MutatingInFlight(modules: Modules, futures: map<nat, StepId>) {
    exists t | t in futures :: Mutating(modules, futures[t])
  }

  /** Whether the pass submits the next step of idle module m. */
  ghost predicate CanSubmit(modules: Modules, cap: nat, e: Engine, m: nat)
    requires m < |modules| == |e.states|
  {
    var s := e.states[m];
    && !s.status.Completed? && !s.status.Failed? && !s.active
    && s.stepIndex < |modules[m]|
    && var step := modules[m][s.stepIndex];
       && (e.futures == map[] || ReadOnly(step))
       && !MutatingInFlight(modules, e.futures)
       && (ReadOnly(step) ==> |e.futures| < cap)
  }

  ghost function Submitted(e: Engine, m: nat): Engine
    requires m < |e.states|
  {
    var s := e.states[m];
    Engine(e.states[m := s.(status := Running, active := true)], e.statuses,
           e.futures[e.next := (m, s.stepIndex)], e.next + 1, e.log + [Submit((m, s.stepIndex))])
  }

  /** The scheduling pass looks at module m. */
  ghost function Visit(modules: Modules, cap: nat, e: Engine, m: nat): Engine
    requires m < |modules| == |e.states| == |e.statuses|
  {
    var s := e.states[m];
    if s.status.Completed? || s.status.Failed? then e.(statuses := e.statuses[m := s.status])
    else if s.active then e
    else if s.stepIndex >= |modules[m]| then
      e.(states := e.states[m := s.(status := Completed)], statuses := e.statuses[m := Completed])
    else if CanSubmit(modules, cap, e, m) then Submitted(e, m)
    else e
  }

  /** The state of a module after its active step returned. */
  ghost function Advanced(steps: seq<StepType>, s: ModuleState, skipModule: bool): ModuleState {
    var index := s.stepIndex + 1;
    if skipModule then ModuleState(|steps|, Completed, false)
    else if index >= |steps| then ModuleState(index, Completed, false)
    else ModuleState(index, Pending, false)
  }

  /** The step behind handle t ends. */
  ghost function End(modules: Modules, e: Engine, t: nat, outcome: Outcome): Engine
    requires |e.states| == |e.statuses| == |modules|
    requires t in e.futures && e.futures[t].0 < |modules|
  {
    var id := e.futures[t];
    var s := e.states[id.0];
    var futures := Without(e.futures, t);
    match outcome
    case Raised =>
      Engine(e.states[id.0 := s.(status := Failed, active := false)], e.statuses, futures, e.next, e.log + [Raise(id)])
    case Returned(skipModule) =>
      var s' := Advanced(modules[id.0], s, skipModule);
      Engine(e.states[id.0 := s'], e.statuses[id.0 := s'.status], futures, e.next, e.log + [Finish(id, skipModule)])
  }

  ghost predicate HasRaised(log: seq<Event>) {
    exists i | 0 <= i < |log| :: log[i].Raise?
  }

  // ---------------------------------------------------------------------------------
  // The invariant of a run
  // ---------------------------------------------------------------------------------

  /** The handles and the module states agree. */
  ghost predicate FuturesOk(modules: Modules, cap: nat, e: Engine) {
    && |e.states| == |e.statuses| == |modules|
    && |e.futures| <= cap
    && ActivesOk(modules, e)
    && OnePerModule(e.futures)
    && Exclusive(modules, e.futures)
    && (forall m | 0 <= m < |e.states| && e.states[m].active :: HasFuture(e.futures, m))
  }

  ghost predicate ActivesOk(modules: Modules, e: Engine) {
    forall t | t in e.futures :: t < e.next && InRange(modules, e.futures[t]) && IsActive(e.states, e.futures[t])
  }

  ghost predicate OnePerModule(futures: map<nat, StepId>) {
    forall t, u | t in futures && u in futures && t != u :: futures[t].0 != futures[u].0
  }

  ghost predicate Exclusive(modules: Modules, futures: map<nat, StepId>) {
    forall t, u | t in futures && u in futures && Mutating(modules, futures[t]) :: t == u
  }

  ghost predicate IsActive(states: seq<ModuleState>, id: StepId) {
    && id.0 < |states|
    && states[id.0].active
    && states[id.0].status.Running?
    && states[id.0].stepIndex == id.1
  }

  ghost predicate HasFuture(futures: map<nat, StepId>, m: nat) {
    exists t :: t in futures && futures[t].0 == m
  }

  /** What the log says about a module agrees with its state: the steps before stepIndex returned and
      were all submitted; a completed module ran every step or was skipped. */
  ghost predicate StateOk(steps: seq<StepType>, s: ModuleState, m: nat, log: seq<Event>) {
    && s.stepIndex <= |steps|
    && (s.active ==> s.stepIndex < |steps|)
    && (s.active <==> s.status.Running?)
    && (s.status.Failed? ==> HasRaised(log) && s.stepIndex < |steps|)
    && (s.status.Completed? ==> Ran(steps, m, log) && |Submissions(log, m)| <= |steps|)
    && (!s.status.Completed? ==>
          && |Submissions(log, m)| == s.stepIndex + (if s.status.Pending? then 0 else 1)
          && forall k: nat | k < s.stepIndex :: Finish((m, k), false) in log)
  }

  ghost predicate Ran(steps: seq<StepType>, m: nat, log: seq<Event>) {
    || (forall k: nat | k < |steps| :: Finish((m, k), false) in log)
    || (exists k: nat :: k < |steps| && Finish((m, k), true) in log)
  }

  ghost predicate StatesOk(modules: Modules, e: Engine) {
    && |e.states| == |e.statuses| == |modules|
    && (forall m | 0 <= m < |modules| :: StateOk(modules[m], e.states[m], m, e.log))
    && (forall m | 0 <= m < |modules| && e.states[m].status.Completed? :: e.statuses[m] == Completed)
  }

  /** The steps of a set are exactly the ones behind a handle, one handle each. */
  ghost predicate Tracks(futures: map<nat, StepId>, flight: set<StepId>) {
    && |flight| == |futures|
    && (forall t | t in futures :: futures[t] in flight)
    && (forall id | id in flight :: Behind(futures, id))
  }

  ghost predicate Behind(futures: map<nat, StepId>, id: StepId) {
    exists t :: t in futures && futures[t] == id
  }

  ghost predicate Inv(modules: Modules, cap: nat, e: Engine) {
    && FuturesOk(modules, cap, e)
    && StatesOk(modules, e)
    && Tracks(e.futures, InFlight(e.log))
    && SafeLog(modules, cap, e.log)
  }

  // ---------------------------------------------------------------------------------
  // Logs grow by one event
  // ---------------------------------------------------------------------------------

  lemma InFlightSnoc(log: seq<Event>, event: Event)
    ensures InFlight(log + [event])
         == if event.Submit? then InFlight(log) + {event.id} else InFlight(log) - {event.id}
  {
    assert (log + [event])[..|log|] == log;
  }

  lemma SubmissionsSnoc(log: seq<Event>, event: Event, m: nat)
    ensures Submissions(log + [event], m)
         == if event.Submit? && event.id.0 == m then Submissions(log, m) + [event.id.1] else Submissions(log, m)
  {
    assert (log + [event])[..|log|] == log;
  }

  lemma JustifiedFrame(log: seq<Event>, event: Event, n: nat)
    requires n < |log| && Justified(log, n)
    ensures Justified(log + [event], n)
  {
    assert (log + [event])[..n] == log[..n];
  }

  lemma TogetherSnoc(modules: Modules, cap: nat, log: seq<Event>, event: Event)
    requires AlwaysTogether(modules, cap, log) && SafeTogether(modules, cap, InFlight(log + [event]))
    ensures AlwaysTogether(modules, cap, log + [event])
  {
    var longer := log + [event];
    forall n | 0 <= n <= |longer| ensures SafeTogether(modules, cap, InFlight(longer[..n])) {
      assert longer[..n] == if n <= |log| then log[..n] else longer;
    }
  }

  /** A safe log stays safe when its last moment and its last event are. */
  lemma SafeLogSnoc(modules: Modules, cap: nat, log: seq<Event>, event: Event)
    requires SafeLog(modules, cap, log)
    requires SafeTogether(modules, cap, InFlight(log + [event]))
    requires Justified(log + [event], |log|)
    requires forall m | 0 <= m < |modules| :: IsPrefix(Submissions(log + [event], m), |modules[m]|)
    ensures SafeLog(modules, cap, log + [event])
  {
    TogetherSnoc(modules, cap, log, event);
    forall n | 0 <= n < |log| + 1 ensures Justified(log + [event], n) {
      if n < |log| {
        JustifiedFrame(log, event, n);
      }
    }
  }

  lemma TracksAdd(futures: map<nat, StepId>, flight: set<StepId>, t: nat, id: StepId)
    requires Tracks(futures, flight) && t !in futures && id !in flight
    ensures Tracks(futures[t := id], flight + {id})
  {
    var futures' := futures[t := id];
    assert futures'[t] == id;
    forall other | other in flight ensures Behind(futures', other) {
      assert Behind(futures, other);
      var u :| u in futures && futures[u] == other;
      assert futures'[u] == other;
    }
  }

  function Without(futures: map<nat, StepId>, t: nat): map<nat, StepId> {
    map u | u in futures && u != t :: futures[u]
  }

  lemma TracksRemove(futures: map<nat, StepId>, flight: set<StepId>, t: nat)
    requires Tracks(futures, flight) && t in futures && OnePerModule(futures)
    ensures Tracks(Without(futures, t), flight - {futures[t]})
  {
    var futures' := Without(futures, t);
    assert futures'.Keys == futures.Keys - {t};
    assert |futures'| == |futures'.Keys| && |futures| == |futures.Keys|;
    forall other | other in flight - {futures[t]} ensures Behind(futures', other) {
      assert Behind(futures, other);
      var u :| u in futures && futures[u] == other;
      assert u in futures' && futures'[u] == other;
    }
  }

  /** By the invariant the steps in flight are safe together. */
  lemma FlightIsSafe(modules: Modules, cap: nat, e: Engine)
    requires FuturesOk(modules, cap, e) && Tracks(e.futures, InFlight(e.log))
    ensures SafeTogether(modules, cap, InFlight(e.log))
  {
    var flight := InFlight(e.log);
    forall a, b | a in flight && b in flight
      ensures a.0 == b.0 ==> a == b
      ensures Mutating(modules, a) ==> a == b
    {
      assert Behind(e.futures, a) && Behind(e.futures, b);
      var t :| t in e.futures && e.futures[t] == a;
      var u :| u in e.futures && e.futures[u] == b;
    }
  }

  // ---------------------------------------------------------------------------------
  // Submitting
  // ---------------------------------------------------------------------------------

  /** An idle module has no handle. */
  lemma IdleHasNoFuture(modules: Modules, e: Engine, m: nat)
    requires ActivesOk(modules, e) && m < |e.states| && !e.states[m].active
    ensures forall t | t in e.futures :: e.futures[t].0 != m
  {
    forall t | t in e.futures ensures e.futures[t].0 != m {
      assert IsActive(e.states, e.futures[t]);
    }
  }

  lemma SubmitActives(modules: Modules, cap: nat, e: Engine, m: nat)
    requires ActivesOk(modules, e) && m < |modules| == |e.states| && CanSubmit(modules, cap, e, m)
    ensures ActivesOk(modules, Submitted(e, m))
  {
    IdleHasNoFuture(modules, e, m);
    var e' := Submitted(e, m);
    forall t | t in e'.futures
      ensures t < e'.next && InRange(modules, e'.futures[t]) && IsActive(e'.states, e'.futures[t])
    {
      if t != e.next {
        assert IsActive(e.states, e.futures[t]);
      }
    }
  }

  lemma SubmitExclusive(modules: Modules, cap: nat, e: Engine, m: nat)
    requires m < |modules| == |e.states| && CanSubmit(modules, cap, e, m)
    ensures Exclusive(modules, Submitted(e, m).futures)
  {
    assert forall t | t in e.futures :: !Mutating(modules, e.futures[t]);
  }

  lemma SubmitFutures(modules: Modules, cap: nat, e: Engine, m: nat)
    requires cap >= 1 && FuturesOk(modules, cap, e)
    requires m < |modules| && CanSubmit(modules, cap, e, m)
    ensures FuturesOk(modules, cap, Submitted(e, m))
  {
    var e' := Submitted(e, m);
    IdleHasNoFuture(modules, e, m);
    SubmitActives(modules, cap, e, m);
    SubmitExclusive(modules, cap, e, m);
    assert |e'.futures| <= cap by {
      assert e.next !in e.futures;
    }
    forall n | 0 <= n < |e'.states| && e'.states[n].active ensures HasFuture(e'.futures, n) {
      if n == m {
        assert e'.futures[e.next].0 == m;
      } else {
        assert HasFuture(e.futures, n);
        var t :| t in e.futures && e.futures[t].0 == n;
        assert t in e'.futures && e'.futures[t].0 == n;
      }
    }
  }

  lemma SubmitFlight(modules: Modules, cap: nat, e: Engine, m: nat)
    requires FuturesOk(modules, cap, e) && Tracks(e.futures, InFlight(e.log))
    requires m < |modules| && CanSubmit(modules, cap, e, m)
    ensures Tracks(Submitted(e, m).futures, InFlight(Submitted(e, m).log))
  {
    var id := (m, e.states[m].stepIndex);
    InFlightSnoc(e.log, Submit(id));
    IdleHasNoFuture(modules, e, m);
    assert id in InFlight(e.log) ==> Behind(e.futures, id);
    TracksAdd(e.futures, InFlight(e.log), e.next, id);
  }

  /** More log keeps what it says about a module whose submissions do not change. */
  lemma StateOkFrame(steps: seq<StepType>, s: ModuleState, m: nat, log: seq<Event>, event: Event)
    requires StateOk(steps, s, m, log)
    requires !(event.Submit? && event.id.0 == m)
    ensures StateOk(steps, s, m, log + [event])
  {
    SubmissionsSnoc(log, event, m);
    RaisedFrame(log, event);
  }

  lemma RaisedFrame(log: seq<Event>, event: Event)
    ensures HasRaised(log + [event]) <==> HasRaised(log) || event.Raise?
  {
    if HasRaised(log) {
      var i :| 0 <= i < |log| && log[i].Raise?;
      assert (log + [event])[i].Raise?;
    }
    if event.Raise? {
      assert (log + [event])[|log|].Raise?;
    }
  }

  lemma SubmitStates(modules: Modules, cap: nat, e: Engine, m: nat)
    requires StatesOk(modules, e) && m < |modules| && CanSubmit(modules, cap, e, m)
    ensures StatesOk(modules, Submitted(e, m))
  {
    var e' := Submitted(e, m);
    var event := Submit((m, e.states[m].stepIndex));
    forall n | 0 <= n < |modules| ensures StateOk(modules[n], e'.states[n], n, e'.log) {
      if n == m {
        SubmissionsSnoc(e.log, event, m);
      } else {
        StateOkFrame(modules[n], e.states[n], n, e.log, event);
      }
    }
  }

  lemma SubmitPrefixes(modules: Modules, cap: nat, e: Engine, m: nat, n: nat)
    requires StatesOk(modules, e) && m < |modules| && CanSubmit(modules, cap, e, m) && n < |modules|
    requires IsPrefix(Submissions(e.log, n), |modules[n]|)
    ensures IsPrefix(Submissions(Submitted(e, m).log, n), |modules[n]|)
  {
    SubmissionsSnoc(e.log, Submit((m, e.states[m].stepIndex)), n);
    assert StateOk(modules[m], e.states[m], m, e.log);
  }

  lemma SubmitJustified(modules: Modules, cap: nat, e: Engine, m: nat)
    requires FuturesOk(modules, cap, e) && Tracks(e.futures, InFlight(e.log))
    requires StatesOk(modules, e) && m < |modules| && CanSubmit(modules, cap, e, m) && !HasRaised(e.log)
    ensures Justified(Submitted(e, m).log, |e.log|)
  {
    var log := Submitted(e, m).log;
    assert log[..|e.log|] == e.log;
    IdleHasNoFuture(modules, e, m);
    assert (m, e.states[m].stepIndex) in InFlight(e.log) ==> Behind(e.futures, (m, e.states[m].stepIndex));
    assert StateOk(modules[m], e.states[m], m, e.log);
  }

  lemma SubmitKeepsInv(modules: Modules, cap: nat, e: Engine, m: nat)
    requires cap >= 1 && Inv(modules, cap, e) && !HasRaised(e.log)
    requires m < |modules| && CanSubmit(modules, cap, e, m)
    ensures Inv(modules, cap, Submitted(e, m))
  {
    var e' := Submitted(e, m);
    SubmitFutures(modules, cap, e, m);
    SubmitFlight(modules, cap, e, m);
    SubmitStates(modules, cap, e, m);
    FlightIsSafe(modules, cap, e');
    forall n | 0 <= n < |modules| ensures IsPrefix(Submissions(e'.log, n), |modules[n]|) {
      SubmitPrefixes(modules, cap, e, m, n);
    }
    SubmitJustified(modules, cap, e, m);
    SafeLogSnoc(modules, cap, e.log, Submit((m, e.states[m].stepIndex)));
  }

  lemma VisitKeepsInv(modules: Modules, cap: nat, e: Engine, m: nat)
    requires cap >= 1 && Inv(modules, cap, e) && !HasRaised(e.log) && m < |modules|
    ensures Inv(modules, cap, Visit(modules, cap, e, m))
  {
    if CanSubmit(modules, cap, e, m) {
      SubmitKeepsInv(modules, cap, e, m);
    } else {
      CompleteKeepsInv(modules, cap, e, m);
    }
  }

  lemma CompleteFutures(modules: Modules, cap: nat, e: Engine, m: nat)
    requires FuturesOk(modules, cap, e) && m < |modules| && !CanSubmit(modules, cap, e, m)
    ensures FuturesOk(modules, cap, Visit(modules, cap, e, m))
  {
    var e' := Visit(modules, cap, e, m);
    forall t | t in e'.futures ensures IsActive(e'.states, e'.futures[t]) {
      assert IsActive(e.states, e.futures[t]);
    }
  }

  lemma CompleteStates(modules: Modules, cap: nat, e: Engine, m: nat)
    requires StatesOk(modules, e) && m < |modules| && !CanSubmit(modules, cap, e, m)
    ensures StatesOk(modules, Visit(modules, cap, e, m))
  {
    var e' := Visit(modules, cap, e, m);
    assert StateOk(modules[m], e.states[m], m, e.log);
    assert StateOk(modules[m], e'.states[m], m, e.log);
  }

  /** A visit that submits nothing at most marks a module with no steps left as completed. */
  lemma CompleteKeepsInv(modules: Modules, cap: nat, e: Engine, m: nat)
    requires Inv(modules, cap, e) && m < |modules| && !CanSubmit(modules, cap, e, m)
    ensures Inv(modules, cap, Visit(modules, cap, e, m))
  {
    CompleteFutures(modules, cap, e, m);
    CompleteStates(modules, cap, e, m);
  }

  // ---------------------------------------------------------------------------------
  // Ending
  // ---------------------------------------------------------------------------------

  lemma WithoutSmaller(futures: map<nat, StepId>, t: nat)
    ensures |Without(futures, t)| <= |futures|
  {
    assert Without(futures, t).Keys == futures.Keys - {t};
    assert |Without(futures, t)| == |Without(futures, t).Keys| && |futures| == |futures.Keys|;
  }

  lemma EndFutures(modules: Modules, cap: nat, e: Engine, t: nat, outcome: Outcome)
    requires FuturesOk(modules, cap, e) && t in e.futures
    ensures FuturesOk(modules, cap, End(modules, e, t, outcome))
  {
    var e', id := End(modules, e, t, outcome), e.futures[t];
    assert IsActive(e.states, id);
    WithoutSmaller(e.futures, t);
    forall u | u in e'.futures
      ensures u < e'.next && InRange(modules, e'.futures[u]) && IsActive(e'.states, e'.futures[u])
    {
      assert IsActive(e.states, e.futures[u]);
    }
    forall n | 0 <= n < |e'.states| && e'.states[n].active ensures HasFuture(e'.futures, n) {
      assert HasFuture(e.futures, n);
      var u :| u in e.futures && e.futures[u].0 == n;
      assert u in e'.futures && e'.futures[u].0 == n;
    }
  }

  lemma EndFlight(modules: Modules, cap: nat, e: Engine, t: nat, outcome: Outcome)
    requires FuturesOk(modules, cap, e) && Tracks(e.futures, InFlight(e.log)) && t in e.futures
    ensures Tracks(End(modules, e, t, outcome).futures, InFlight(End(modules, e, t, outcome).log))
  {
    var e', id := End(modules, e, t, outcome), e.futures[t];
    assert IsActive(e.states, id);
    InFlightSnoc(e.log, e'.log[|e.log|]);
    TracksRemove(e.futures, InFlight(e.log), t);
  }

  lemma EndStates(modules: Modules, cap: nat, e: Engine, t: nat, outcome: Outcome)
    requires FuturesOk(modules, cap, e) && StatesOk(modules, e) && t in e.futures
    ensures StatesOk(modules, End(modules, e, t, outcome))
  {
    var e', id := End(modules, e, t, outcome), e.futures[t];
    var event := e'.log[|e.log|];
    assert IsActive(e.states, id);
    forall n | 0 <= n < |modules| ensures StateOk(modules[n], e'.states[n], n, e'.log) {
      if n == id.0 {
        EndState(modules[n], e.states[n], n, e.log, outcome);
      } else {
        StateOkFrame(modules[n], e.states[n], n, e.log, event);
      }
    }
  }

  lemma EndState(steps: seq<StepType>, s: ModuleState, m: nat, log: seq<Event>, outcome: Outcome)
    requires StateOk(steps, s, m, log) && s.active
    ensures match outcome
            case Raised => StateOk(steps, s.(status := Failed, active := false), m, log + [Raise((m, s.stepIndex))])
            case Returned(skipModule) =>
              StateOk(steps, Advanced(steps, s, skipModule), m, log + [Finish((m, s.stepIndex), skipModule)])
  {
    var event := match outcome
                 case Raised => Raise((m, s.stepIndex))
                 case Returned(skipModule) => Finish((m, s.stepIndex), skipModule);
    SubmissionsSnoc(log, event, m);
    RaisedFrame(log, event);
    assert event in log + [event];
  }

  lemma EndKeepsInv(modules: Modules, cap: nat, e: Engine, t: nat, outcome: Outcome)
    requires Inv(modules, cap, e) && t in e.futures
    ensures Inv(modules, cap, End(modules, e, t, outcome))
  {
    var e' := End(modules, e, t, outcome);
    var event := e'.log[|e.log|];
    EndFutures(modules, cap, e, t, outcome);
    EndFlight(modules, cap, e, t, outcome);
    EndStates(modules, cap, e, t, outcome);
    FlightIsSafe(modules, cap, e');
    forall n | 0 <= n < |modules| ensures IsPrefix(Submissions(e'.log, n), |modules[n]|) {
      SubmissionsSnoc(e.log, event, n);
    }
    assert e'.log[..|e.log|] == e.log;
    SafeLogSnoc(modules, cap, e.log, event);
  }

  // ---------------------------------------------------------------------------------
  // Every run
  // ---------------------------------------------------------------------------------

  /** What moves the engine: the pass visits a module, or a step in flight ends.  The order is free. */
  datatype Move = Look(m: nat) | Ends(t: nat, outcome: Outcome)

  ghost predicate Enabled(modules: Modules, e: Engine, move: Move) {
    && |e.states| == |e.statuses| == |modules|
    && !HasRaised(e.log)
    && match move
       case Look(m) => m < |modules|
       case Ends(t, _) => t in e.futures && e.futures[t].0 < |modules|
  }

  ghost function Moved(modules: Modules, cap: nat, e: Engine, move: Move): Engine
    requires Enabled(modules, e, move)
  {
    match move
    case Look(m) => Visit(modules, cap, e, m)
    case Ends(t, outcome) => End(modules, e, t, outcome)
  }

  /** A run: engine states from the initial one, each reached by an enabled move. */
  ghost predicate Run(modules: Modules, cap: nat, run: seq<Engine>) {
    && |run| > 0
    && run[0] == Init(modules)
    && forall i | 0 <= i < |run| - 1 :: Steps(modules, cap, run[i], run[i + 1])
  }

  ghost predicate Steps(modules: Modules, cap: nat, e: Engine, e': Engine) {
    exists move :: Enabled(modules, e, move) && e' == Moved(modules, cap, e, move)
  }

  lemma InitInv(modules: Modules, cap: nat)
    ensures Inv(modules, cap, Init(modules))
  {
    var e := Init(modules);
    assert e.log == [] && InFlight([]) == {};
    forall n | 0 <= n <= |e.log| ensures SafeTogether(modules, cap, InFlight(e.log[..n])) {
      assert e.log[..n] == [];
    }
  }

  /** In every reachable state, under any completion order, the whole log so far is safe. */
  lemma {:induction false} EveryRunIsSafe(modules: Modules, cap: nat, run: seq<Engine>, i: nat)
    requires cap >= 1 && Run(modules, cap, run) && i < |run|
    ensures Inv(modules, cap, run[i])
    ensures SafeLog(modules, cap, run[i].log)
  {
    if i == 0 {
      InitInv(modules, cap);
    } else {
      EveryRunIsSafe(modules, cap, run, i - 1);
      assert Steps(modules, cap, run[i - 1], run[i]);
      var move :| Enabled(modules, run[i - 1], move) && run[i] == Moved(modules, cap, run[i - 1], move);
      match move
      case Look(m) => VisitKeepsInv(modules, cap, run[i - 1], m);
      case Ends(t, outcome) => EndKeepsInv(modules, cap, run[i - 1], t, outcome);
    }
  }

  /** In a safe log a mutating step starts when nothing is in flight, and the next thing that happens
      is its own end: it runs alone. */
  lemma MutatingRunsAlone(modules: Modules, cap: nat, log: seq<Event>, i: nat)
    requires SafeLog(modules, cap, log) && i < |log|
    requires log[i].Submit? && Mutating(modules, log[i].id)
    ensures InFlight(log[..i]) == {}
    ensures i + 1 < |log| ==> !log[i + 1].Submit? && log[i + 1].id == log[i].id
  {
    var id := log[i].id;
    MomentAfter(log, i);
    assert Justified(log, i) && SafeTogether(modules, cap, InFlight(log[..i + 1]));
    assert forall other | other in InFlight(log[..i]) :: other in InFlight(log[..i + 1]);
    assert InFlight(log[..i + 1]) == {id};
    if i + 1 < |log| {
      MomentAfter(log, i + 1);
      assert Justified(log, i + 1) && SafeTogether(modules, cap, InFlight(log[..i + 2]));
    }
  }

  lemma MomentAfter(log: seq<Event>, i: nat)
    requires i < |log|
    ensures InFlight(log[..i + 1])
         == if log[i].Submit? then InFlight(log[..i]) + {log[i].id} else InFlight(log[..i]) - {log[i].id}
  {
    assert log[..i + 1] == log[..i] + [log[i]];
    InFlightSnoc(log[..i], log[i]);
  }

  // ---------------------------------------------------------------------------------
  // Progress
  // ---------------------------------------------------------------------------------

  /** The number of steps not yet behind a module, over the modules from `from` on. */
  ghost function Remaining(modules: Modules, states: seq<ModuleState>, from: nat): nat
    requires from <= |modules| == |states|
    decreases |modules| - from
  {
    if from == |modules| then 0
    else
      (if states[from].stepIndex <= |modules[from]| then |modules[from]| - states[from].stepIndex else 0)
      + Remaining(modules, states, from + 1)
  }

  /** Changing one module to a later step shrinks the count; keeping its step keeps it. */
  lemma {:induction false} RemainingUpdate(modules: Modules, states: seq<ModuleState>, m: nat, s: ModuleState,
                                           from: nat)
    requires from <= |modules| == |states| && m < |modules|
    requires s.stepIndex >= states[m].stepIndex
    ensures Remaining(modules, states[m := s], from) <= Remaining(modules, states, from)
    ensures s.stepIndex == states[m].stepIndex ==>
              Remaining(modules, states[m := s], from) == Remaining(modules, states, from)
    ensures from <= m && states[m].stepIndex < s.stepIndex <= |modules[m]| ==>
              Remaining(modules, states[m := s], from) < Remaining(modules, states, from)
    decreases |modules| - from
  {
    if from >= |modules| {
    } else {
      RemainingUpdate(modules, states, m, s, from + 1);
    }
  }

  /** A visit consumes no step. */
  lemma VisitRemaining(modules: Modules, cap: nat, e: Engine, m: nat)
    requires |e.states| == |e.statuses| == |modules| && m < |modules|
    ensures var e' := Visit(modules, cap, e, m);
            |e'.states| == |modules| && Remaining(modules, e'.states, 0) == Remaining(modules, e.states, 0)
  {
    RemainingUpdate(modules, e.states, m, Visit(modules, cap, e, m).states[m], 0);
    assert e.states[m := e.states[m]] == e.states;
  }

  /** A step that returns consumes at least one. */
  lemma EndRemaining(modules: Modules, cap: nat, e: Engine, t: nat, skip: bool)
    requires FuturesOk(modules, cap, e) && t in e.futures
    ensures var e' := End(modules, e, t, Returned(skip));
            |e'.states| == |modules| && Remaining(modules, e'.states, 0) < Remaining(modules, e.states, 0)
  {
    var m := e.futures[t].0;
    assert IsActive(e.states, e.futures[t]);
    RemainingUpdate(modules, e.states, m, Advanced(modules[m], e.states[m], skip), 0);
  }

  /** With nothing in flight after a visit there was nothing before, and the module is completed. */
  lemma IdleVisitCompletes(modules: Modules, cap: nat, e: Engine, m: nat)
    requires cap >= 1 && Inv(modules, cap, e) && !HasRaised(e.log) && m < |modules|
    requires Visit(modules, cap, e, m).futures == map[]
    ensures e.futures == map[]
    ensures Visit(modules, cap, e, m).states[m].status.Completed?
  {
    assert StateOk(modules[m], e.states[m], m, e.log);
    assert CanSubmit(modules, cap, e, m) ==> e.next in Submitted(e, m).futures;
    assert e.futures == map[];
    assert e.states[m].active ==> HasFuture(e.futures, m);
  }

  lemma VisitFrame(modules: Modules, cap: nat, e: Engine, m: nat)
    requires |e.states| == |e.statuses| == |modules| && m < |modules| && !HasRaised(e.log)
    ensures var e' := Visit(modules, cap, e, m);
            && |e'.states| == |modules|
            && !HasRaised(e'.log)
            && (forall i | 0 <= i < |modules| && i != m :: e'.states[i] == e.states[i])
  {
    RaisedFrame(e.log, Submit((m, e.states[m].stepIndex)));
  }

  /** Everything the pass relies on about one visit. */
  lemma VisitStep(modules: Modules, cap: nat, e: Engine, m: nat)
    requires cap >= 1 && Inv(modules, cap, e) && !HasRaised(e.log) && m < |modules|
    ensures var e' := Visit(modules, cap, e, m);
            && Inv(modules, cap, e') && !HasRaised(e'.log)
            && Remaining(modules, e'.states, 0) == Remaining(modules, e.states, 0)
            && (forall i | 0 <= i < |modules| && i != m :: e'.states[i] == e.states[i])
            && (e'.futures == map[] ==> e.futures == map[] && e'.states[m].status.Completed?)
  {
    VisitKeepsInv(modules, cap, e, m);
    VisitRemaining(modules, cap, e, m);
    VisitFrame(modules, cap, e, m);
    if Visit(modules, cap, e, m).futures == map[] {
      IdleVisitCompletes(modules, cap, e, m);
    }
  }

  /** A pass that has looked at the first m modules. */
  ghost predicate PassInv(modules: Modules, cap: nat, start: Engine, e: Engine, m: nat) {
    && m <= |modules| == |start.states|
    && Inv(modules, cap, e) && !HasRaised(e.log)
    && Remaining(modules, e.states, 0) == Remaining(modules, start.states, 0)
    && (e.futures == map[] ==> forall i | 0 <= i < m :: e.states[i].status.Completed?)
  }

  lemma PassStep(modules: Modules, cap: nat, start: Engine, e: Engine, m: nat)
    requires cap >= 1 && PassInv(modules, cap, start, e, m) && m < |modules|
    ensures PassInv(modules, cap, start, Visit(modules, cap, e, m), m + 1)
  {
    VisitStep(modules, cap, e, m);
  }

  /** What the collection of results relies on about one step that returned, besides the invariant. */
  lemma ReturnStep(modules: Modules, cap: nat, e: Engine, t: nat, skip: bool)
    requires FuturesOk(modules, cap, e) && !HasRaised(e.log) && t in e.futures
    ensures var e' := End(modules, e, t, Returned(skip));
            && !HasRaised(e'.log)
            && Remaining(modules, e'.states, 0) < Remaining(modules, e.states, 0)
            && e'.futures == Without(e.futures, t)
  {
    EndRemaining(modules, cap, e, t, skip);
    RaisedFrame(e.log, Finish(e.futures[t], skip));
  }

  /** What a log shows at the end of a run without a raised step. */
  ghost predicate AllRan(modules: Modules, log: seq<Event>) {
    && InFlight(log) == {}
    && forall m | 0 <= m < |modules| :: Ran(modules[m], m, log)
  }

  /** When every module is completed and nothing is in flight, every step of every module ran, except
      behind a step that asked to skip the rest. */
  lemma CompletedMeansRan(modules: Modules, cap: nat, e: Engine)
    requires Inv(modules, cap, e) && e.futures == map[]
    requires forall m | 0 <= m < |modules| :: e.states[m].status.Completed?
    ensures AllRan(modules, e.log)
    ensures forall m | 0 <= m < |modules| :: e.statuses[m] == Completed
  {
    assert forall id :: id in InFlight(e.log) ==> Behind(e.futures, id);
    assert InFlight(e.log) == {};
    forall m | 0 <= m < |modules| ensures Ran(modules[m], m, e.log) {
      assert StateOk(modules[m], e.states[m], m, e.log);
    }
  }

  /** A raised step is the last event of its log and the only one of its kind. */
  ghost predicate EndsWithRaise(log: seq<Event>, id: StepId) {
    && |log| > 0
    && log[|log| - 1] == Raise(id)
    && !HasRaised(log[..|log| - 1])
  }

  // ---------------------------------------------------------------------------------
  // The log and how the steps really ended
  // ---------------------------------------------------------------------------------

  /** The steps in the order they were submitted; the handle of a step is its index here. */
  ghost function SubmitOrder(log: seq<Event>): seq<StepId> {
    if log == [] then []
    else
      var before := SubmitOrder(log[..|log| - 1]);
      if log[|log| - 1].Submit? then before + [log[|log| - 1].id] else before
  }

  /** How the log has to record that the step ended so. */
  ghost function EndEvent(id: StepId, outcome: Outcome): Event {
    match outcome
    case Raised => Raise(id)
    case Returned(skipModule) => Finish(id, skipModule)
  }

  /** The end the log records for some submitted step is the end that step really had. */
  ghost predicate RealEnd(outcome: nat -> Outcome, order: seq<StepId>, event: Event) {
    exists t: nat | t < |order| :: event == EndEvent(order[t], outcome(t))
  }

  ghost predicate Truthful(outcome: nat -> Outcome, log: seq<Event>) {
    forall i | 0 <= i < |log| && !log[i].Submit? :: RealEnd(outcome, SubmitOrder(log), log[i])
  }

  /** Some step that was submitted raises. */
  ghost predicate SomeRaises(outcome: nat -> Outcome, log: seq<Event>) {
    exists t: nat | t < |SubmitOrder(log)| :: outcome(t).Raised?
  }

  /** The handles are those of the log, and a step that is no longer in flight ended as recorded. */
  ghost predicate Ledger(outcome: nat -> Outcome, e: Engine) {
    && |SubmitOrder(e.log)| == e.next
    && (forall t | t in e.futures :: t < e.next && SubmitOrder(e.log)[t] == e.futures[t])
    && (forall t: nat | t < e.next && t !in e.futures :: EndEvent(SubmitOrder(e.log)[t], outcome(t)) in e.log)
    && Truthful(outcome, e.log)
  }

  lemma SubmitOrderSnoc(log: seq<Event>, event: Event)
    ensures SubmitOrder(log + [event]) == if event.Submit? then SubmitOrder(log) + [event.id] else SubmitOrder(log)
  {
    assert (log + [event])[..|log|] == log;
  }

  lemma TruthfulSnoc(outcome: nat -> Outcome, log: seq<Event>, event: Event)
    requires Truthful(outcome, log)
    requires event.Submit? || RealEnd(outcome, SubmitOrder(log), event)
    ensures Truthful(outcome, log + [event])
  {
    SubmitOrderSnoc(log, event);
    var longer := log + [event];
    forall i | 0 <= i < |longer| && !longer[i].Submit? ensures RealEnd(outcome, SubmitOrder(longer), longer[i]) {
      if i < |log| {
        var t: nat :| t < |SubmitOrder(log)| && log[i] == EndEvent(SubmitOrder(log)[t], outcome(t));
        assert longer[i] == EndEvent(SubmitOrder(longer)[t], outcome(t));
      }
    }
  }

  lemma LedgerSubmit(outcome: nat -> Outcome, e: Engine, m: nat)
    requires Ledger(outcome, e) && m < |e.states|
    ensures Ledger(outcome, Submitted(e, m))
  {
    var event := Submit((m, e.states[m].stepIndex));
    SubmitOrderSnoc(e.log, event);
    TruthfulSnoc(outcome, e.log, event);
    forall t: nat | t < e.next && t !in e.futures
      ensures EndEvent(SubmitOrder(e.log + [event])[t], outcome(t)) in e.log + [event]
    {
      assert EndEvent(SubmitOrder(e.log)[t], outcome(t)) in e.log;
    }
  }

  lemma LedgerVisit(outcome: nat -> Outcome, modules: Modules, cap: nat, e: Engine, m: nat)
    requires m < |modules| == |e.states| == |e.statuses| && Ledger(outcome, e)
    ensures Ledger(outcome, Visit(modules, cap, e, m))
  {
    LedgerSubmit(outcome, e, m);
  }

  lemma LedgerEnd(outcome: nat -> Outcome, modules: Modules, e: Engine, t: nat)
    requires |e.states| == |e.statuses| == |modules| && t in e.futures && e.futures[t].0 < |modules|
    requires Ledger(outcome, e)
    ensures Ledger(outcome, End(modules, e, t, outcome(t)))
  {
    var event := EndEvent(e.futures[t], outcome(t));
    SubmitOrderSnoc(e.log, event);
    assert event == EndEvent(SubmitOrder(e.log)[t], outcome(t));
    TruthfulSnoc(outcome, e.log, event);
    assert End(modules, e, t, outcome(t)).log == e.log + [event];
    forall u: nat | u < e.next && u !in Without(e.futures, t)
      ensures EndEvent(SubmitOrder(e.log)[u], outcome(u)) in e.log + [event]
    {
      if u != t {
        assert EndEvent(SubmitOrder(e.log)[u], outcome(u)) in e.log;
      } else {
        assert (e.log + [event])[|e.log|] == event;
      }
    }
  }

  /** With nothing left in flight and no raise recorded no submitted step raises; a recorded raise is the
      raise of a submitted step. */
  lemma RaisesAreRecorded(outcome: nat -> Outcome, e: Engine)
    requires Ledger(outcome, e)
    ensures HasRaised(e.log) ==> SomeRaises(outcome, e.log)
    ensures e.futures == map[] && SomeRaises(outcome, e.log) ==> HasRaised(e.log)
  {
    var order := SubmitOrder(e.log);
    if HasRaised(e.log) {
      var i :| 0 <= i < |e.log| && e.log[i].Raise?;
      assert RealEnd(outcome, order, e.log[i]);
    }
    if e.futures == map[] && SomeRaises(outcome, e.log) {
      var t: nat :| t < |order| && outcome(t).Raised?;
      assert EndEvent(order[t], outcome(t)) in e.log;
    }
  }

  /** Every submission in a safe log is of a step there is. */
  lemma SubmissionsInRange(modules: Modules, cap: nat, log: seq<Event>, i: nat)
    requires AlwaysTogether(modules, cap, log) && i < |log| && log[i].Submit?
    ensures InRange(modules, log[i].id)
  {
    assert log[..i + 1] == log[..i] + [log[i]];
    InFlightSnoc(log[..i], log[i]);
    assert SafeTogether(modules, cap, InFlight(log[..i + 1]));
  }

  /** The submissions of every module, in range or not, are numbered 0, 1, 2, .. */
  ghost predicate Numbered(log: seq<Event>) {
    forall m: nat :: IsPrefix(Submissions(log, m), |Submissions(log, m)|)
  }

  lemma {:induction false} SubmissionsOf(log: seq<Event>, m: nat)
    ensures Submissions(log, m) != [] ==> exists i | 0 <= i < |log| :: log[i].Submit? && log[i].id.0 == m
  {
    if log == [] {
    } else {
      var before := log[..|log| - 1];
      SubmissionsOf(before, m);
      if Submissions(before, m) != [] {
        var i :| 0 <= i < |before| && before[i].Submit? && before[i].id.0 == m;
        assert log[i] == before[i];
      }
    }
  }

  lemma {:induction false} OrderInSubmissions(log: seq<Event>, t: nat)
    requires t < |SubmitOrder(log)|
    ensures SubmitOrder(log)[t].1 in Submissions(log, SubmitOrder(log)[t].0)
  {
    var before := log[..|log| - 1];
    if t < |SubmitOrder(before)| {
      OrderInSubmissions(before, t);
    } else {
      var event := log[|log| - 1];
      assert Submissions(log, event.id.0) == Submissions(before, event.id.0) + [event.id.1];
    }
  }

  lemma {:induction false} OrderDistinct(log: seq<Event>, i: nat, j: nat)
    requires Numbered(log) && i < j < |SubmitOrder(log)|
    ensures SubmitOrder(log)[i] != SubmitOrder(log)[j]
  {
    var before, event := log[..|log| - 1], log[|log| - 1];
    forall m: nat ensures IsPrefix(Submissions(before, m), |Submissions(before, m)|) {
      assert Submissions(before, m) <= Submissions(log, m);
      assert IsPrefix(Submissions(log, m), |Submissions(log, m)|);
    }
    if j < |SubmitOrder(before)| {
      OrderDistinct(before, i, j);
    } else {
      var s := Submissions(before, event.id.0);
      OrderInSubmissions(before, i);
      assert Submissions(log, event.id.0) == s + [event.id.1];
      assert IsPrefix(s + [event.id.1], |s| + 1) && IsPrefix(s, |s|);
      assert (s + [event.id.1])[|s|] == |s|;
      assert SubmitOrder(log)[i] == SubmitOrder(before)[i];
      assert forall n | n in s :: n < |s|;
    }
  }

  /** In a safe log each step is submitted at most once, so its recorded end is the end of that one
      submission. */
  lemma SubmittedOnce(modules: Modules, cap: nat, log: seq<Event>, i: nat, j: nat)
    requires SafeLog(modules, cap, log) && i < j < |SubmitOrder(log)|
    ensures SubmitOrder(log)[i] != SubmitOrder(log)[j]
  {
    forall m: nat ensures IsPrefix(Submissions(log, m), |Submissions(log, m)|) {
      SubmissionsOf(log, m);
      if Submissions(log, m) != [] {
        var k :| 0 <= k < |log| && log[k].Submit? && log[k].id.0 == m;
        SubmissionsInRange(modules, cap, log, k);
        assert IsPrefix(Submissions(log, m), |modules[m]|);
      }
    }
    OrderDistinct(log, i, j);
  }

  lemma {:induction false} SubmitOrderPrefix(log: seq<Event>, n: nat)
    requires n <= |log|
    ensures SubmitOrder(log[..n]) <= SubmitOrder(log)
  {
    if n == |log| {
      assert log[..n] == log;
    } else {
      var before := log[..|log| - 1];
      SubmitOrderPrefix(before, n);
      assert before[..n] == log[..n];
    }
  }

  /** A run that finished has submitted something, if there was anything to submit. */
  lemma AllRanSubmits(outcome: nat -> Outcome, modules: Modules, log: seq<Event>, m: nat)
    requires AllRan(modules, log) && Truthful(outcome, log) && m < |modules| && modules[m] != []
    ensures SubmitOrder(log) != []
  {
    assert Ran(modules[m], m, log);
    assert Finish((m, 0), false) in log || exists k: nat :: Finish((m, k), true) in log;
    var k, skip :| Finish((m, k), skip) in log;
    var i :| 0 <= i < |log| && log[i] == Finish((m, k), skip);
    assert RealEnd(outcome, SubmitOrder(log), log[i]);
  }
}
