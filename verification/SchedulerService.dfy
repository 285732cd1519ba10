/** No step waits without a reason (src/ai_push_hooks/engine.py, the scheduling pass): what a pass over the
    modules leaves behind, told from the module states and the steps in flight alone. */
module SchedulerService {

  import opened Scheduler

  /** The module has a step to run and none running. */
  ghost predicate Idle(modules: Modules, states: seq<ModuleState>, m: nat)
    requires m < |modules| == |states|
  {
    && !states[m].active
    && states[m].status != Completed && states[m].status != Failed
    && states[m].stepIndex < |modules[m]|
  }

  ghost predicate Reads(modules: Modules, id: StepId) {
    && id.0 < |modules| && id.1 < |modules[id.0]|
    && (modules[id.0][id.1] == Collect || modules[id.0][id.1] == Ask)
  }

  ghost predicate Changes(modules: Modules, id: StepId) {
    && id.0 < |modules| && id.1 < |modules[id.0]|
    && modules[id.0][id.1] != Collect && modules[id.0][id.1] != Ask
  }

  /** A mutating step is in flight, or as many steps as may be. */
  ghost predicate Occupied(modules: Modules, cap: nat, futures: map<nat, StepId>) {
    || |futures| == cap
    || exists t :: t in futures && Changes(modules, futures[t])
  }

  /** Nothing more can be started: otherwise no idle module has a read-only next step, and if nothing is in
      flight no module is idle at all. */
  ghost predicate Busy(modules: Modules, cap: nat, states: seq<ModuleState>, futures: map<nat, StepId>) {
    && |states| == |modules|
    && (Occupied(modules, cap, futures)
        || forall m: nat | m < |modules| && Idle(modules, states, m) :: !Reads(modules, (m, states[m].stepIndex)))
    && (futures == map[] ==> forall m: nat | m < |modules| :: !Idle(modules, states, m))
  }

  lemma MutatingChanges(modules: Modules, futures: map<nat, StepId>)
    ensures MutatingInFlight(modules, futures) <==> exists t :: t in futures && Changes(modules, futures[t])
  {
    if MutatingInFlight(modules, futures) {
      var t :| t in futures && Mutating(modules, futures[t]);
      assert Changes(modules, futures[t]);
    }
    if t :| t in futures && Changes(modules, futures[t]) {
      assert Mutating(modules, futures[t]);
    }
  }

  /** The module can start its next step: a read-only one while there is room and no mutating one is in flight,
      a mutating one while nothing is. */
  ghost predicate Startable(modules: Modules, cap: nat, states: seq<ModuleState>, futures: map<nat, StepId>, m: nat)
    requires m < |modules| == |states|
  {
    && Idle(modules, states, m)
    && if Reads(modules, (m, states[m].stepIndex)) then
         |futures| < cap && forall t | t in futures :: !Changes(modules, futures[t])
       else futures == map[]
  }

  /** A visit starts the step exactly then. */
  lemma VisitStarts(modules: Modules, cap: nat, e: Engine, m: nat)
    requires cap >= 1 && |modules| == |e.states| == |e.statuses| && m < |modules|
    ensures Visit(modules, cap, e, m).log == e.log +
              if Startable(modules, cap, e.states, e.futures, m) then [Submit((m, e.states[m].stepIndex))] else []
  {
    MutatingChanges(modules, e.futures);
    assert Startable(modules, cap, e.states, e.futures, m) <==>
             CanSubmit(modules, cap, e, m) && !e.states[m].status.Completed? && !e.states[m].status.Failed?;
  }

  /** Of the modules looked at, none that could start a step was passed over. */
  ghost predicate Attended(modules: Modules, cap: nat, e: Engine, m: nat)
    requires |e.states| == |modules|
  {
    Occupied(modules, cap, e.futures)
    || forall k: nat | k < m && k < |modules| && Idle(modules, e.states, k) ::
         e.futures != map[] && !Reads(modules, (k, e.states[k].stepIndex))
  }

  /** All that is needed here of the invariant of a run. */
  ghost predicate Sound(modules: Modules, cap: nat, e: Engine) {
    && |e.states| == |e.statuses| == |modules|
    && e.next !in e.futures
    && |e.futures| <= cap
  }

  lemma InvIsSound(modules: Modules, cap: nat, e: Engine)
    requires FuturesOk(modules, cap, e)
    ensures Sound(modules, cap, e)
  {
  }

  /** A visit only adds to what is in flight. */
  lemma VisitAdds(modules: Modules, cap: nat, e: Engine, m: nat)
    requires Sound(modules, cap, e) && m < |modules|
    ensures var e' := Visit(modules, cap, e, m);
            && (forall t | t in e.futures :: t in e'.futures && e'.futures[t] == e.futures[t])
            && (e'.futures == e.futures || |e'.futures| == |e.futures| + 1)
            && (forall i | 0 <= i < |modules| && i != m :: e'.states[i] == e.states[i])
            && |e'.states| == |modules|
  {
  }

  lemma OccupiedStays(modules: Modules, cap: nat, e: Engine, m: nat)
    requires Sound(modules, cap, e) && m < |modules| && Occupied(modules, cap, e.futures)
    requires Sound(modules, cap, Visit(modules, cap, e, m))
    ensures Occupied(modules, cap, Visit(modules, cap, e, m).futures)
  {
    VisitAdds(modules, cap, e, m);
  }

  /** The visited module starts its step unless something stands in the way. */
  lemma VisitAttends(modules: Modules, cap: nat, e: Engine, m: nat)
    requires cap >= 1 && Sound(modules, cap, e) && m < |modules|
    ensures var e' := Visit(modules, cap, e, m);
            |e'.states| == |modules| && Idle(modules, e'.states, m) ==>
              Occupied(modules, cap, e.futures) ||
              (e.futures != map[] && !Reads(modules, (m, e'.states[m].stepIndex)))
  {
    MutatingChanges(modules, e.futures);
  }

  lemma AttendedStep(modules: Modules, cap: nat, e: Engine, m: nat)
    requires cap >= 1 && m < |modules| && Sound(modules, cap, e) && Sound(modules, cap, Visit(modules, cap, e, m))
    requires Attended(modules, cap, e, m)
    ensures |Visit(modules, cap, e, m).states| == |modules|
    ensures Attended(modules, cap, Visit(modules, cap, e, m), m + 1)
  {
    VisitAdds(modules, cap, e, m);
    VisitAttends(modules, cap, e, m);
    if Occupied(modules, cap, e.futures) {
      OccupiedStays(modules, cap, e, m);
    }
  }

  // ---------------------------------------------------------------------------------
  // The first idle module
  // ---------------------------------------------------------------------------------

  ghost predicate NoneIdle(modules: Modules, states: seq<ModuleState>, m: nat)
    requires m <= |modules| == |states|
  {
    forall k: nat | k < m :: !Idle(modules, states, k)
  }

  /** The pass from `start` has submitted the step of module k first, and k was the first idle one. */
  ghost predicate ServedFirst(modules: Modules, start: Engine, e: Engine, k: nat)
    requires k < |modules| == |start.states|
  {
    && Idle(modules, start.states, k) && NoneIdle(modules, start.states, k)
    && start.log + [Submit((k, start.states[k].stepIndex))] <= e.log
  }

  /** A pass that started with nothing in flight has looked at m modules. */
  ghost predicate Serves(modules: Modules, start: Engine, e: Engine, m: nat) {
    && m <= |modules| == |start.states| == |e.states|
    && (forall k | m <= k < |modules| :: e.states[k] == start.states[k])
    && (start.futures == map[] && NoneIdle(modules, start.states, m) ==> e.log == start.log && e.futures == map[])
    && (start.futures == map[] && !NoneIdle(modules, start.states, m) ==>
          exists k: nat | k < m :: ServedFirst(modules, start, e, k))
  }

  lemma VisitLog(modules: Modules, cap: nat, e: Engine, m: nat)
    requires cap >= 1 && |modules| == |e.states| == |e.statuses| && m < |modules|
    ensures var e' := Visit(modules, cap, e, m);
            && e.log <= e'.log
            && (forall n | |e.log| <= n < |e'.log| :: e'.log[n].Submit?)
            && (!Idle(modules, e.states, m) ==> e'.log == e.log && e'.futures == e.futures)
            && (Idle(modules, e.states, m) && e.futures == map[] ==>
                  e'.log == e.log + [Submit((m, e.states[m].stepIndex))])
  {
  }

  lemma ServesStep(modules: Modules, cap: nat, start: Engine, e: Engine, m: nat)
    requires cap >= 1 && Sound(modules, cap, e) && m < |modules| && Serves(modules, start, e, m)
    ensures Serves(modules, start, Visit(modules, cap, e, m), m + 1)
  {
    var e' := Visit(modules, cap, e, m);
    VisitAdds(modules, cap, e, m);
    VisitLog(modules, cap, e, m);
    if NoneIdle(modules, start.states, m + 1) {
      assert !Idle(modules, start.states, m) && NoneIdle(modules, start.states, m);
    } else if start.futures == map[] {
      if NoneIdle(modules, start.states, m) {
        assert ServedFirst(modules, start, e', m);
      } else {
        var k: nat :| k < m && ServedFirst(modules, start, e, k);
        assert ServedFirst(modules, start, e', k);
      }
    }
  }

  // ---------------------------------------------------------------------------------
  // The pass
  // ---------------------------------------------------------------------------------

  /** The log has gone on with submissions only, or with ends only. */
  ghost predicate OnlySubmits(before: seq<Event>, after: seq<Event>) {
    before <= after && forall n | |before| <= n < |after| :: after[n].Submit?
  }

  ghost predicate OnlyEnds(before: seq<Event>, after: seq<Event>) {
    before <= after && forall n | |before| <= n < |after| :: !after[n].Submit?
  }

  ghost predicate Attends(modules: Modules, cap: nat, start: Engine, e: Engine, m: nat) {
    && |e.states| == |modules|
    && Attended(modules, cap, e, m)
    && Serves(modules, start, e, m)
    && OnlySubmits(start.log, e.log)
  }

  lemma AttendsStart(modules: Modules, cap: nat, start: Engine)
    requires |start.states| == |modules|
    ensures Attends(modules, cap, start, start, 0)
  {
  }

  lemma AttendsStep(modules: Modules, cap: nat, start: Engine, e: Engine, m: nat)
    requires cap >= 1 && m < |modules| && FuturesOk(modules, cap, e)
    requires FuturesOk(modules, cap, Visit(modules, cap, e, m))
    requires Attends(modules, cap, start, e, m)
    ensures Attends(modules, cap, start, Visit(modules, cap, e, m), m + 1)
  {
    InvIsSound(modules, cap, e);
    InvIsSound(modules, cap, Visit(modules, cap, e, m));
    AttendedStep(modules, cap, e, m);
    ServesStep(modules, cap, start, e, m);
    VisitLog(modules, cap, e, m);
  }

  /** With nothing in flight and some module idle, the first idle module has been served first. */
  ghost predicate ServesIdle(modules: Modules, start: Engine, e: Engine)
    requires |modules| == |start.states|
  {
    start.futures == map[] && !NoneIdle(modules, start.states, |modules|) ==>
      exists k: nat | k < |modules| :: ServedFirst(modules, start, e, k)
  }

  // What the loops rely on about one visit and one end, all at once.

  ghost predicate Passing(modules: Modules, cap: nat, outcome: nat -> Outcome, start: Engine, e: Engine, m: nat) {
    && PassInv(modules, cap, start, e, m)
    && Ledger(outcome, e)
    && Attends(modules, cap, start, e, m)
  }

  lemma PassingStep(modules: Modules, cap: nat, outcome: nat -> Outcome, start: Engine, e: Engine, m: nat)
    requires cap >= 1 && m < |modules| && Passing(modules, cap, outcome, start, e, m)
    ensures Passing(modules, cap, outcome, start, Visit(modules, cap, e, m), m + 1)
  {
    PassStep(modules, cap, start, e, m);
    LedgerVisit(outcome, modules, cap, e, m);
    AttendsStep(modules, cap, start, e, m);
  }

  lemma EndLog(modules: Modules, e: Engine, t: nat, outcome: Outcome)
    requires |e.states| == |e.statuses| == |modules| && t in e.futures && e.futures[t].0 < |modules|
    ensures var log := End(modules, e, t, outcome).log;
            OnlyEnds(e.log, log) && (outcome.Raised? && !HasRaised(e.log) ==> EndsWithRaise(log, e.futures[t]))
  {
    assert (e.log + [Raise(e.futures[t])])[..|e.log|] == e.log;
  }

  lemma OnlyEndsOn(before: seq<Event>, log: seq<Event>, after: seq<Event>)
    requires OnlyEnds(before, log) && OnlyEnds(log, after)
    ensures OnlyEnds(before, after)
  {
  }

  /** A pass ends at the last module, or with a mutating step in flight. */
  lemma PassDone(modules: Modules, cap: nat, start: Engine, e: Engine, m: nat)
    requires cap >= 1 && Attends(modules, cap, start, e, m)
    requires m == |modules| || MutatingInFlight(modules, e.futures)
    ensures Busy(modules, cap, e.states, e.futures) && ServesIdle(modules, start, e) && OnlySubmits(start.log, e.log)
  {
    MutatingChanges(modules, e.futures);
    if start.futures == map[] && !NoneIdle(modules, start.states, |modules|) {
      assert !NoneIdle(modules, start.states, m);
      var k: nat :| k < m && ServedFirst(modules, start, e, k);
    }
  }

  // ---------------------------------------------------------------------------------
  // The moments at which the loop waits
  // ---------------------------------------------------------------------------------

  /** The moments at which the run waited: each a state of the run, something in flight, and nothing left
      that could have been started. */
  ghost predicate AllBusy(modules: Modules, cap: nat, waits: seq<Engine>) {
    waits == [] ||
    var last := |waits| - 1;
    && AllBusy(modules, cap, waits[..last])
    && Inv(modules, cap, waits[last])
    && waits[last].futures != map[]
    && Busy(modules, cap, waits[last].states, waits[last].futures)
  }

  lemma AllBusySnoc(modules: Modules, cap: nat, waits: seq<Engine>, e: Engine)
    requires AllBusy(modules, cap, waits) && Inv(modules, cap, e)
    requires e.futures != map[] && Busy(modules, cap, e.states, e.futures)
    ensures AllBusy(modules, cap, waits + [e])
  {
    assert (waits + [e])[..|waits|] == waits;
  }

  /** Every moment is one of this log, and every end is read after one, with no submission in between. */
  ghost predicate EndsAfterWaits(log: seq<Event>, waits: seq<Engine>) {
    && (forall i | 0 <= i < |waits| :: waits[i].log <= log)
    && (forall n | 0 <= n < |log| && !log[n].Submit? :: EndAfterWait(log, waits, n))
  }

  ghost predicate EndAfterWait(log: seq<Event>, waits: seq<Engine>, n: nat)
    requires n < |log|
  {
    exists i: nat | i < |waits| :: EndsFrom(log, |waits[i].log|, n)
  }

  ghost predicate EndsFrom(log: seq<Event>, from: nat, n: nat)
    requires n < |log|
  {
    from <= n && forall k | from <= k <= n :: !log[k].Submit?
  }

  lemma SubmitsAfterEnds(log: seq<Event>, waits: seq<Engine>, after: seq<Event>)
    requires EndsAfterWaits(log, waits) && OnlySubmits(log, after)
    ensures EndsAfterWaits(after, waits)
  {
    forall n | 0 <= n < |after| && !after[n].Submit? ensures EndAfterWait(after, waits, n) {
      assert EndAfterWait(log, waits, n);
      var i: nat :| i < |waits| && EndsFrom(log, |waits[i].log|, n);
      assert EndsFrom(after, |waits[i].log|, n);
    }
    forall i | 0 <= i < |waits| ensures waits[i].log <= after {
      assert waits[i].log <= log;
    }
  }

  /** A round: submissions, a wait, ends. */
  lemma NextWait(log: seq<Event>, waits: seq<Engine>, e: Engine, after: seq<Event>)
    requires EndsAfterWaits(log, waits) && OnlySubmits(log, e.log) && OnlyEnds(e.log, after)
    ensures EndsAfterWaits(after, waits + [e])
  {
    var more := waits + [e];
    forall n | 0 <= n < |after| && !after[n].Submit? ensures EndAfterWait(after, more, n) {
      if n < |log| {
        EarlierEnd(log, waits, e, after, n);
      } else {
        assert more[|waits|] == e && EndsFrom(after, |e.log|, n);
      }
    }
    forall i | 0 <= i < |more| ensures more[i].log <= after {
      assert i < |waits| ==> waits[i].log <= log <= e.log <= after;
    }
  }

  lemma EarlierEnd(log: seq<Event>, waits: seq<Engine>, e: Engine, after: seq<Event>, n: nat)
    requires n < |log| && EndAfterWait(log, waits, n) && log <= after
    ensures EndAfterWait(after, waits + [e], n)
  {
    var i: nat :| i < |waits| && EndsFrom(log, |waits[i].log|, n);
    assert (waits + [e])[i] == waits[i] && EndsFrom(after, |waits[i].log|, n);
  }
}
