/** The verdict of the pre-push hook (src/ai_push_hooks/hook.py, `_run_hook_impl` and `run_hook`) and the
    commits deferred until every check has passed (src/ai_push_hooks/executors/autocommit.py,
    `register_pending_auto_commit`, `finalize_pending_auto_commits`, `run_auto_commit`). */
module HookVerdict {

  import opened Options
  import opened Scheduler
  import opened SchedulerEngine

  // ---------------------------------------------------------------------------------
  // Deferred commits
  // ---------------------------------------------------------------------------------

  /** What an apply step registered: the files it propagated, those of them that were dirty before, and
      whether to push. */
  datatype Deferred = Deferred(step: StepId, changedFiles: seq<string>, preexistingDirty: seq<string>, autoPush: bool)

  datatype PushEnd = PushRaises | PushFails | PushSucceeds

  /** How Git answers for one record: whether the commit is made, whether its name can be read back,
      whether there is a branch to push to, and how the push ends. */
  datatype Git = Git(commits: bool, namesHead: bool, hasTarget: bool, push: PushEnd)

  datatype CommitOutcome = NotNeeded | Blocked | Committed(pushed: bool)

  /** Files were changed, none of them was dirty before, and Git accepts: the commit is made. */
  ghost predicate CommitsOn(record: Deferred, git: Git) {
    record.changedFiles != [] && record.preexistingDirty == [] && git.commits
  }

  /** A commit that is refused, cannot be named, or is to be pushed where there is no target or with a push
      that raises. */
  ghost predicate RaisesOn(record: Deferred, git: Git) {
    && record.changedFiles != [] && record.preexistingDirty == []
    && (!git.commits || !git.namesHead || (record.autoPush && (!git.hasTarget || git.push == PushRaises)))
  }

  /** What a record comes to when it does not raise. */
  ghost predicate ComesTo(record: Deferred, git: Git, outcome: CommitOutcome) {
    match outcome
    case NotNeeded => record.changedFiles == []
    case Blocked => record.changedFiles != [] && record.preexistingDirty != []
    case Committed(pushed) =>
      && record.changedFiles != [] && record.preexistingDirty == []
      && (pushed <==> record.autoPush && git.push == PushSucceeds)
  }

  /** How many records are worked on: up to the first that raises, that one included. */
  ghost function Reached(records: seq<Deferred>, git: nat -> Git, n: nat): (k: nat)
    requires n <= |records|
    ensures n <= k <= |records|
    decreases |records| - n
  {
    if n == |records| then n
    else if RaisesOn(records[n], git(n)) then n + 1
    else Reached(records, git, n + 1)
  }

  ghost predicate Raises(records: seq<Deferred>, git: nat -> Git) {
    exists i | 0 <= i < |records| :: RaisesOn(records[i], git(i))
  }

  ghost predicate CommitsAt(records: seq<Deferred>, git: nat -> Git, i: nat)
    requires i < |records|
  {
    CommitsOn(records[i], git(i))
  }

  /** The commits made for the first n records, in order. */
  ghost function CommitsOf(records: seq<Deferred>, git: nat -> Git, n: nat): seq<StepId>
    requires n <= |records|
  {
    if n == 0 then []
    else CommitsOf(records, git, n - 1) + if CommitsAt(records, git, n - 1) then [records[n - 1].step] else []
  }

  /** The commits made before finalization ends or raises. */
  ghost function AllCommits(records: seq<Deferred>, git: nat -> Git): seq<StepId> {
    CommitsOf(records, git, Reached(records, git, 0))
  }

  lemma {:induction false} ReachedMeans(records: seq<Deferred>, git: nat -> Git, n: nat)
    requires n <= |records| && forall i | 0 <= i < n :: !RaisesOn(records[i], git(i))
    ensures var k := Reached(records, git, n);
            && (forall i | 0 <= i < k - 1 :: !RaisesOn(records[i], git(i)))
            && (!Raises(records, git) ==> k == |records|)
            && (Raises(records, git) ==> k > 0 && RaisesOn(records[k - 1], git(k - 1)))
    decreases |records| - n
  {
    if n == |records| || RaisesOn(records[n], git(n)) {
    } else {
      ReachedMeans(records, git, n + 1);
    }
  }

  /** What is committed was a record. */
  lemma {:induction false} SomeCommits(records: seq<Deferred>, git: nat -> Git, n: nat) returns (i: nat)
    requires n <= |records| && CommitsOf(records, git, n) != []
    ensures i < n && CommitsAt(records, git, i)
  {
    if n > 0 && CommitsAt(records, git, n - 1) {
      i := n - 1;
    } else {
      i := SomeCommits(records, git, n - 1);
    }
  }

  class RuntimeContext {
    var pending: seq<Deferred>
    var commits: seq<StepId>

    constructor ()
      ensures pending == [] && commits == []
    {
      pending, commits := [], [];
    }

    method Register(record: Deferred)
      modifies this`pending
      ensures pending == old(pending) + [record]
    {
      pending := pending + [record];
    }

    /** Commits one record.  It may raise after the commit was made. */
    method RunAutoCommit(record: Deferred, git: Git) returns (r: Result<CommitOutcome, ()>)
      modifies this`commits
      ensures commits == old(commits) + if CommitsOn(record, git) then [record.step] else []
      ensures r.Err? <==> RaisesOn(record, git)
      ensures r.Ok? ==> ComesTo(record, git, r.value)
    {
      if record.changedFiles == [] {
        return Ok(NotNeeded);
      }
      if record.preexistingDirty != [] {
        return Ok(Blocked);
      }
      if !git.commits {
        return Err(());
      }
      commits := commits + [record.step];
      if !git.namesHead {
        return Err(());
      }
      if !record.autoPush {
        return Ok(Committed(false));
      }
      if !git.hasTarget || git.push.PushRaises? {
        return Err(());
      }
      r := Ok(Committed(git.push.PushSucceeds?));
    }

    /** Commits everything registered, in order, up to the first record that raises. */
    method FinalizePendingAutoCommits(git: nat -> Git) returns (r: Result<seq<CommitOutcome>, ()>)
      modifies this
      ensures commits == old(commits) + AllCommits(old(pending), git)
      ensures r.Ok? <==> !Raises(old(pending), git)
      ensures r.Ok? ==> pending == [] && |r.value| == |old(pending)|
      ensures r.Ok? ==> forall i | 0 <= i < |r.value| :: ComesTo(old(pending)[i], git(i), r.value[i])
      ensures r.Err? ==> pending == old(pending)
    {
      var records, outcomes := pending, [];
      ghost var before := commits;
      var n := 0;
      while n < |records|
        invariant 0 <= n <= |records| && pending == records && |outcomes| == n
        invariant forall i | 0 <= i < n :: ComesTo(records[i], git(i), outcomes[i]) && !RaisesOn(records[i], git(i))
        invariant commits == before + CommitsOf(records, git, n)
        invariant Reached(records, git, 0) == Reached(records, git, n)
      {
        var outcome := RunAutoCommit(records[n], git(n));
        assert commits == before + CommitsOf(records, git, n + 1);
        if outcome.Err? {
          return Err(());
        }
        outcomes := outcomes + [outcome.value];
        n := n + 1;
      }
      pending := [];
      r := Ok(outcomes);
    }
  }

  // ---------------------------------------------------------------------------------
  // The verdict
  // ---------------------------------------------------------------------------------

  /** How far a run gets before its first step.  Failing to prepare the directory of its artifacts raises
      inside the handler of the run, any other failure outside of it. */
  datatype Setup = SetupRaises | Disabled | SyncBranch | PrepareRaises | Ready

  /** The switches around a run.  `allowed` is the setting the run loaded, `allowedByEnv` the
      environment variable, `allowedAgain` the setting when it is loaded once more after a failure. */
  datatype Switches = Switches(skipped: bool, allowed: bool, allowedByEnv: Option<bool>, allowedAgain: Option<bool>)

  ghost predicate Started(setup: Setup) {
    setup.PrepareRaises? || setup.Ready?
  }

  /** What the last handler decides. */
  ghost predicate LetThrough(switches: Switches) {
    switches.allowedByEnv == Some(true) || (switches.allowedByEnv == None && switches.allowedAgain == Some(true))
  }

  ghost predicate FailOpen(switches: Switches) {
    switches.allowed || LetThrough(switches)
  }

  /** `Allowed` is the exit code 0; the other two are exceptions. */
  datatype Verdict = Allowed | Superseded | Refused

  /** What one run did: how its setup went, the log of its workflow, the records registered, and the
      commits made. */
  datatype Report = Report(setup: Setup, log: seq<Event>, pending: seq<Deferred>, commits: seq<StepId>)

  /** What the steps that finished registered, in that order. */
  ghost function Registered(log: seq<Event>, registers: StepId -> Option<Deferred>): seq<Deferred> {
    if log == [] then []
    else
      var event := log[|log| - 1];
      var before := Registered(log[..|log| - 1], registers);
      if event.Finish? && registers(event.id).Some? then before + [registers(event.id).value] else before
  }

  /** Everything a run cannot choose. */
  datatype World = World(env: Environment, registers: StepId -> Option<Deferred>, git: nat -> Git, summaryRaises: bool)

  /** Finalization and the summary come back without an exception. */
  ghost predicate ReturnsWell(world: World, report: Report) {
    !Raises(report.pending, world.git) && !world.summaryRaises
  }

  /** Some step changed files.  When finalization returns they have been committed, or could not be since
      some of them were dirty before. */
  ghost predicate MakesStale(report: Report) {
    exists i | 0 <= i < |report.pending| :: report.pending[i].changedFiles != []
  }

  /** The workflow ran and no step that was submitted raised. */
  ghost predicate Passed(world: World, report: Report) {
    report.setup.Ready? && !SomeRaises(world.env.outcome, report.log)
  }

  /** What a report says of the workflow is what happened: the log is safe, records of every submitted step
      the end it really had, and, unless one raised, shows that every step of every module ran.  The
      records are those registered by the steps that finished. */
  ghost predicate Faithful(modules: Modules, maxParallel: int, world: World, report: Report) {
    if !report.setup.Ready? then report.log == [] && report.pending == []
    else
      && RealLog(modules, maxParallel, world, report.log)
      && report.pending == Registered(report.log, world.registers)
  }

  ghost predicate RealLog(modules: Modules, maxParallel: int, world: World, log: seq<Event>) {
    && SafeLog(modules, if maxParallel < 1 then 1 else maxParallel, log)
    && Truthful(world.env.outcome, log)
    && (!SomeRaises(world.env.outcome, log) ==> AllRan(modules, log) && !HasRaised(log))
  }

  /** Runs the workflow; the steps that finish register their records. */
  method RunWorkflow(modules: Modules, maxParallel: int, world: World, context: RuntimeContext)
    returns (passed: bool, log: seq<Event>)
    requires WaitsProperly(world.env) && context.pending == []
    modifies context`pending
    ensures RealLog(modules, maxParallel, world, log)
    ensures passed <==> !SomeRaises(world.env.outcome, log)
    ensures context.pending == Registered(log, world.registers)
  {
    var engine := new WorkflowEngine(modules, maxParallel);
    var result, waits := engine.Run(world.env);
    log, passed := engine.log, result.Ok?;
    RegisterAll(context, log, world.registers);
  }

  /** One run inside the handlers of `_run_hook_impl`. */
  method RunHookImpl(modules: Modules, maxParallel: int, setup: Setup, world: World, allowed: bool)
    returns (verdict: Verdict, report: Report)
    requires WaitsProperly(world.env)
    ensures report.setup == setup
    ensures Faithful(modules, maxParallel, world, report)
    ensures report.commits == if Passed(world, report) then AllCommits(report.pending, world.git) else []
    ensures verdict.Superseded? <==> Passed(world, report) && ReturnsWell(world, report) && MakesStale(report)
    ensures verdict.Allowed? <==>
              || setup.Disabled? || setup.SyncBranch?
              || (Passed(world, report) && ReturnsWell(world, report) && !MakesStale(report))
              || (Started(setup) && allowed && !(Passed(world, report) && ReturnsWell(world, report)))
  {
    report := Report(setup, [], [], []);
    match setup {
      case SetupRaises => return Refused, report;
      case Disabled => return Allowed, report;
      case SyncBranch => return Allowed, report;
      case PrepareRaises => return if allowed then Allowed else Refused, report;
      case Ready =>
    }
    var context := new RuntimeContext();
    var passed, log := RunWorkflow(modules, maxParallel, world, context);
    report := Report(setup, log, context.pending, []);
    if !passed {
      return if allowed then Allowed else Refused, report;
    }
    var finalized := context.FinalizePendingAutoCommits(world.git);
    report := Report(setup, log, report.pending, context.commits);
    if finalized.Err? || world.summaryRaises {
      return if allowed then Allowed else Refused, report;
    }
    if exists i :: 0 <= i < |finalized.value| && (finalized.value[i].Committed? || finalized.value[i].Blocked?) {
      return Superseded, report;
    }
    verdict := Allowed;
  }

  method RegisterAll(context: RuntimeContext, log: seq<Event>, registers: StepId -> Option<Deferred>)
    requires context.pending == []
    modifies context`pending
    ensures context.pending == Registered(log, registers)
  {
    for n := 0 to |log|
      invariant context.pending == Registered(log[..n], registers)
    {
      assert log[..n + 1][..n] == log[..n] && log[..n + 1][n] == log[n];
      if log[n].Finish? && registers(log[n].id).Some? {
        context.Register(registers(log[n].id).value);
      }
    }
    assert log[..|log|] == log;
  }

  /** The whole hook.
      - With fail-open off, and the hook neither skipped nor disabled, 0 means that every step of every
        module ran and that nothing was committed or had to be.
      - A step that raises means no commit and, with fail-open off, no 0.
      - Once finalization and the summary came back with something committed or blocked, the push is
        superseded, whatever the fail-open settings. */
  method RunHook(modules: Modules, maxParallel: int, setup: Setup, world: World, switches: Switches)
    returns (verdict: Verdict, report: Report)
    requires WaitsProperly(world.env)
    ensures report.setup == if switches.skipped then Disabled else setup
    ensures Faithful(modules, maxParallel, world, report)
    ensures verdict.Allowed? && !switches.skipped && !FailOpen(switches) && !setup.Disabled? && !setup.SyncBranch? ==>
              Passed(world, report) && AllRan(modules, report.log) && report.commits == [] && !MakesStale(report)
    ensures SomeRaises(world.env.outcome, report.log) ==> report.commits == [] && !verdict.Superseded?
    ensures SomeRaises(world.env.outcome, report.log) && !FailOpen(switches) ==> verdict.Refused?
    ensures report.commits != [] ==> Passed(world, report)
    ensures verdict.Superseded? <==> Passed(world, report) && ReturnsWell(world, report) && MakesStale(report)
    ensures verdict.Refused? <==>
              && !switches.skipped && !LetThrough(switches)
              && (setup.SetupRaises? ||
                  (Started(setup) && !switches.allowed && !(Passed(world, report) && ReturnsWell(world, report))))
    ensures verdict.Allowed? && report.commits != [] <==>
              report.commits != [] && !ReturnsWell(world, report) && FailOpen(switches)
    ensures report.commits == if Passed(world, report) then AllCommits(report.pending, world.git) else []
  {
    if switches.skipped {
      report := Report(Disabled, [], [], []);
      return Allowed, report;
    }
    verdict, report := RunHookImpl(modules, maxParallel, setup, world, switches.allowed);
    CommitsAreStale(world, report);
    if verdict.Refused? {
      var allow := if switches.allowedByEnv.Some? then switches.allowedByEnv else switches.allowedAgain;
      if allow.Some? && allow.value {
        verdict := Allowed;
      }
    }
  }

  /** When finalization comes back, a commit made is among its outcomes. */
  lemma CommitsAreStale(world: World, report: Report)
    requires report.commits == [] || report.commits == AllCommits(report.pending, world.git)
    ensures report.commits != [] && !Raises(report.pending, world.git) ==> MakesStale(report)
  {
    ReachedMeans(report.pending, world.git, 0);
    if report.commits != [] && !Raises(report.pending, world.git) {
      var i := SomeCommits(report.pending, world.git, |report.pending|);
    }
  }

  /** A hook in which every step raises refuses the push and commits nothing, given any step at all. */
  lemma AllRaising(modules: Modules, maxParallel: int, world: World, report: Report, m: nat)
    requires m < |modules| && modules[m] != [] && report.setup.Ready?
    requires Faithful(modules, maxParallel, world, report)
    requires forall t :: world.env.outcome(t).Raised?
    ensures SomeRaises(world.env.outcome, report.log)
  {
    if AllRan(modules, report.log) {
      AllRanSubmits(world.env.outcome, modules, report.log, m);
    }
    assert SubmitOrder(report.log) != [] ==> world.env.outcome(0).Raised?;
  }

  // ---------------------------------------------------------------------------------
  // The exception to the rule
  // ---------------------------------------------------------------------------------

  /** Finalization can raise with a commit made: of these two records the second cannot be committed. */
  lemma RaisesAfterCommit()
    ensures var records := [Deferred((0, 0), ["a"], [], false), Deferred((1, 0), ["b"], [], false)];
            var git := (i: nat) => Git(i == 0, true, true, PushSucceeds);
            && Raises(records, git)
            && AllCommits(records, git) == [(0, 0)]
  {
    var records := [Deferred((0, 0), ["a"], [], false), Deferred((1, 0), ["b"], [], false)];
    var git := (i: nat) => Git(i == 0, true, true, PushSucceeds);
    assert RaisesOn(records[1], git(1));
    assert Reached(records, git, 1) == 2;
    assert CommitsOf(records, git, 1) == [(0, 0)];
  }

  const FIX: Deferred := Deferred((0, 0), ["a"], [], false)

  predicate IsLeast(futures: set<nat>, t: nat) {
    t in futures && forall u | u in futures :: t <= u
  }

  lemma {:induction false} LeastExists(futures: set<nat>) returns (t: nat)
    requires futures != {}
    ensures IsLeast(futures, t)
  {
    var v :| v in futures;
    var rest := futures - {v};
    assert futures == rest + {v};
    if rest == {} {
      t := v;
    } else {
      t := LeastExists(rest);
      t := if t <= v then t else v;
    }
  }

  lemma SomeLeast(futures: set<nat>)
    requires futures != {}
    ensures exists t :: IsLeast(futures, t)
  {
    var t := LeastExists(futures);
  }

  function Least(futures: set<nat>): (t: nat)
    requires futures != {}
    ensures t in futures
  {
    SomeLeast(futures);
    var t :| IsLeast(futures, t);
    t
  }

  const ONE_STEP: Modules := [[Apply]]

  /** One apply step, which returns and registers a fix.  The fix is committed, but the name of the new
      commit cannot be read back. */
  function StaleWorld(): World {
    World(Environment((round: nat, futures: set<nat>) => if futures == {} then [] else [Least(futures)],
                      (t: nat) => Returned(false)),
          (id: StepId) => if id == (0, 0) then Some(FIX) else None,
          (i: nat) => Git(true, false, true, PushSucceeds), false)
  }

  lemma StaleWaitsProperly()
    ensures WaitsProperly(StaleWorld().env)
  {
  }

  /** A safe log of one step starts with its submission and its end. */
  lemma FirstTwoEvents(log: seq<Event>)
    requires SafeLog(ONE_STEP, 1, log) && |log| >= 2
    ensures log[0] == Submit((0, 0)) && !log[1].Submit? && log[1].id == (0, 0)
  {
    assert Justified(log, 0) && Justified(log, 1);
    assert log[..0] == [] && log[..1][..0] == [] && log[..1][0] == log[0];
    SubmissionsInRange(ONE_STEP, 1, log, 0);
    assert InFlight(log[..1]) == {(0, 0)};
    if log[1].Submit? {
      SubmissionsInRange(ONE_STEP, 1, log, 1);
    }
  }

  lemma ThreeEvents(log: seq<Event>)
    requires |log| >= 3 && log[0].Submit? && !log[1].Submit? && log[2].Submit?
    ensures SubmitOrder(log[..3]) == [log[0].id, log[2].id]
  {
    SubmitOrderSnoc([], log[0]);
    SubmitOrderSnoc([log[0]], log[1]);
    SubmitOrderSnoc([log[0], log[1]], log[2]);
    assert [] + [log[0]] == [log[0]] && [log[0]] + [log[1]] == [log[0], log[1]];
    assert log[..3] == [log[0], log[1]] + [log[2]];
  }

  lemma NoThirdEvent(log: seq<Event>)
    requires SafeLog(ONE_STEP, 1, log)
    ensures |log| <= 2
  {
    if |log| > 2 {
      FirstTwoEvents(log);
      assert Justified(log, 2);
      assert log[..2] == [log[0], log[1]] && log[..2][..1] == [log[0]];
      assert InFlight(log[..2]) == {};
      SubmissionsInRange(ONE_STEP, 1, log, 2);
      ThreeEvents(log);
      SubmitOrderPrefix(log, 3);
      SubmittedOnce(ONE_STEP, 1, log, 0, 1);
      assert false;
    }
  }

  /** The only log of a run of one mutating step that returns. */
  lemma OneStepLog(log: seq<Event>)
    requires SafeLog(ONE_STEP, 1, log) && Truthful(StaleWorld().env.outcome, log) && AllRan(ONE_STEP, log)
    ensures log == [Submit((0, 0)), Finish((0, 0), false)]
  {
    var outcome := StaleWorld().env.outcome;
    NoThirdEvent(log);
    assert Ran(ONE_STEP[0], 0, log);
    var skip :| Finish((0, 0), skip) in log;
    assert |log| >= 2 by {
      assert Justified(log, 0) && log[..0] == [];
    }
    FirstTwoEvents(log);
    assert RealEnd(outcome, SubmitOrder(log), log[1]);
  }

  lemma StaleReport(report: Report)
    requires report.setup.Ready? && Faithful(ONE_STEP, 1, StaleWorld(), report)
    ensures Passed(StaleWorld(), report) && report.pending == [FIX]
    ensures AllCommits(report.pending, StaleWorld().git) == [(0, 0)] && Raises(report.pending, StaleWorld().git)
  {
    OneStepLog(report.log);
    assert report.log[..1] == [Submit((0, 0))] && report.log[..1][..0] == [];
    assert Registered(report.log[..1], StaleWorld().registers) == [];
    var git := StaleWorld().git;
    assert RaisesOn([FIX][0], git(0));
    assert CommitsOf([FIX], git, 0) == [] && CommitsOf([FIX], git, 1) == [(0, 0)];
  }

  /** With fail-open on, this run lets the push through although it was superseded by a commit. */
  method FailOpenAfterCommit() returns (verdict: Verdict, report: Report)
    ensures Passed(StaleWorld(), report) && report.pending == [FIX] && report.commits == [(0, 0)]
    ensures verdict == Allowed
  {
    StaleWaitsProperly();
    verdict, report := RunHook(ONE_STEP, 1, Ready, StaleWorld(), Switches(false, true, None, None));
    StaleReport(report);
  }
}
