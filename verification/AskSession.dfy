/** The ask step with its retries (src/ai_push_hooks/executors/ask.py, `run_ask_step`, and
    src/ai_push_hooks/executors/runner_workflow.py, `_invoke_runner` and `_finalize_invocation`).

    A runner call may open a session.  When its answer is not the JSON asked for, the next attempt
    either resumes that session, which then changes hands unfinalized, or starts afresh after the old
    one was finalized.  Who must finalize it depends on how the next attempt goes. */
module AskSession {

  import opened Options

  type SessionId = string
  type Payload = string

  datatype Session = Session(id: SessionId, resumable: bool)

  /** What becomes of an answer.  `Crash` is an exception that is not a HookError, as `json.loads`
      raises for an oversized integer or too deep a nesting. */
  datatype Parse = Valid(payload: Payload) | Invalid | Crash

  /** What one attempt meets: its runner cannot be set up; the call fails, by raising or with a result
      that is not accepted; or it answers. */
  datatype Attempt =
    | ConstructionFails
    | CallFails(reported: Option<SessionId>)
    | Answers(session: Option<Session>, parse: Parse)

  datatype Config = Config(maxRetries: nat, newSession: bool, supportsResume: bool)

  /** `attempt(k, resumed)` is what attempt k meets; `opens(k)` is the session its call opens when it
      resumes none; `finalizerRaises(k)` says whether finalizing the call of attempt k raises. */
  datatype World = World(attempt: (nat, Option<SessionId>) -> Attempt, opens: nat -> SessionId,
                         finalizerRaises: nat -> bool)

  /** The session the call of attempt k works in. */
  function SessionOf(world: World, k: nat, resumed: Option<SessionId>): SessionId {
    if resumed.Some? then resumed.value else world.opens(k)
  }

  function ReportedBy(attempt: Attempt): Option<SessionId> {
    match attempt
    case ConstructionFails => None
    case CallFails(reported) => reported
    case Answers(session, _) => if session.Some? then Some(session.value.id) else None
  }

  /** An adapter as OpenCode's: no session is opened twice, what is reported is the session of the
      call, and an answer in a resumed session reports it. */
  ghost predicate Honest(world: World) {
    && (forall j, k :: world.opens(j) == world.opens(k) ==> j == k)
    && (forall k, resumed :: HonestAt(world, k, resumed))
  }

  ghost predicate HonestAt(world: World, k: nat, resumed: Option<SessionId>) {
    var attempt := world.attempt(k, resumed);
    && (ReportedBy(attempt).Some? ==> ReportedBy(attempt).value == SessionOf(world, k, resumed))
    && (resumed.Some? && attempt.Answers? ==> ReportedBy(attempt).Some?)
  }

  datatype AskError =
    | ConstructionFailed(retained: Option<nat>)
    | CallFailed
    | FinalizeFailed
    | Crashed(call: nat)
    | RetriesExhausted

  /** What can be observed of a run, each call named by its attempt: a call in a session, which it may
      have reported; the finalizer called for a session, with the session its result names; a completion
      logged. */
  datatype Event =
    | Called(call: nat, session: SessionId, reported: bool)
    | Finalized(handed: SessionId, named: Option<SessionId>)
    | Completed(call: nat)

  // ---------------------------------------------------------------------------------
  // Counting
  // ---------------------------------------------------------------------------------

  ghost function Calls(trace: seq<Event>): nat {
    if trace == [] then 0
    else Calls(trace[..|trace| - 1]) + if trace[|trace| - 1].Called? then 1 else 0
  }

  ghost function CallsOf(trace: seq<Event>, call: nat): nat {
    if trace == [] then 0
    else
      var last := trace[|trace| - 1];
      CallsOf(trace[..|trace| - 1], call) + if last.Called? && last.call == call then 1 else 0
  }

  ghost function Completions(trace: seq<Event>, call: nat): nat {
    if trace == [] then 0
    else Completions(trace[..|trace| - 1], call) + if trace[|trace| - 1] == Completed(call) then 1 else 0
  }

  ghost predicate HandsOver(event: Event, session: SessionId) {
    event.Finalized? && event.handed == session
  }

  /** How often a session was handed to the finalizer. */
  ghost function Handed(trace: seq<Event>, session: SessionId): nat {
    if trace == [] then 0
    else Handed(trace[..|trace| - 1], session) + if HandsOver(trace[|trace| - 1], session) then 1 else 0
  }

  /** Whether a call worked in the session. */
  ghost predicate Opened(trace: seq<Event>, session: SessionId) {
    exists i | 0 <= i < |trace| :: trace[i].Called? && trace[i].session == session
  }

  /** Whether some call in the session reported it. */
  ghost predicate Reported(trace: seq<Event>, session: SessionId) {
    exists i | 0 <= i < |trace| :: trace[i].Called? && trace[i].session == session && trace[i].reported
  }

  lemma Snoc(trace: seq<Event>, event: Event)
    ensures Calls(trace + [event]) == Calls(trace) + if event.Called? then 1 else 0
    ensures forall c: nat ::
              CallsOf(trace + [event], c) == CallsOf(trace, c) + if event.Called? && event.call == c then 1 else 0
    ensures forall c: nat ::
              Completions(trace + [event], c) == Completions(trace, c) + if event == Completed(c) then 1 else 0
    ensures forall s :: Handed(trace + [event], s) == Handed(trace, s) + if HandsOver(event, s) then 1 else 0
    ensures forall s :: Opened(trace + [event], s) <==> Opened(trace, s) || (event.Called? && event.session == s)
    ensures forall s :: Reported(trace + [event], s) <==>
              Reported(trace, s) || (event.Called? && event.session == s && event.reported)
  {
    var longer := trace + [event];
    assert longer[..|trace|] == trace && longer[|trace|] == event;
    forall i | 0 <= i < |trace| ensures longer[i] == trace[i] {
    }
  }

  // ---------------------------------------------------------------------------------
  // Which attempt ends the run
  // ---------------------------------------------------------------------------------

  /** The session the attempt after this one resumes. */
  function Resumes(config: Config, attempt: Attempt): Option<SessionId> {
    if attempt.Answers? && attempt.session.Some? && attempt.session.value.resumable
       && config.supportsResume && !config.newSession
    then Some(attempt.session.value.id) else None
  }

  /** What attempt k is asked to resume, and what it meets. */
  function Requested(config: Config, world: World, k: nat): Option<SessionId>
    decreases k, 0
  {
    if k <= 1 then None else Resumes(config, Met(config, world, k - 1))
  }

  function Met(config: Config, world: World, k: nat): Attempt
    decreases k, 1
  {
    world.attempt(k, Requested(config, world, k))
  }

  /** Attempt k ends the run unless its answer is invalid, another attempt is left, and the call it
      does not retain could be finalized. */
  ghost predicate Ends(config: Config, world: World, k: nat) {
    var met := Met(config, world, k);
    || !met.Answers? || !met.parse.Invalid?
    || k >= config.maxRetries + 1
    || (Resumes(config, met).None? && world.finalizerRaises(k))
  }

  /** How the run ends when attempt k ends it. */
  ghost function Verdict(config: Config, world: World, k: nat): Result<Payload, AskError> {
    match Met(config, world, k)
    case ConstructionFails => Err(ConstructionFailed(if Requested(config, world, k).Some? then Some(k - 1) else None))
    case CallFails(_) => Err(CallFailed)
    case Answers(_, Crash) => Err(Crashed(k))
    case Answers(_, Valid(payload)) => if world.finalizerRaises(k) then Err(FinalizeFailed) else Ok(payload)
    case Answers(_, Invalid) => if world.finalizerRaises(k) then Err(FinalizeFailed) else Err(RetriesExhausted)
  }

  ghost predicate FirstEnd(config: Config, world: World, k: nat) {
    k >= 1 && Ends(config, world, k) && forall j | 1 <= j < k :: !Ends(config, world, j)
  }

  // ---------------------------------------------------------------------------------
  // The books kept between attempts
  // ---------------------------------------------------------------------------------

  /** Every session opened was handed over exactly once, but for the one named here, which never was. */
  ghost predicate Settled(trace: seq<Event>, open: Option<SessionId>) {
    forall s :: Handed(trace, s) == if Opened(trace, s) && open != Some(s) then 1 else 0
  }

  /** After `done` attempts that did not end the run: every session opened was handed over
      once, but for the retained one; every call was made once and logged complete once. */
  ghost predicate Books(world: World, trace: seq<Event>, done: nat, retained: Option<SessionId>) {
    && Calls(trace) == done
    && (forall c: nat :: CallsOf(trace, c) == if 1 <= c <= done then 1 else 0)
    && (forall c: nat :: Completions(trace, c) == if 1 <= c <= done then 1 else 0)
    && Settled(trace, retained)
    && (forall s | Opened(trace, s) :: OpenedBy(world, s, done))
    && (retained.Some? ==> Reported(trace, retained.value))
  }

  ghost predicate OpenedBy(world: World, session: SessionId, done: nat) {
    exists k | 1 <= k <= done :: world.opens(k) == session
  }

  lemma FreshIsNew(world: World, trace: seq<Event>, done: nat, retained: Option<SessionId>)
    requires Honest(world) && Books(world, trace, done, retained)
    ensures !Opened(trace, world.opens(done + 1))
  {
  }

  lemma ReportedIsOpened(trace: seq<Event>, session: SessionId)
    requires Reported(trace, session)
    ensures Opened(trace, session)
  {
  }

  /** Right after the call of attempt k: its session is not handed over and it is not logged yet. */
  ghost predicate Pending(world: World, trace: seq<Event>, k: nat, session: SessionId, named: Option<SessionId>) {
    && Calls(trace) == k
    && (forall c: nat :: CallsOf(trace, c) == if 1 <= c <= k then 1 else 0)
    && (forall c: nat :: Completions(trace, c) == if 1 <= c < k then 1 else 0)
    && Settled(trace, Some(session)) && Opened(trace, session)
    && (forall s | Opened(trace, s) :: OpenedBy(world, s, k))
    && named == if Reported(trace, session) then Some(session) else None
  }

  lemma CallIsPending(world: World, trace: seq<Event>, done: nat, resumed: Option<SessionId>, reported: bool)
    requires Honest(world) && Books(world, trace, done, resumed)
    ensures var session := SessionOf(world, done + 1, resumed);
            Pending(world, trace + [Called(done + 1, session, reported)], done + 1, session,
                    if reported || resumed.Some? then Some(session) else None)
  {
    var session := SessionOf(world, done + 1, resumed);
    FreshIsNew(world, trace, done, resumed);
    Snoc(trace, Called(done + 1, session, reported));
    OpenedOneMore(world, trace, trace + [Called(done + 1, session, reported)], done, resumed);
    if Reported(trace, session) {
      ReportedIsOpened(trace, session);
    }
  }

  lemma FinalizePending(world: World, trace: seq<Event>, k: nat, session: SessionId, named: Option<SessionId>)
    requires Pending(world, trace, k, session, named) && k >= 1
    ensures Books(world, trace + [Finalized(session, named)] + [Completed(k)], k, None)
  {
    Snoc(trace, Finalized(session, named));
    Snoc(trace + [Finalized(session, named)], Completed(k));
  }

  lemma RetainPending(world: World, trace: seq<Event>, k: nat, session: SessionId)
    requires Pending(world, trace, k, session, Some(session)) && k >= 1
    ensures Books(world, trace + [Completed(k)], k, Some(session))
  {
    Snoc(trace, Completed(k));
  }

  /** The next attempt cannot be set up: the retained session is handed over and logged once more. */
  lemma FinalizeRetained(world: World, trace: seq<Event>, done: nat, resumed: Option<SessionId>)
    requires Honest(world) && Books(world, trace, done, resumed) && resumed.Some?
    ensures var longer := trace + [Finalized(resumed.value, resumed)] + [Completed(done)];
            && Calls(longer) == done
            && (forall c: nat :: CallsOf(longer, c) == if 1 <= c <= done then 1 else 0)
            && (forall c: nat :: Completions(longer, c) == if c == done then 2 else CallsOf(longer, c))
            && Settled(longer, None)
  {
    ReportedIsOpened(trace, resumed.value);
    assert OpenedBy(world, resumed.value, done);
    Snoc(trace, Finalized(resumed.value, resumed));
    Snoc(trace + [Finalized(resumed.value, resumed)], Completed(done));
  }

  lemma OpenedOneMore(world: World, trace: seq<Event>, longer: seq<Event>, done: nat, resumed: Option<SessionId>)
    requires Books(world, trace, done, resumed)
    requires forall s :: Opened(longer, s) <==> Opened(trace, s) || s == SessionOf(world, done + 1, resumed)
    ensures forall s | Opened(longer, s) :: OpenedBy(world, s, done + 1)
  {
    forall s | Opened(longer, s) ensures OpenedBy(world, s, done + 1) {
      if resumed.Some? {
        ReportedIsOpened(trace, resumed.value);
      }
      if Opened(trace, s) {
        assert OpenedBy(world, s, done);
      }
    }
  }

  // ---------------------------------------------------------------------------------
  // What each event has to be
  // ---------------------------------------------------------------------------------

  /** A call works in the session its attempt works in, and is marked reported exactly if its attempt
      reports it; no other session is open then, and this one was not handed over before.  The finalizer
      is told the session it is called for exactly if some call in it reported it. */
  ghost predicate Lawful(config: Config, world: World, before: seq<Event>, event: Event) {
    match event
    case Called(call, session, reported) =>
      && session == SessionOf(world, call, Requested(config, world, call))
      && reported == ReportedBy(Met(config, world, call)).Some?
      && OnlyOpen(before, session)
    case Finalized(handed, named) => named == if Reported(before, handed) then Some(handed) else None
    case Completed(_) => true
  }

  ghost predicate OnlyOpen(before: seq<Event>, session: SessionId) {
    forall s | Opened(before, s) :: Handed(before, s) == if s == session then 0 else 1
  }

  ghost predicate AllLawful(config: Config, world: World, trace: seq<Event>) {
    forall i | 0 <= i < |trace| :: Lawful(config, world, trace[..i], trace[i])
  }

  lemma LawfulSnoc(config: Config, world: World, trace: seq<Event>, event: Event)
    requires AllLawful(config, world, trace) && Lawful(config, world, trace, event)
    ensures AllLawful(config, world, trace + [event])
  {
    var longer := trace + [event];
    forall i | 0 <= i < |longer| ensures Lawful(config, world, longer[..i], longer[i]) {
      assert longer[..i] == if i < |trace| then trace[..i] else trace;
    }
  }

  lemma CallIsLawful(config: Config, world: World, trace: seq<Event>, done: nat, resumed: Option<SessionId>,
                     reported: bool)
    requires Honest(world) && Books(world, trace, done, resumed)
    requires resumed == Requested(config, world, done + 1)
    requires reported == ReportedBy(Met(config, world, done + 1)).Some?
    ensures Lawful(config, world, trace, Called(done + 1, SessionOf(world, done + 1, resumed), reported))
  {
    FreshIsNew(world, trace, done, resumed);
  }

  /** Every call was logged complete once; a crashed one never, and a retained one twice when the next
      attempt could not be set up. */
  ghost predicate Logged(trace: seq<Event>, r: Result<Payload, AskError>) {
    forall c: nat :: Completions(trace, c) ==
      if r.Err? && r.error == ConstructionFailed(Some(c)) then 2
      else if r.Err? && r.error == Crashed(c) then 0
      else CallsOf(trace, c)
  }

  /** Distinct names for the sessions of the two examples. */
  ghost function Numbered(k: nat): (id: SessionId)
    ensures |id| == k
  {
    seq(k, _ => 's')
  }

  /** An example: attempt 1 is answered in session "s"; no other runner can be set up. */
  ghost function Example(first: Parse): World {
    World((k: nat, resumed: Option<SessionId>) =>
            if k != 1 then ConstructionFails
            else Answers(Some(Session(if resumed.Some? then resumed.value else "s", true)), first),
          Numbered, _ => false)
  }

  lemma ExampleIsHonest(first: Parse)
    ensures Honest(Example(first))
    ensures Met(Config(1, false, true), Example(first), 1) == Answers(Some(Session("s", true)), first)
  {
    var world := Example(first);
    assert Numbered(1) == "s";
    forall k: nat, resumed: Option<SessionId> ensures HonestAt(world, k, resumed) {
    }
    forall j: nat, k: nat | world.opens(j) == world.opens(k) ensures j == k {
      assert |Numbered(j)| == j && |Numbered(k)| == k;
    }
  }

  /** Both exceptions of `RunAskStep` happen with an honest adapter.  Here a retained call is logged
      complete twice, since the runner of the second attempt cannot be set up... */
  lemma RetainedCallLoggedTwice()
    ensures var config := Config(1, false, true);
            && Honest(Example(Invalid))
            && FirstEnd(config, Example(Invalid), 2)
            && Verdict(config, Example(Invalid), 2) == Err(ConstructionFailed(Some(1)))
  {
    ExampleIsHonest(Invalid);
    var config := Config(1, false, true);
    assert Requested(config, Example(Invalid), 2) == Some("s");
  }

  /** ... and here a crash of the parser leaves a reported session with nobody to finalize it. */
  lemma CrashLosesSession()
    ensures var config := Config(1, false, true);
            && Honest(Example(Crash))
            && FirstEnd(config, Example(Crash), 1)
            && Verdict(config, Example(Crash), 1) == Err(Crashed(1))
            && ReportedBy(Met(config, Example(Crash), 1)) == Some(SessionOf(Example(Crash), 1, None))
  {
    ExampleIsHonest(Crash);
    assert Numbered(1) == "s";
  }

  // ---------------------------------------------------------------------------------
  // The run
  // ---------------------------------------------------------------------------------

  /** Between two attempts. */
  ghost predicate Running(config: Config, world: World, trace: seq<Event>, done: nat, resumed: Option<SessionId>) {
    && resumed == Requested(config, world, done + 1)
    && Books(world, trace, done, resumed)
    && AllLawful(config, world, trace)
  }

  /** The session nobody finalizes: that of an answer on which the parser crashed. */
  ghost function Lost(config: Config, world: World, k: nat): Option<SessionId> {
    var met := Met(config, world, k);
    if met.Answers? && met.parse.Crash? then Some(SessionOf(world, k, Requested(config, world, k))) else None
  }

  /** How many calls a run makes that attempt k ends. */
  ghost function CallsMade(config: Config, world: World, k: nat): int {
    if Met(config, world, k).ConstructionFails? then k - 1 else k
  }

  /** What the trace shows when attempt k has ended the run. */
  ghost predicate Finished(config: Config, world: World, trace: seq<Event>, k: nat) {
    && Calls(trace) == CallsMade(config, world, k)
    && (forall c: nat :: CallsOf(trace, c) == if 1 <= c <= CallsMade(config, world, k) then 1 else 0)
    && AllLawful(config, world, trace)
    && Settled(trace, Lost(config, world, k))
    && (Lost(config, world, k).Some? ==> Opened(trace, Lost(config, world, k).value))
    && Logged(trace, Verdict(config, world, k))
  }

  lemma CallWasMade(trace: seq<Event>, k: nat)
    requires CallsOf(trace, k) > 0
    ensures exists i | 0 <= i < |trace| :: trace[i].Called? && trace[i].call == k
  {
    var last := |trace| - 1;
    if trace[last].Called? && trace[last].call == k {
    } else {
      CallWasMade(trace[..last], k);
      var i :| 0 <= i < |trace[..last]| && trace[..last][i].Called? && trace[..last][i].call == k;
      assert trace[i].call == k;
    }
  }

  /** For every attempt that made a call: its session was handed over exactly once, unless it is lost. */
  lemma EachSessionFinalized(config: Config, world: World, trace: seq<Event>, k: nat, j: nat)
    requires Finished(config, world, trace, k) && 1 <= j <= CallsMade(config, world, k)
    ensures var session := SessionOf(world, j, Requested(config, world, j));
            Handed(trace, session) == if Lost(config, world, k) == Some(session) then 0 else 1
  {
    CallWasMade(trace, j);
    var i :| 0 <= i < |trace| && trace[i].Called? && trace[i].call == j;
    assert Lawful(config, world, trace[..i], trace[i]);
  }

  lemma LostIsReported(config: Config, world: World, trace: seq<Event>, k: nat)
    requires Finished(config, world, trace, k) && k >= 1
    ensures Lost(config, world, k).Some? && ReportedBy(Met(config, world, k)).Some? ==>
              Reported(trace, Lost(config, world, k).value)
  {
    if Lost(config, world, k).Some? {
      CallWasMade(trace, k);
      var i :| 0 <= i < |trace| && trace[i].Called? && trace[i].call == k;
      assert Lawful(config, world, trace[..i], trace[i]);
    }
  }

  /** The runner of the next attempt cannot be set up. */
  lemma ConstructionExit(config: Config, world: World, trace: seq<Event>, done: nat, resumed: Option<SessionId>)
    requires Honest(world) && Running(config, world, trace, done, resumed)
    requires Met(config, world, done + 1).ConstructionFails?
    ensures resumed.None? ==> Finished(config, world, trace, done + 1)
    ensures resumed.Some? ==>
      Finished(config, world, trace + [Finalized(resumed.value, resumed)] + [Completed(done)], done + 1)
  {
    if resumed.Some? {
      FinalizeRetained(world, trace, done, resumed);
      LawfulSnoc(config, world, trace, Finalized(resumed.value, resumed));
      LawfulSnoc(config, world, trace + [Finalized(resumed.value, resumed)], Completed(done));
    }
  }

  lemma CrashExit(config: Config, world: World, trace: seq<Event>, k: nat, session: SessionId, named: Option<SessionId>)
    requires Pending(world, trace, k, session, named) && AllLawful(config, world, trace)
    requires Lost(config, world, k) == Some(session) && !Met(config, world, k).ConstructionFails?
    ensures Finished(config, world, trace, k)
  {
  }

  lemma FinalizedExit(config: Config, world: World, trace: seq<Event>, k: nat)
    requires Books(world, trace, k, None) && AllLawful(config, world, trace)
    requires Lost(config, world, k).None? && !Met(config, world, k).ConstructionFails?
    ensures Finished(config, world, trace, k)
  {
  }

  /** A call that is not retained is handed over and logged. */
  lemma FinalizeStep(config: Config, world: World, trace: seq<Event>, k: nat, session: SessionId,
                     named: Option<SessionId>)
    requires Pending(world, trace, k, session, named) && k >= 1 && AllLawful(config, world, trace)
    ensures var longer := trace + [Finalized(session, named)] + [Completed(k)];
            Books(world, longer, k, None) && AllLawful(config, world, longer)
  {
    FinalizePending(world, trace, k, session, named);
    LawfulSnoc(config, world, trace, Finalized(session, named));
    LawfulSnoc(config, world, trace + [Finalized(session, named)], Completed(k));
  }

  lemma RetainStep(config: Config, world: World, trace: seq<Event>, k: nat, session: SessionId)
    requires Pending(world, trace, k, session, Some(session)) && k >= 1 && AllLawful(config, world, trace)
    requires Requested(config, world, k + 1) == Some(session)
    ensures Running(config, world, trace + [Completed(k)], k, Some(session))
  {
    RetainPending(world, trace, k, session);
    LawfulSnoc(config, world, trace, Completed(k));
  }

  // ---------------------------------------------------------------------------------
  // The run, told by what each attempt was asked and met
  // ---------------------------------------------------------------------------------

  /** The attempt after one that met `before` resumes its session if it reported one as resumable and the
      settings allow that. */
  ghost predicate ResumesAfter(config: Config, before: Attempt, asked: Option<SessionId>) {
    if !config.newSession && config.supportsResume
       && before.Answers? && before.session.Some? && before.session.value.resumable
    then asked == Some(before.session.value.id)
    else asked == None
  }

  /** `asked[k - 1]` is the session attempt k is to resume.  Every attempt but the last was answered with
      something invalid, and its call was retained or could be finalized. */
  ghost predicate Course(config: Config, world: World, asked: seq<Option<SessionId>>) {
    && 1 <= |asked| <= config.maxRetries + 1
    && asked[0] == None
    && forall k: nat | 1 <= k < |asked| :: Retried(config, world, k, asked[k - 1], asked[k])
  }

  ghost predicate Retried(config: Config, world: World, k: nat, asked: Option<SessionId>, next: Option<SessionId>) {
    var met := world.attempt(k, asked);
    && met.Answers? && met.parse.Invalid?
    && ResumesAfter(config, met, next)
    && (next.None? ==> !world.finalizerRaises(k))
  }

  /** The result, by what the last attempt met. */
  ghost predicate EndsAs(config: Config, world: World, asked: seq<Option<SessionId>>, r: Result<Payload, AskError>)
    requires asked != []
  {
    var k := |asked|;
    var met, raises := world.attempt(k, asked[k - 1]), world.finalizerRaises(k);
    && (forall p :: r == Ok(p) <==> met.Answers? && met.parse == Valid(p) && !raises)
    && (r == Err(CallFailed) <==> met.CallFails?)
    && (r == Err(ConstructionFailed(None)) <==> met.ConstructionFails? && asked[k - 1] == None)
    && (r == Err(ConstructionFailed(Some(k - 1))) <==> met.ConstructionFails? && asked[k - 1] != None)
    && (r == Err(Crashed(k)) <==> met.Answers? && met.parse.Crash?)
    && (r == Err(FinalizeFailed) <==> met.Answers? && !met.parse.Crash? && raises)
    && (r == Err(RetriesExhausted) <==> met.Answers? && met.parse.Invalid? && !raises)
    && (r == Err(RetriesExhausted) ==> k == config.maxRetries + 1)
  }

  /** Attempt k works in the session it resumes, or else in its own. */
  ghost function WorksIn(world: World, asked: seq<Option<SessionId>>, k: nat): SessionId
    requires 1 <= k <= |asked|
  {
    match asked[k - 1]
    case Some(session) => session
    case None => world.opens(k)
  }

  /** Every call works there, and is marked reported if its attempt reports a session. */
  ghost predicate CallsWork(world: World, asked: seq<Option<SessionId>>, trace: seq<Event>) {
    forall i | 0 <= i < |trace| && trace[i].Called? :: CallWorks(world, asked, trace[i])
  }

  ghost predicate CallWorks(world: World, asked: seq<Option<SessionId>>, event: Event)
    requires event.Called?
  {
    && 1 <= event.call <= |asked|
    && event.session == WorksIn(world, asked, event.call)
    && var met := world.attempt(event.call, asked[event.call - 1]);
       event.reported <==> (met.CallFails? && met.reported.Some?) || (met.Answers? && met.session.Some?)
  }

  /** Each attempt but one whose runner cannot be set up makes one call; every session opened is handed over
      once, but for that of an answer on which the parser crashed. */
  ghost predicate Balanced(world: World, asked: seq<Option<SessionId>>, trace: seq<Event>)
    requires asked != []
  {
    var k := |asked|;
    var met := world.attempt(k, asked[k - 1]);
    && (forall c: nat ::
          CallsOf(trace, c) == if 1 <= c < k || (c == k && !met.ConstructionFails?) then 1 else 0)
    && (forall s | Opened(trace, s) ::
          Handed(trace, s) == if met.Answers? && met.parse.Crash? && s == WorksIn(world, asked, k) then 0 else 1)
  }

  /** With a new session for each attempt, every call works in the session its own attempt opens. */
  lemma NewSessionsOnly(config: Config, world: World, asked: seq<Option<SessionId>>, trace: seq<Event>)
    requires Course(config, world, asked) && CallsWork(world, asked, trace)
    requires config.newSession || !config.supportsResume
    ensures forall i | 0 <= i < |trace| && trace[i].Called? :: trace[i].session == world.opens(trace[i].call)
  {
    forall i | 0 <= i < |trace| && trace[i].Called? ensures trace[i].session == world.opens(trace[i].call) {
      assert CallWorks(world, asked, trace[i]);
      var k := trace[i].call;
      assert k > 1 ==> Retried(config, world, k - 1, asked[k - 2], asked[k - 1]);
    }
  }

  ghost function AskedOf(config: Config, world: World, k: nat): (asked: seq<Option<SessionId>>)
    ensures |asked| == k
    ensures forall i | 0 <= i < k :: asked[i] == Requested(config, world, i + 1)
  {
    seq(k, i requires 0 <= i < k => Requested(config, world, i + 1))
  }

  lemma ResumesMeans(config: Config, attempt: Attempt)
    ensures ResumesAfter(config, attempt, Resumes(config, attempt))
  {
  }

  lemma CourseOf(config: Config, world: World, k: nat)
    requires FirstEnd(config, world, k) && k <= config.maxRetries + 1
    ensures Course(config, world, AskedOf(config, world, k))
  {
    var asked := AskedOf(config, world, k);
    forall j: nat | 1 <= j < |asked| ensures Retried(config, world, j, asked[j - 1], asked[j]) {
      assert !Ends(config, world, j);
      ResumesMeans(config, Met(config, world, j));
    }
  }

  lemma VerdictMeans(config: Config, world: World, k: nat)
    requires 1 <= k <= config.maxRetries + 1 && Ends(config, world, k)
    ensures EndsAs(config, world, AskedOf(config, world, k), Verdict(config, world, k))
  {
    assert Met(config, world, k) == world.attempt(k, AskedOf(config, world, k)[k - 1]);
  }

  lemma FinishedMeans(config: Config, world: World, trace: seq<Event>, k: nat)
    requires Finished(config, world, trace, k) && k >= 1
    ensures CallsWork(world, AskedOf(config, world, k), trace)
    ensures Balanced(world, AskedOf(config, world, k), trace)
  {
    var asked := AskedOf(config, world, k);
    forall i | 0 <= i < |trace| && trace[i].Called? ensures CallWorks(world, asked, trace[i]) {
      assert Lawful(config, world, trace[..i], trace[i]);
      CallIsCounted(trace, i);
    }
  }

  lemma {:induction false} CallIsCounted(trace: seq<Event>, i: nat)
    requires i < |trace| && trace[i].Called?
    ensures CallsOf(trace, trace[i].call) > 0
  {
    var last := |trace| - 1;
    if i == last {
    } else {
      CallIsCounted(trace[..last], i);
    }
  }

  // ---------------------------------------------------------------------------------
  // The loop
  // ---------------------------------------------------------------------------------

  /** Makes the call of attempt done + 1. */
  method Call(config: Config, world: World, trace: seq<Event>, done: nat, resumed: Option<SessionId>)
    returns (called: seq<Event>, session: SessionId, named: Option<SessionId>)
    requires Honest(world) && Running(config, world, trace, done, resumed)
    requires !Met(config, world, done + 1).ConstructionFails?
    ensures session == SessionOf(world, done + 1, resumed)
    ensures named == if ReportedBy(Met(config, world, done + 1)).Some? || resumed.Some? then Some(session) else None
    ensures Pending(world, called, done + 1, session, named) && AllLawful(config, world, called)
  {
    var attempt := world.attempt(done + 1, resumed);
    assert HonestAt(world, done + 1, resumed);
    var reported := ReportedBy(attempt);
    session := SessionOf(world, done + 1, resumed);
    named := if reported.Some? then reported else resumed;
    CallIsPending(world, trace, done, resumed, reported.Some?);
    CallIsLawful(config, world, trace, done, resumed, reported.Some?);
    LawfulSnoc(config, world, trace, Called(done + 1, session, reported.Some?));
    called := trace + [Called(done + 1, session, reported.Some?)];
  }

  /** One pass of the retry loop.  It ends the run, or leaves the books in order for the next attempt. */
  method MakeAttempt(config: Config, world: World, trace: seq<Event>, done: nat, resumed: Option<SessionId>)
    returns (end: Option<Result<Payload, AskError>>, longer: seq<Event>, next: Option<SessionId>)
    requires Honest(world) && Running(config, world, trace, done, resumed) && done <= config.maxRetries
    ensures end.Some? <==> Ends(config, world, done + 1)
    ensures end.Some? ==> end.value == Verdict(config, world, done + 1) && Finished(config, world, longer, done + 1)
    ensures end.Some? ==> EndsAs(config, world, AskedOf(config, world, done + 1), end.value)
    ensures end.None? ==> Running(config, world, longer, done + 1, next)
  {
    var k := done + 1;
    var attempt := world.attempt(k, resumed);
    assert attempt == Met(config, world, k);
    longer, next := trace, None;
    if Ends(config, world, k) {
      VerdictMeans(config, world, k);
    }
    if attempt.ConstructionFails? {
      ConstructionExit(config, world, trace, done, resumed);
      if resumed.Some? {
        longer := trace + [Finalized(resumed.value, resumed)] + [Completed(done)];
      }
      end := Some(Err(ConstructionFailed(if resumed.Some? then Some(done) else None)));
      return;
    }
    var session, named;
    longer, session, named := Call(config, world, trace, done, resumed);
    if attempt.Answers? && attempt.parse.Crash? {
      CrashExit(config, world, longer, k, session, named);
      end := Some(Err(Crashed(k)));
      return;
    }
    if attempt.Answers? && attempt.parse.Invalid? && k < config.maxRetries + 1 && Resumes(config, attempt).Some? {
      assert HonestAt(world, k, resumed) && Requested(config, world, k + 1) == Some(session);
      RetainStep(config, world, longer, k, session);
      end, longer, next := None, longer + [Completed(k)], Resumes(config, attempt);
      return;
    }
    FinalizeStep(config, world, longer, k, session, named);
    longer := longer + [Finalized(session, named)] + [Completed(k)];
    FinalizedExit(config, world, longer, k);
    if attempt.CallFails? {
      end := Some(Err(CallFailed));
    } else if world.finalizerRaises(k) {
      end := Some(Err(FinalizeFailed));
    } else if attempt.parse.Valid? {
      end := Some(Ok(attempt.parse.payload));
    } else if k >= config.maxRetries + 1 {
      end := Some(Err(RetriesExhausted));
    } else {
      end := None;
    }
  }

  /** The whole step.  The trace shows: one call for each attempt up to the one that ends the run, each in
      the session its attempt works in and while no other is open; every session opened handed to the
      finalizer exactly once on every exit but a parser crash, and by name if it was ever reported; and
      what is logged. */
  method RunAskStep(config: Config, world: World)
    returns (r: Result<Payload, AskError>, trace: seq<Event>, attempts: nat, ghost asked: seq<Option<SessionId>>)
    requires Honest(world)
    ensures |asked| == attempts && Course(config, world, asked) && EndsAs(config, world, asked, r)
    ensures CallsWork(world, asked, trace) && Balanced(world, asked, trace)
    ensures config.newSession || !config.supportsResume ==>
      forall i | 0 <= i < |trace| && trace[i].Called? :: trace[i].session == world.opens(trace[i].call)
    ensures FirstEnd(config, world, attempts) && attempts <= config.maxRetries + 1
    ensures r == Verdict(config, world, attempts)
    ensures Finished(config, world, trace, attempts)
    ensures forall c: nat :: CallsOf(trace, c) == if 1 <= c <= CallsMade(config, world, attempts) then 1 else 0
    ensures AllLawful(config, world, trace)
    ensures Settled(trace, Lost(config, world, attempts))
    ensures Lost(config, world, attempts).Some? ==>
      var lost := Lost(config, world, attempts).value;
      && Opened(trace, lost) && Handed(trace, lost) == 0
      && (ReportedBy(Met(config, world, attempts)).Some? ==> Reported(trace, lost))
    ensures Logged(trace, r)
  {
    trace := [];
    var resumed: Option<SessionId> := None;
    attempts := 0;
    while true
      invariant attempts <= config.maxRetries
      invariant Running(config, world, trace, attempts, resumed)
      invariant forall j | 1 <= j <= attempts :: !Ends(config, world, j)
      decreases config.maxRetries - attempts
    {
      var end;
      end, trace, resumed := MakeAttempt(config, world, trace, attempts, resumed);
      attempts := attempts + 1;
      if end.Some? {
        LostIsReported(config, world, trace, attempts);
        CourseOf(config, world, attempts);
        FinishedMeans(config, world, trace, attempts);
        asked := AskedOf(config, world, attempts);
        if config.newSession || !config.supportsResume {
          NewSessionsOnly(config, world, asked, trace);
        }
        return end.value, trace, attempts, asked;
      }
    }
  }
}
