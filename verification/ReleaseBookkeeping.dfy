/** Recording a release as a deployment (scripts/release_validation.py, `record_deployment`,
    `recover_deployment_status` and `_validate_deployment`).

    A run may be interrupted at any write, also after the server applied it but before the reply came
    back, and is then simply started again.  Runs are one at a time and nobody else writes. */
module ReleaseBookkeeping {

  import opened Options

  /** A deployment as the server keeps it; its id is its index.  `states` are its statuses. */
  datatype Deployment = Deployment(environment: string, ref: string, sha: string, description: string, task: string,
                                   states: seq<string>)

  type Deployments = seq<Deployment>

  const ENVIRONMENT: string := "npm"
  const DESCRIPTION: string := "npm publish"
  const TASK: string := "npm-publish"
  const SUCCESS: string := "success"

  /** What becomes of a write. */
  datatype Write = Answered | ReplyLost | NotApplied

  /** What a look gives: an exception, something that is not a list (as after a 404), or everything. */
  datatype Look = Raises | NoList | Complete

  /** One run and all it meets.  `bound` says that the manifest binds to the tag and commit, `published`
      that the npm decision is complete.  A recovery names the deployment. */
  datatype Run =
    | Recording(tag: string, commit: string, bound: bool, published: bool, listing: Look, creation: Write,
                statuses: Look, status: Write)
    | Recovery(id: nat, tag: string, commit: string, bound: bool, published: bool, found: Look,
               statuses: Look, status: Write)

  // ---------------------------------------------------------------------------------
  // One run
  // ---------------------------------------------------------------------------------

  predicate Concerns(d: Deployment, tag: string) {
    d.environment == ENVIRONMENT && d.ref == tag
  }

  /** The identity `_validate_deployment` asks for. */
  predicate Identifies(d: Deployment, tag: string, commit: string) {
    Concerns(d, tag) && d.sha == commit && d.description == DESCRIPTION && d.task == TASK
  }

  predicate Ambiguous(ds: Deployments, tag: string, commit: string) {
    exists i | 0 <= i < |ds| :: Concerns(ds[i], tag) && !Identifies(ds[i], tag, commit)
  }

  /** The ids of the candidates, in the order listed. */
  function Candidates(ds: Deployments, tag: string, commit: string): (ids: seq<nat>)
    ensures forall i | 0 <= i < |ids| :: ids[i] < |ds| && Identifies(ds[ids[i]], tag, commit)
  {
    if ds == [] then []
    else
      var last := |ds| - 1;
      Candidates(ds[..last], tag, commit) + if Identifies(ds[last], tag, commit) then [last] else []
  }

  function Created(tag: string, commit: string): Deployment {
    Deployment(ENVIRONMENT, tag, commit, DESCRIPTION, TASK, [])
  }

  /** Finds or creates the deployment of the release. */
  ghost function Locate(ds: Deployments, run: Run): (Deployments, Option<nat>)
    requires run.Recording?
  {
    if !run.listing.Complete? || Ambiguous(ds, run.tag, run.commit) then (ds, None)
    else
      var ids := Candidates(ds, run.tag, run.commit);
      if |ids| > 1 then (ds, None)
      else if |ids| == 1 then (ds, Some(ids[0]))
      else
        match run.creation
        case NotApplied => (ds, None)
        case ReplyLost => (ds + [Created(run.tag, run.commit)], None)
        case Answered => (ds + [Created(run.tag, run.commit)], Some(|ds|))
  }

  /** Finds the deployment a recovery names. */
  ghost function Find(ds: Deployments, run: Run): Option<nat>
    requires run.Recovery?
  {
    if run.found.Complete? && run.id < |ds| && Identifies(ds[run.id], run.tag, run.commit) then Some(run.id) else None
  }

  function Posted(ds: Deployments, id: nat): Deployments
    requires id < |ds|
  {
    ds[id := ds[id].(states := ds[id].states + [SUCCESS])]
  }

  /** Makes sure of the success status.  Whatever is not a list counts as no status at all. */
  ghost function Ensured(ds: Deployments, id: nat, run: Run): (Deployments, Option<nat>)
    requires id < |ds|
  {
    if run.statuses.Raises? then (ds, None)
    else if run.statuses.Complete? && SUCCESS in ds[id].states then (ds, Some(id))
    else
      match run.status
      case NotApplied => (ds, None)
      case ReplyLost => (Posted(ds, id), None)
      case Answered => (Posted(ds, id), Some(id))
  }

  /** The deployments before the status is looked at, and the one it is for. */
  ghost function Reached(ds: Deployments, run: Run): (Deployments, Option<nat>) {
    if !run.bound || !run.published then (ds, None)
    else if run.Recording? then Locate(ds, run)
    else (ds, Find(ds, run))
  }

  /** The deployments after the run, and its id when it returns. */
  ghost function Perform(ds: Deployments, run: Run): (Deployments, Option<nat>) {
    var (located, id) := Reached(ds, run);
    ReachedInRange(ds, run);
    if id.None? then (located, None) else Ensured(located, id.value, run)
  }

  lemma ReachedInRange(ds: Deployments, run: Run)
    ensures var (located, id) := Reached(ds, run);
            id.Some? ==> id.value < |located| && Identifies(located[id.value], run.tag, run.commit)
  {
  }

  ghost function PerformAll(ds: Deployments, runs: seq<Run>): Deployments {
    if runs == [] then ds else Perform(PerformAll(ds, runs[..|runs| - 1]), runs[|runs| - 1]).0
  }

  // ---------------------------------------------------------------------------------
  // What is kept
  // ---------------------------------------------------------------------------------

  ghost predicate OneSuccess(d: Deployment) {
    forall i, j | 0 <= i < |d.states| && 0 <= j < |d.states| && d.states[i] == d.states[j] == SUCCESS :: i == j
  }

  ghost predicate OneFor(ds: Deployments, tag: string) {
    forall i, j | 0 <= i < |ds| && 0 <= j < |ds| && Concerns(ds[i], tag) && Concerns(ds[j], tag) :: i == j
  }

  /** At most one npm deployment for the tag, with at most one success status; anything else may be in the
      store besides. */
  ghost predicate TidyFor(ds: Deployments, tag: string) {
    OneFor(ds, tag) && forall i | 0 <= i < |ds| && Concerns(ds[i], tag) :: OneSuccess(ds[i])
  }

  /** Where the property starts from. */
  lemma NoneIsTidy(ds: Deployments, tag: string)
    requires forall i | 0 <= i < |ds| :: !Concerns(ds[i], tag)
    ensures TidyFor(ds, tag)
  {
  }

  lemma {:induction false} CandidatesComplete(ds: Deployments, tag: string, commit: string)
    ensures Candidates(ds, tag, commit) == [] ==> forall i | 0 <= i < |ds| :: !Identifies(ds[i], tag, commit)
  {
    if ds == [] {
    } else {
      var last := |ds| - 1;
      CandidatesComplete(ds[..last], tag, commit);
      forall i | 0 <= i < |ds| && Candidates(ds, tag, commit) == [] ensures !Identifies(ds[i], tag, commit) {
        assert i < last ==> ds[..last][i] == ds[i];
      }
    }
  }

  /** In a store tidy for the tag there are not two candidates. */
  lemma TidyCandidates(ds: Deployments, tag: string, commit: string)
    requires OneFor(ds, tag)
    ensures |Candidates(ds, tag, commit)| <= 1
  {
    TwoCandidates(ds, tag, commit);
  }

  lemma TwoCandidates(ds: Deployments, tag: string, commit: string)
    ensures var ids := Candidates(ds, tag, commit);
            |ids| > 1 ==> ids[0] < ids[1] < |ds| && Concerns(ds[ids[0]], tag) && Concerns(ds[ids[1]], tag)
  {
    CandidatesAscend(ds, tag, commit);
  }

  lemma PostedSuccess(d: Deployment)
    ensures OneSuccess(d.(states := d.states + [SUCCESS])) <==> SUCCESS !in d.states
  {
    var longer := d.states + [SUCCESS];
    if SUCCESS in d.states {
      var i :| 0 <= i < |d.states| && d.states[i] == SUCCESS;
      assert longer[i] == longer[|d.states|] == SUCCESS;
    } else {
      assert forall i | 0 <= i < |d.states| :: d.states[i] in d.states;
      assert forall i | 0 <= i < |longer| && longer[i] == SUCCESS :: i == |d.states|;
    }
  }

  lemma LocateKeepsTidy(ds: Deployments, run: Run, tag: string)
    requires TidyFor(ds, tag)
    ensures TidyFor(Reached(ds, run).0, tag)
  {
    if run.Recording? {
      CandidatesComplete(ds, run.tag, run.commit);
    }
  }

  lemma PostTidy(ds: Deployments, id: nat, tag: string)
    requires TidyFor(ds, tag) && id < |ds|
    ensures TidyFor(Posted(ds, id), tag) <==> !Concerns(ds[id], tag) || SUCCESS !in ds[id].states
  {
    var after := Posted(ds, id);
    PostedSuccess(ds[id]);
    assert forall i | 0 <= i < |ds| && i != id :: after[i] == ds[i];
    assert after[id] == ds[id].(states := ds[id].states + [SUCCESS]);
  }

  /** The run applies a second success status: the deployment has one, but the look at its statuses
      gave no list. */
  ghost predicate Duplicates(ds: Deployments, run: Run) {
    var (located, id) := Reached(ds, run);
    ReachedInRange(ds, run);
    run.statuses.NoList? && !run.status.NotApplied? && id.Some? && SUCCESS in located[id.value].states
  }

  /** A run keeps the store tidy for a tag exactly unless it duplicates a status of that tag. */
  lemma PerformKeepsTidy(ds: Deployments, run: Run, tag: string)
    requires TidyFor(ds, tag)
    ensures TidyFor(Perform(ds, run).0, tag) <==> !(Duplicates(ds, run) && run.tag == tag)
  {
    LocateKeepsTidy(ds, run, tag);
    ReachedInRange(ds, run);
    var (located, id) := Reached(ds, run);
    if id.Some? {
      PostTidy(located, id.value, tag);
    }
  }

  /** No later run repairs what is not tidy. */
  lemma UntidyStays(ds: Deployments, run: Run, tag: string)
    requires !TidyFor(ds, tag)
    ensures !TidyFor(Perform(ds, run).0, tag)
  {
    var after := Perform(ds, run).0;
    WritesOnlyItsOwn(ds, run);
    if OneFor(ds, tag) {
      var i :| 0 <= i < |ds| && Concerns(ds[i], tag) && !OneSuccess(ds[i]);
      MoreStatesUntidy(ds[i]);
      assert Concerns(after[i], tag) && !OneSuccess(after[i]);
    } else {
      var i, j :| 0 <= i < |ds| && 0 <= j < |ds| && Concerns(ds[i], tag) && Concerns(ds[j], tag) && i != j;
      assert Concerns(after[i], tag) && Concerns(after[j], tag);
    }
  }

  lemma MoreStatesUntidy(d: Deployment)
    requires !OneSuccess(d)
    ensures !OneSuccess(d.(states := d.states + [SUCCESS]))
  {
    var i, j :| 0 <= i < |d.states| && 0 <= j < |d.states| && d.states[i] == d.states[j] == SUCCESS && i != j;
    var longer := d.states + [SUCCESS];
    assert longer[i] == longer[j] == SUCCESS;
  }

  /** Run n duplicates a status of the tag. */
  ghost predicate DuplicatesAt(ds: Deployments, runs: seq<Run>, n: nat, tag: string)
    requires n < |runs|
  {
    Duplicates(PerformAll(ds, runs[..n]), runs[n]) && runs[n].tag == tag
  }

  ghost predicate NoneDuplicates(ds: Deployments, runs: seq<Run>, tag: string) {
    forall n | 0 <= n < |runs| :: !DuplicatesAt(ds, runs, n, tag)
  }

  lemma NoneDuplicatesSnoc(ds: Deployments, runs: seq<Run>, run: Run, tag: string)
    ensures NoneDuplicates(ds, runs + [run], tag) <==>
              NoneDuplicates(ds, runs, tag) && !(Duplicates(PerformAll(ds, runs), run) && run.tag == tag)
  {
    var longer := runs + [run];
    assert longer[..|runs|] == runs && longer[|runs|] == run;
    forall n | 0 <= n < |runs| ensures DuplicatesAt(ds, longer, n, tag) <==> DuplicatesAt(ds, runs, n, tag) {
      assert longer[..n] == runs[..n] && longer[n] == runs[n];
    }
    assert DuplicatesAt(ds, longer, |runs|, tag) <==> Duplicates(PerformAll(ds, runs), run) && run.tag == tag;
  }

  /** Over any sequence of runs of any tags, however each is interrupted: the store stays tidy for a tag
      exactly if no run duplicates a status of it. */
  lemma {:induction false} RunsKeepTidy(ds: Deployments, runs: seq<Run>, tag: string)
    requires TidyFor(ds, tag)
    ensures TidyFor(PerformAll(ds, runs), tag) <==> NoneDuplicates(ds, runs, tag)
  {
    if runs == [] {
    } else {
      var last := |runs| - 1;
      var before := runs[..last];
      RunsKeepTidy(ds, before, tag);
      assert runs == before + [runs[last]];
      NoneDuplicatesSnoc(ds, before, runs[last], tag);
      if TidyFor(PerformAll(ds, before), tag) {
        PerformKeepsTidy(PerformAll(ds, before), runs[last], tag);
      } else {
        UntidyStays(PerformAll(ds, before), runs[last], tag);
      }
    }
  }

  /** In particular when no run of the tag has a look at the statuses that comes back without a list. */
  lemma ListedRunsKeepTidy(ds: Deployments, runs: seq<Run>, tag: string)
    requires TidyFor(ds, tag)
    requires forall n | 0 <= n < |runs| && runs[n].tag == tag :: !runs[n].statuses.NoList?
    ensures TidyFor(PerformAll(ds, runs), tag)
  {
    RunsKeepTidy(ds, runs, tag);
  }

  /** From no deployment for the tag, whatever else there is: after any sequence of such runs at most one. */
  lemma FromNoneTidy(ds: Deployments, runs: seq<Run>, tag: string)
    requires forall i | 0 <= i < |ds| :: !Concerns(ds[i], tag)
    requires forall n | 0 <= n < |runs| && runs[n].tag == tag :: !runs[n].statuses.NoList?
    ensures TidyFor(PerformAll(ds, runs), tag)
  {
    NoneIsTidy(ds, tag);
    ListedRunsKeepTidy(ds, runs, tag);
  }

  ghost function Example(statuses: Look): Run {
    Recording("v1", "c", true, true, Complete, Answered, statuses, Answered)
  }

  lemma FirstRun()
    ensures Perform([], Example(Complete)) == ([Created("v1", "c").(states := [SUCCESS])], Some(0))
  {
    var none: Deployments := [];
    var created := Created("v1", "c");
    assert Candidates(none, "v1", "c") == [] && none + [created] == [created];
    assert Locate(none, Example(Complete)) == ([created], Some(0));
    assert created.states + [SUCCESS] == [SUCCESS];
    assert Posted([created], 0) == [created.(states := [SUCCESS])];
  }

  lemma SecondRunDuplicates()
    ensures Duplicates([Created("v1", "c").(states := [SUCCESS])], Example(NoList))
  {
    var ds := [Created("v1", "c").(states := [SUCCESS])];
    assert ds[..0] == [];
    assert Candidates(ds, "v1", "c") == [0];
    assert ds[0].states[0] == SUCCESS;
  }

  lemma TwoRuns(ds: Deployments, first: Run, second: Run)
    ensures PerformAll(ds, [first, second]) == Perform(Perform(ds, first).0, second).0
  {
    var runs := [first, second];
    assert runs[..1] == [first] && [first][..0] == [];
    assert PerformAll(ds, []) == ds;
    assert PerformAll(ds, [first]) == Perform(ds, first).0;
  }

  /** It does happen: the first run's status is applied, and the second run finds a 404 where it is. */
  lemma SecondSuccessPossible()
    ensures TidyFor([], "v1") && !TidyFor(PerformAll([], [Example(Complete), Example(NoList)]), "v1")
  {
    FirstRun();
    SecondRunDuplicates();
    TwoRuns([], Example(Complete), Example(NoList));
    PerformKeepsTidy([Created("v1", "c").(states := [SUCCESS])], Example(NoList), "v1");
  }

  /** A run that returns leaves exactly one deployment for its tag, the one it names, with exactly one
      success status. */
  lemma ReturnedIsRecorded(ds: Deployments, run: Run)
    requires TidyFor(ds, run.tag) && !Duplicates(ds, run)
    ensures var (after, id) := Perform(ds, run);
            id.Some? ==>
              && id.value < |after| && Identifies(after[id.value], run.tag, run.commit)
              && SUCCESS in after[id.value].states && OneSuccess(after[id.value])
              && forall i | 0 <= i < |after| && Concerns(after[i], run.tag) :: i == id.value
  {
    PerformKeepsTidy(ds, run, run.tag);
    ReachedInRange(ds, run);
    var (located, id) := Reached(ds, run);
    if id.Some? {
      var after := Posted(located, id.value);
      assert after[id.value].states[|located[id.value].states|] == SUCCESS;
    }
  }

  lemma ReachedOnlyAdds(ds: Deployments, run: Run)
    ensures var located := Reached(ds, run).0;
            located == ds || (run.bound && run.published && located == ds + [Created(run.tag, run.commit)])
  {
  }

  lemma EnsuredOnlyAdds(ds: Deployments, id: nat, run: Run)
    requires id < |ds|
    ensures var after := Ensured(ds, id, run).0;
            && |after| == |ds|
            && (forall i | 0 <= i < |ds| && i != id :: after[i] == ds[i])
            && (after[id] == ds[id] || after[id] == ds[id].(states := ds[id].states + [SUCCESS]))
  {
  }

  /** Nothing is written unless the npm decision is complete, and whatever is written concerns the
      release only: nothing else is changed, nothing at all is removed. */
  lemma WritesOnlyItsOwn(ds: Deployments, run: Run)
    ensures var after := Perform(ds, run).0;
            && (!run.published || !run.bound ==> after == ds)
            && |after| >= |ds|
            && (forall i | |ds| <= i < |after| :: Identifies(after[i], run.tag, run.commit))
            && (forall i | 0 <= i < |ds| :: after[i] == ds[i] || OneMore(ds[i], after[i], run))
  {
    ReachedInRange(ds, run);
    ReachedOnlyAdds(ds, run);
    var (located, id) := Reached(ds, run);
    if id.Some? {
      EnsuredOnlyAdds(located, id.value, run);
    }
  }

  ghost predicate OneMore(was: Deployment, now: Deployment, run: Run) {
    Identifies(was, run.tag, run.commit) && now == was.(states := was.states + [SUCCESS])
  }

  /** However earlier runs were interrupted, one undisturbed run finishes the job, unless a deployment of
      the tag has another identity. */
  lemma UndisturbedRunFinishes(ds: Deployments, run: Run)
    requires TidyFor(ds, run.tag) && run.Recording? && run.bound && run.published
    requires run.listing.Complete? && run.creation.Answered? && run.statuses.Complete? && run.status.Answered?
    ensures Perform(ds, run).1.Some? <==> !Ambiguous(ds, run.tag, run.commit)
  {
    TidyCandidates(ds, run.tag, run.commit);
  }

  /** The same for a recovery: undisturbed, it returns the deployment it names, with a success status, exactly
      if that is there with the identity of the release. */
  lemma UndisturbedRecoveryFinishes(ds: Deployments, run: Run)
    requires run.Recovery? && run.bound && run.published
    requires run.found.Complete? && run.statuses.Complete? && run.status.Answered?
    ensures var (after, id) := Perform(ds, run);
            && (id.Some? <==> run.id < |ds| && IsRelease(ds[run.id], run.tag, run.commit))
            && (id.Some? ==> id.value == run.id < |after| && "success" in after[run.id].states)
  {
    if run.id < |ds| && Find(ds, run).Some? && SUCCESS !in ds[run.id].states {
      var after := Posted(ds, run.id);
      assert after[run.id].states[|ds[run.id].states|] == SUCCESS;
    }
  }

  // ---------------------------------------------------------------------------------
  // What a run does, told from the fields of the deployments
  // ---------------------------------------------------------------------------------

  ghost predicate IsRelease(d: Deployment, tag: string, commit: string) {
    d == Deployment("npm", tag, commit, "npm publish", "npm-publish", d.states)
  }

  /** An npm deployment for the tag with another identity. */
  ghost predicate IsOther(d: Deployment, tag: string, commit: string) {
    d.environment == "npm" && d.ref == tag && !IsRelease(d, tag, commit)
  }

  /** The deployment gets its success status unless the look at its statuses raises, or shows one. */
  ghost predicate Settles(ds: Deployments, id: nat, run: Run, after: Deployments, r: Option<nat>) {
    && id < |ds|
    && if run.statuses == Raises then after == ds && r == None
       else if run.statuses == Complete && "success" in ds[id].states then after == ds && r == Some(id)
       else
         && after == (if run.status == NotApplied then ds
                      else ds[id := ds[id].(states := ds[id].states + ["success"])])
         && r == if run.status == Answered then Some(id) else None
  }

  /** Nothing is written, and the run fails. */
  ghost predicate Refuses(ds: Deployments, after: Deployments, r: Option<nat>) {
    after == ds && r == None
  }

  ghost predicate Creates(ds: Deployments, run: Run, after: Deployments, r: Option<nat>)
    requires run.Recording?
  {
    var more := ds + [Deployment("npm", run.tag, run.commit, "npm publish", "npm-publish", [])];
    match run.creation
    case NotApplied => Refuses(ds, after, r)
    case ReplyLost => after == more && r == None
    case Answered => Settles(more, |ds|, run, after, r)
  }

  /** A recording: it uses the one deployment that is the release, creates it if there is none, and refuses if
      there are several, or another one for the tag. */
  ghost predicate Records(ds: Deployments, run: Run, after: Deployments, r: Option<nat>)
    requires run.Recording?
  {
    if !run.bound || !run.published || run.listing != Complete || Confused(ds, run.tag, run.commit) then
      Refuses(ds, after, r)
    else
      && (forall id: nat | id < |ds| && IsRelease(ds[id], run.tag, run.commit) :: Settles(ds, id, run, after, r))
      && ((forall id: nat | id < |ds| :: !IsRelease(ds[id], run.tag, run.commit)) ==> Creates(ds, run, after, r))
  }

  ghost predicate Confused(ds: Deployments, tag: string, commit: string) {
    || (exists i | 0 <= i < |ds| :: IsOther(ds[i], tag, commit))
    || (exists i, j | 0 <= i < j < |ds| :: IsRelease(ds[i], tag, commit) && IsRelease(ds[j], tag, commit))
  }

  /** A recovery: it uses the deployment it names, if that is the release. */
  ghost predicate Recovers(ds: Deployments, run: Run, after: Deployments, r: Option<nat>)
    requires run.Recovery?
  {
    if run.bound && run.published && run.found == Complete
       && run.id < |ds| && IsRelease(ds[run.id], run.tag, run.commit)
    then Settles(ds, run.id, run, after, r)
    else Refuses(ds, after, r)
  }

  lemma IdentityMeans(d: Deployment, tag: string, commit: string)
    ensures Identifies(d, tag, commit) <==> IsRelease(d, tag, commit)
    ensures Concerns(d, tag) && !Identifies(d, tag, commit) <==> IsOther(d, tag, commit)
  {
  }

  lemma {:induction false} CandidateMeans(ds: Deployments, tag: string, commit: string, i: nat)
    ensures i in Candidates(ds, tag, commit) <==> i < |ds| && IsRelease(ds[i], tag, commit)
  {
    if ds == [] {
    } else {
      var last := |ds| - 1;
      CandidateMeans(ds[..last], tag, commit, i);
      IdentityMeans(ds[last], tag, commit);
    }
  }

  lemma {:induction false} CandidatesAscend(ds: Deployments, tag: string, commit: string)
    ensures var ids := Candidates(ds, tag, commit); forall i, j | 0 <= i < j < |ids| :: ids[i] < ids[j]
  {
    if ds == [] {
    } else {
      var before := ds[..|ds| - 1];
      CandidatesAscend(before, tag, commit);
      assert forall i | 0 <= i < |Candidates(before, tag, commit)| :: Candidates(before, tag, commit)[i] < |before|;
    }
  }

  /** The candidates are the ids of the deployments that are the release, each once. */
  lemma CandidatesMean(ds: Deployments, tag: string, commit: string)
    ensures var ids := Candidates(ds, tag, commit);
            && (forall i: nat :: i in ids <==> i < |ds| && IsRelease(ds[i], tag, commit))
            && (forall i, j | 0 <= i < j < |ids| :: ids[i] < ids[j])
  {
    forall i: nat ensures i in Candidates(ds, tag, commit) <==> i < |ds| && IsRelease(ds[i], tag, commit) {
      CandidateMeans(ds, tag, commit, i);
    }
    CandidatesAscend(ds, tag, commit);
  }

  lemma AmbiguousMeans(ds: Deployments, tag: string, commit: string)
    ensures Ambiguous(ds, tag, commit) || |Candidates(ds, tag, commit)| > 1 <==> Confused(ds, tag, commit)
  {
    var ids := Candidates(ds, tag, commit);
    CandidatesMean(ds, tag, commit);
    forall i | 0 <= i < |ds|
      ensures Concerns(ds[i], tag) && !Identifies(ds[i], tag, commit) <==> IsOther(ds[i], tag, commit)
    {
      IdentityMeans(ds[i], tag, commit);
    }
    if |ids| > 1 {
      assert ids[0] in ids && ids[1] in ids && ids[0] < ids[1];
    }
    if i, j: int :| 0 <= i < j < |ds| && IsRelease(ds[i], tag, commit) && IsRelease(ds[j], tag, commit) {
      assert i as nat in ids && j as nat in ids;
    }
  }

  /** Every run is exactly that. */
  lemma RecordingMeans(ds: Deployments, run: Run)
    requires run.Recording?
    ensures Records(ds, run, Perform(ds, run).0, Perform(ds, run).1)
  {
    AmbiguousMeans(ds, run.tag, run.commit);
    CandidatesMean(ds, run.tag, run.commit);
    var ids := Candidates(ds, run.tag, run.commit);
    if |ids| == 1 {
      assert ids[0] in ids;
    }
    forall id: nat | id < |ds| && IsRelease(ds[id], run.tag, run.commit) ensures id in ids {
    }
    assert |ids| > 0 ==> ids[0] in ids;
  }

  lemma RecoveryMeans(ds: Deployments, run: Run)
    requires run.Recovery?
    ensures Recovers(ds, run, Perform(ds, run).0, Perform(ds, run).1)
  {
    if run.id < |ds| {
      IdentityMeans(ds[run.id], run.tag, run.commit);
    }
  }

  // ---------------------------------------------------------------------------------
  // Against the server
  // ---------------------------------------------------------------------------------

  datatype ReleaseError = ReleaseError

  class Server {
    var deployments: Deployments

    constructor (deployments: Deployments)
      ensures this.deployments == deployments
    {
      this.deployments := deployments;
    }

    /** Creates a deployment; the reply, when it comes, is its id. */
    method PostDeployment(tag: string, commit: string, write: Write) returns (r: Result<nat, ReleaseError>)
      modifies this
      ensures deployments == old(deployments) + if write.NotApplied? then [] else [Created(tag, commit)]
      ensures r == if write.Answered? then Ok(old(|deployments|)) else Err(ReleaseError)
    {
      if !write.NotApplied? {
        deployments := deployments + [Created(tag, commit)];
      }
      r := if write.Answered? then Ok(|deployments| - 1) else Err(ReleaseError);
    }

    method PostStatus(id: nat, write: Write) returns (r: Result<(), ReleaseError>)
      requires id < |deployments|
      modifies this
      ensures deployments == if write.NotApplied? then old(deployments) else Posted(old(deployments), id)
      ensures r == if write.Answered? then Ok(()) else Err(ReleaseError)
    {
      if !write.NotApplied? {
        deployments := Posted(deployments, id);
      }
      r := if write.Answered? then Ok(()) else Err(ReleaseError);
    }

    /** The common end of both runs. */
    method EnsureSuccess(id: nat, run: Run) returns (r: Result<nat, ReleaseError>)
      requires id < |deployments|
      modifies this
      ensures deployments == Ensured(old(deployments), id, run).0
      ensures r == if Ensured(old(deployments), id, run).1.Some? then Ok(id) else Err(ReleaseError)
    {
      if run.statuses.Raises? {
        return Err(ReleaseError);
      }
      if run.statuses.Complete? && SUCCESS in deployments[id].states {
        return Ok(id);
      }
      var posted := PostStatus(id, run.status);
      r := if posted.Ok? then Ok(id) else Err(ReleaseError);
    }

    method RecordDeployment(run: Run) returns (r: Result<nat, ReleaseError>)
      requires run.Recording?
      modifies this
      ensures Records(old(deployments), run, deployments, if r.Ok? then Some(r.value) else None)
      ensures deployments == Perform(old(deployments), run).0
      ensures r == var id := Perform(old(deployments), run).1; if id.Some? then Ok(id.value) else Err(ReleaseError)
    {
      ghost var before := deployments;
      if !run.bound || !run.published || !run.listing.Complete? || Ambiguous(deployments, run.tag, run.commit) {
        r := Err(ReleaseError);
      } else {
        r := UseOrCreate(run, Candidates(deployments, run.tag, run.commit));
      }
      RecordingMeans(before, run);
    }

    /** With the candidates in hand. */
    method UseOrCreate(run: Run, ids: seq<nat>) returns (r: Result<nat, ReleaseError>)
      requires run.Recording? && run.bound && run.published && run.listing.Complete?
      requires !Ambiguous(deployments, run.tag, run.commit) && ids == Candidates(deployments, run.tag, run.commit)
      modifies this
      ensures deployments == Perform(old(deployments), run).0
      ensures r == var id := Perform(old(deployments), run).1; if id.Some? then Ok(id.value) else Err(ReleaseError)
    {
      if |ids| > 1 {
        return Err(ReleaseError);
      }
      var id;
      if |ids| == 1 {
        id := ids[0];
      } else {
        var created := PostDeployment(run.tag, run.commit, run.creation);
        if created.Err? {
          return Err(ReleaseError);
        }
        id := created.value;
      }
      r := EnsureSuccess(id, run);
    }

    method RecoverDeploymentStatus(run: Run) returns (r: Result<nat, ReleaseError>)
      requires run.Recovery?
      modifies this
      ensures Recovers(old(deployments), run, deployments, if r.Ok? then Some(r.value) else None)
      ensures deployments == Perform(old(deployments), run).0
      ensures r == var id := Perform(old(deployments), run).1; if id.Some? then Ok(id.value) else Err(ReleaseError)
    {
      ghost var before := deployments;
      if !run.bound || !run.published || !run.found.Complete?
         || run.id >= |deployments| || !Identifies(deployments[run.id], run.tag, run.commit) {
        r := Err(ReleaseError);
      } else {
        r := EnsureSuccess(run.id, run);
      }
      RecoveryMeans(before, run);
    }
  }
}
