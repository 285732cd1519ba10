/** One whole apply step, from the first look at the checkout to the last
    (src/ai_push_hooks/executors/apply.py, `run_apply_step`). */
module ApplyStep {

  import opened Options
  import opened Ordering
  import opened ApplyChecks
  import opened ApplyTrace
  import opened ApplyRun
  import opened ApplyPromise

  /** What one run looked at, copied, found and set out to do. */
  datatype Account = Account(paths: seq<Path>, baselines: Files, after: Inventory, ops: seq<Operation>)

  const NOTHING: Account := Account([], map[], map[], [])

  ghost predicate SteadyHead(outside: Outside) {
    forall n, files, m, other {:trigger outside.repo(n, files), outside.repo(m, other)} ::
      outside.repo(n, files).head == outside.repo(m, other).head
  }

  /** The conditions before the first write. */
  ghost predicate Prepared(request: Request, files: Files) {
    && Projectable(request.rules, request.access, files)
    && GoodOutput(request, Projected(request.rules, request.access, files))
  }

  /** Once the operations are done, the ignore rules bring no untracked file outside of them to light. */
  ghost predicate NoneExposed(outside: Outside, was: Files, files: Files, changed: set<Path>) {
    forall p | p !in changed && Untracked(outside.repo(0, files), files, p) :: Untracked(outside.repo(0, was), was, p)
  }

  /** Everything that has to be right with the request, the runner and the files for the step to
      succeed when nothing outside gets in the way. */
  ghost predicate Fine(request: Request, outside: Outside, files: Files) {
    var baselines := Projected(request.rules, request.access, files);
    && Prepared(request, files)
    && var after := Inventoried(Edited(request, baselines));
       var changed := ChangedPaths(request.rules, Copied(baselines), after).value;
       && (forall p | p in changed :: At(files, p) == At(baselines, p))
       && (forall ops | Implements(ops, baselines, after, changed) ::
             NoneExposed(outside, files, PutAll(files, ops), changed))
  }

  /** What the account of a run says about the changed paths. */
  ghost predicate Accounts(request: Request, account: Account, changed: set<Path>) {
    && account.after == Inventoried(Edited(request, account.baselines))
    && ChangedPaths(request.rules, Copied(account.baselines), account.after) == Ok(changed)
    && Implements(account.ops, account.baselines, account.after, changed)
  }

  ghost function PatchedNode(account: Account, was: Files, changed: set<Path>, path: Path): Node {
    if path in changed then OperationFor(account.baselines, account.after, path).target else At(was, path)
  }

  lemma ImplementsDistinct(ops: seq<Operation>, baselines: Files, after: Inventory, changed: set<Path>)
    requires Implements(ops, baselines, after, changed)
    ensures DistinctPaths(ops)
    ensures forall i | 0 <= i < |ops| :: ops[i].path in changed
  {
    var paths := Paths(ops);
    forall i | 0 <= i < |ops| ensures ops[i].path in changed {
      assert paths[i] in changed;
    }
    forall i, j | 0 <= i < j < |ops| ensures ops[i].path != ops[j].path {
      if paths[i] == paths[j] {
        AscendingDistinct(paths, i, j);
      }
    }
  }

  /** The account determines the operations. */
  lemma OneImplementation(ops: seq<Operation>, others: seq<Operation>, baselines: Files, after: Inventory,
                          changed: set<Path>)
    requires Implements(ops, baselines, after, changed) && Implements(others, baselines, after, changed)
    ensures ops == others
  {
    SortedListingIsUnique(Paths(ops), Paths(others), changed);
    forall i | 0 <= i < |ops| ensures |others| == |ops| && ops[i] == others[i] {
      assert Paths(ops)[i] == Paths(others)[i];
    }
  }

  /** A checkout with the operations patched in is, path by path, the staged diff on the old one. */
  lemma PatchedMeans(account: Account, was: Files, files: Files, changed: set<Path>)
    requires Implements(account.ops, account.baselines, account.after, changed)
    requires Patched(was, account.ops, files)
    ensures forall p :: At(files, p) == PatchedNode(account, was, changed, p)
    ensures MatchesExpected(Expected(account.baselines, account.after, changed), files)
  {
    var ops := account.ops;
    ImplementsDistinct(ops, account.baselines, account.after, changed);
    forall p ensures At(files, p) == PatchedNode(account, was, changed, p) {
      if p in changed {
        assert p in Paths(ops);
        var i :| 0 <= i < |ops| && Paths(ops)[i] == p;
        assert ops[i] == OperationFor(account.baselines, account.after, ops[i].path);
      } else {
        assert forall i | 0 <= i < |ops| :: ops[i].path != p;
      }
    }
    var expected := Expected(account.baselines, account.after, changed);
    forall p | p in expected ensures Meets(expected[p], At(files, p)) {
      assert At(files, p) == PatchedNode(account, was, changed, p);
      if p in account.after {
        ModeBits(ConservativeMode(At(account.baselines, p), account.after[p].mode));
      }
    }
  }

  lemma ModeBits(mode: Mode)
    ensures (REGULAR | mode) & ALL_BITS == mode & ALL_BITS
  {
  }

  /** In favourable circumstances the operations are accepted exactly when each path still is what was
      copied. */
  lemma MatchesMeans(account: Account, was: Files, changed: set<Path>)
    requires Implements(account.ops, account.baselines, account.after, changed)
    ensures (forall i | 0 <= i < |account.ops| :: Matches(was, account.ops[i])) <==>
            forall p | p in changed :: At(was, p) == At(account.baselines, p)
  {
    var ops := account.ops;
    ImplementsDistinct(ops, account.baselines, account.after, changed);
    forall i | 0 <= i < |ops|
      ensures Matches(was, ops[i]) <==> At(was, ops[i].path) == At(account.baselines, ops[i].path)
    {
      assert ops[i] == OperationFor(account.baselines, account.after, ops[i].path);
    }
    forall p | p in changed ensures exists i | 0 <= i < |ops| :: ops[i].path == p {
      assert p in Paths(ops);
      var i :| 0 <= i < |ops| && Paths(ops)[i] == p;
      assert ops[i].path == p;
    }
  }

  // ---------------------------------------------------------------------------------
  // The step in three parts
  // ---------------------------------------------------------------------------------

  /** What the first look at the checkout recorded. */
  type Look = Recorded<Metadata>

  ghost function FirstLook(outside: Outside, clock: nat, was: Files): Look {
    Record(outside.repo(clock, was), was, outside.metadata(clock))
  }

  /** The checkout after each of the first n steps. */
  ghost function SeenAlong(start: Files, trace: seq<Step>, n: nat): (seen: seq<Files>)
    requires n <= |trace|
    ensures |seen| == n
  {
    if n == 0 then [] else SeenAlong(start, trace, n - 1) + [Replay(start, trace[..n])]
  }

  lemma {:induction false} AllSeenAlong(start: Files, trace: seq<Step>, seen: seq<Files>, n: nat)
    requires n <= |seen| <= |trace| && AllSeen(start, trace, 0, seen)
    ensures SeenAlong(start, trace, n) == seen[..n]
  {
    if n == 0 {
    } else {
      AllSeenAlong(start, trace, seen, n - 1);
      assert SeenAt(start, trace, 0, n - 1, seen[n - 1]);
      assert seen[..n] == seen[..n - 1] + [seen[n - 1]];
    }
  }

  lemma {:induction false} SeenAlongLonger(start: Files, trace: seq<Step>, longer: seq<Step>, n: nat)
    requires n <= |trace| && trace <= longer
    ensures SeenAlong(start, longer, n) == SeenAlong(start, trace, n)
  {
    if n == 0 {
    } else {
      SeenAlongLonger(start, trace, longer, n - 1);
      assert longer[..n] == trace[..n];
    }
  }

  /** The baselines are what the copy found, looking at each candidate path in its own moment. */
  ghost predicate CopiedAlong(request: Request, start: Files, trace: seq<Step>, paths: seq<Path>, baselines: Files) {
    && |paths| <= |trace|
    && Lists(paths, request.access.candidates)
    && NoneBlocked(request.rules, request.access, paths, SeenAlong(start, trace, |paths|))
    && baselines == CopiedFrom(request.rules, request.access, paths, SeenAlong(start, trace, |paths|), |paths|)
  }

  method Project(checkout: Checkout, request: Request)
    returns (look: Look, r: Result<Files, ApplyError>, paths: seq<Path>)
    modifies checkout
    ensures checkout.Valid() && checkout.first == old(checkout.clock) && checkout.start == old(checkout.files)
    ensures Writes(checkout.trace) == []
    ensures look == FirstLook(checkout.outside, old(checkout.clock), old(checkout.files))
    ensures r.Ok? ==>
      && |checkout.trace| == |paths| && checkout.clock == old(checkout.clock) + |paths|
      && CopiedAlong(request, checkout.start, checkout.trace, paths, r.value)
    ensures r.Err? ==> r.error.Unprojectable?
    ensures Still(checkout.outside) ==>
      && checkout.files == old(checkout.files)
      && (r.Ok? <==> Projectable(request.rules, request.access, old(checkout.files)))
      && (r.Ok? ==> r.value == Projected(request.rules, request.access, old(checkout.files)))
  {
    checkout.Watch();
    var repo := checkout.outside.repo(checkout.clock, checkout.files);
    look := Record(repo, checkout.files, checkout.outside.metadata(checkout.clock));
    ghost var was := checkout.files;
    ghost var seen;
    r, paths, seen := checkout.CopyToStaging(request.rules, request.access);
    if r.Ok? {
      AllSeenAlong(checkout.start, checkout.trace, seen, |seen|);
      assert seen[..|seen|] == seen;
    }
    if r.Ok? && Still(checkout.outside) {
      StillIsProjected(request.rules, request.access, paths, seen, was);
    }
    if r.Err? && Still(checkout.outside) {
      StillIsBlocked(request.rules, request.access, paths, |seen| - 1, was);
    }
  }

  /** Nothing Git can see has changed, nor the index, nor the Git control metadata. */
  ghost predicate NothingMoved(outside: Outside, clock: nat, now: nat, was: Files, files: Files) {
    var repo, later := outside.repo(clock, was), outside.repo(now, files);
    && later.index == repo.index
    && outside.metadata(now) == outside.metadata(clock)
    && forall p :: Untouched(repo, was, later, files, p)
  }

  /** The look before propagation. */
  method Looked(checkout: Checkout, look: Look, ghost clock: nat, ghost was: Files) returns (passed: bool)
    requires checkout.Valid() && SteadyHead(checkout.outside)
    requires look == FirstLook(checkout.outside, clock, was)
    ensures passed <==> NothingMoved(checkout.outside, clock, checkout.clock, was, checkout.files)
    ensures Favourable(checkout.outside) && checkout.files == was ==> passed
  {
    var outside := checkout.outside;
    var repo, metadata := outside.repo(checkout.clock, checkout.files), outside.metadata(checkout.clock);
    PreCheckMeans(outside.repo(clock, was), was, outside.metadata(clock), repo, checkout.files, metadata);
    passed := PreCheck(look, repo, checkout.files, metadata);
  }

  /** Turns an acceptable diff of the workspace into operations. */
  method Accept(request: Request, paths: seq<Path>, baselines: Files)
    returns (r: Result<set<Path>, ApplyError>, account: Account)
    ensures r.Ok? <==> GoodOutput(request, baselines)
    ensures r.Ok? ==>
      Accounts(request, account, r.value) && account.baselines == baselines && account.paths == paths
    ensures r.Err? ==> !r.error.PropagationFailed? && !r.error.PostCheckFailed?
  {
    account := NOTHING;
    var (staging, end) := request.runner(StagedCopy(baselines));
    var after := Inventoried(staging);
    var changed := ChangedPaths(request.rules, Copied(baselines), after);
    if end == Raised || !Inventoriable(staging) || changed.Err? {
      return Err(if end == Raised then RunnerFailed else StagingRefused), account;
    }
    if end != Exited(0) {
      return Err(RunnerFailed), account;
    }
    if exists p :: p in changed.value && request.refused(p) {
      return Err(IgnoredOutput), account;
    }
    var ops := BuildOperations(baselines, after, request.reread(staging), changed.value);
    if ops.Err? {
      return Err(ops.error), account;
    }
    account := Account(paths, baselines, after, ops.value);
    r := Ok(changed.value);
  }

  /** The looks before the first write: the permitted part of the checkout was copied, one path after the
      other, and at a look after the runner nothing had moved. */
  ghost predicate LooksFirst(request: Request, outside: Outside, clock: nat, was: Files, trace: seq<Step>,
                             paths: seq<Path>, baselines: Files) {
    var n := |paths| + 1;
    && n <= |trace|
    && CopiedAlong(request, was, trace, paths, baselines)
    && Writes(trace[..n]) == []
    && NothingMoved(outside, clock, clock + n, was, Replay(was, trace[..n]))
  }

  lemma LookedFirst(request: Request, outside: Outside, clock: nat, was: Files, copied: seq<Step>, trace: seq<Step>,
                    paths: seq<Path>, baselines: Files)
    requires |trace| == |paths| + 1 && copied <= trace && Writes(trace) == []
    requires CopiedAlong(request, was, copied, paths, baselines)
    requires NothingMoved(outside, clock, clock + |trace|, was, Replay(was, trace))
    ensures LooksFirst(request, outside, clock, was, trace, paths, baselines)
  {
    assert trace[..|trace|] == trace;
    SeenAlongLonger(was, copied, trace, |paths|);
  }

  /** While the runner runs anybody may touch the checkout, so it is looked at before anything else. */
  method Validate(checkout: Checkout, request: Request, look: Look, paths: seq<Path>, baselines: Files,
                  ghost clock: nat, ghost was: Files)
    returns (r: Result<set<Path>, ApplyError>, account: Account)
    requires checkout.Valid() && SteadyHead(checkout.outside)
    requires look == FirstLook(checkout.outside, clock, was)
    requires checkout.start == was && Writes(checkout.trace) == []
    requires |checkout.trace| == |paths| && checkout.clock == clock + |paths|
    requires CopiedAlong(request, was, checkout.trace, paths, baselines)
    modifies checkout
    ensures checkout.Valid() && checkout.GoesOn() && Writes(checkout.trace) == []
    ensures Still(checkout.outside) ==> checkout.files == old(checkout.files)
    ensures r.Ok? <==>
      && GoodOutput(request, baselines)
      && NothingMoved(checkout.outside, clock, checkout.clock, was, checkout.files)
    ensures r.Ok? ==> LooksFirst(request, checkout.outside, clock, was, checkout.trace, paths, baselines)
    ensures r.Ok? ==>
      Accounts(request, account, r.value) && account.baselines == baselines && account.paths == paths
    ensures r.Err? ==> !r.error.PropagationFailed? && !r.error.PostCheckFailed?
    ensures Favourable(checkout.outside) && old(checkout.files) == was ==> (r.Ok? <==> GoodOutput(request, baselines))
  {
    ghost var copied := checkout.trace;
    checkout.Elapse();
    var passed := Looked(checkout, look, clock, was);
    r, account := Accept(request, paths, baselines);
    if passed {
      LookedFirst(request, checkout.outside, clock, was, copied, checkout.trace, paths, baselines);
    } else {
      r := Err(CheckoutChanged);
    }
  }

  /** No path is permitted that is guarded, so none of the operations is. */
  lemma OperationsUnguarded(request: Request, account: Account, changed: set<Path>)
    requires Accounts(request, account, changed)
    ensures forall i | 0 <= i < |account.ops| :: !request.rules.guarded(account.ops[i].path)
    ensures DistinctPaths(account.ops)
  {
    ImplementsDistinct(account.ops, account.baselines, account.after, changed);
    ChangedPathsMeans(request.rules, Copied(account.baselines), account.after);
  }

  /** Every changed path is as staged, and every other path was spared. */
  ghost predicate Delivered(account: Account, changed: set<Path>, outside: Outside, clock: nat, now: nat,
                            was: Files, files: Files) {
    var repo, later := outside.repo(clock, was), outside.repo(now, files);
    && later.index == repo.index
    && outside.metadata(now) == outside.metadata(clock)
    && MatchesExpected(Expected(account.baselines, account.after, changed), files)
    && forall p | p !in changed :: Spared(repo, was, later, files, p)
  }

  /** The last look. */
  method Confirm(checkout: Checkout, look: Look, account: Account, changed: set<Path>, request: Request,
                 ghost clock: nat, ghost was: Files) returns (passed: bool)
    requires checkout.Valid() && SteadyHead(checkout.outside)
    requires look == FirstLook(checkout.outside, clock, was)
    requires Accounts(request, account, changed)
    ensures passed <==> Delivered(account, changed, checkout.outside, clock, checkout.clock, was, checkout.files)
    ensures Favourable(checkout.outside) && Patched(was, account.ops, checkout.files) ==>
              (passed <==> NoneExposed(checkout.outside, was, checkout.files, changed))
  {
    var outside := checkout.outside;
    var repo, metadata := outside.repo(checkout.clock, checkout.files), outside.metadata(checkout.clock);
    var expected := Expected(account.baselines, account.after, changed);
    PostCheckMeans(outside.repo(clock, was), was, outside.metadata(clock), repo, checkout.files, metadata,
                   changed, expected);
    passed := PostCheck(look, repo, checkout.files, metadata, changed, expected);
    if Favourable(outside) && Patched(was, account.ops, checkout.files) {
      FavourableDelivery(outside, account, changed, clock, checkout.clock, was, checkout.files);
    }
  }

  /** In favourable circumstances only the ignore rules can make the last look fail. */
  lemma FavourableDelivery(outside: Outside, account: Account, changed: set<Path>, clock: nat, now: nat,
                           was: Files, files: Files)
    requires Favourable(outside)
    requires Implements(account.ops, account.baselines, account.after, changed) && Patched(was, account.ops, files)
    ensures Delivered(account, changed, outside, clock, now, was, files) <==> NoneExposed(outside, was, files, changed)
  {
    PatchedMeans(account, was, files, changed);
    var repo, later := outside.repo(clock, was), outside.repo(now, files);
    assert repo == outside.repo(0, was) && later == outside.repo(0, files);
    forall p | p !in changed
      ensures Spared(repo, was, later, files, p) <==> (Untracked(later, files, p) ==> Untracked(repo, was, p))
    {
      assert At(files, p) == PatchedNode(account, was, changed, p) == At(was, p);
    }
  }

  /** Writes the operations and looks once more. */
  method Deliver(checkout: Checkout, request: Request, look: Look, account: Account, changed: set<Path>,
                 ghost clock: nat, ghost was: Files)
    returns (error: Option<ApplyError>)
    requires checkout.Valid() && SteadyHead(checkout.outside)
    requires look == FirstLook(checkout.outside, clock, was)
    requires Accounts(request, account, changed)
    requires checkout.start == was && Writes(checkout.trace) == []
    requires Still(checkout.outside) ==> checkout.files == was
    modifies checkout
    ensures checkout.Valid() && checkout.GoesOn()
    ensures error.None? ==> Writes(checkout.trace) == account.ops
    ensures error.None? ==> Delivered(account, changed, checkout.outside, clock, checkout.clock, was, checkout.files)
    ensures error.None? && Still(checkout.outside) ==> Patched(was, account.ops, checkout.files)
    ensures error.Some? ==> Reports(error.value, account.ops, Writes(checkout.trace))
    ensures Favourable(checkout.outside) ==>
      (error.None? <==>
        && (forall i | 0 <= i < |account.ops| :: Matches(was, account.ops[i]))
        && NoneExposed(checkout.outside, was, PutAll(was, account.ops), changed))
  {
    var applied;
    OperationsUnguarded(request, account, changed);
    error, applied := checkout.Propagate(request.rules, account.ops);
    if error.Some? {
      assert [] + account.ops[..|applied|] == account.ops[..|applied|];
      return;
    }
    assert account.ops[..|applied|] == account.ops;
    checkout.Elapse();
    if Still(checkout.outside) {
      StillIsQuiet(checkout.outside, checkout.first, checkout.start, checkout.trace);
      QuietIsPatched(checkout.start, checkout.trace);
      QuietIsPutAll(checkout.start, checkout.trace);
    }
    var passed := Confirm(checkout, look, account, changed, request, clock, was);
    error := if passed then None else Some(PostCheckFailed(Paths(account.ops)));
  }

  /** What an error says of the writes done: none, unless it lists them. */
  ghost predicate Reports(error: ApplyError, ops: seq<Operation>, writes: seq<Operation>) {
    && writes <= ops
    && match error
       case PropagationFailed(applied) => applied == Paths(writes)
       case PostCheckFailed(applied) => writes == ops && applied == Paths(writes)
       case _ => writes == []
  }

  /** What has to have happened before the first write: these looks, and the runner succeeded and left
      acceptable output. */
  ghost predicate Lawful(request: Request, outside: Outside, clock: nat, was: Files, trace: seq<Step>,
                         account: Account, changed: set<Path>) {
    && LooksFirst(request, outside, clock, was, trace, account.paths, account.baselines)
    && GoodOutput(request, account.baselines)
    && Accounts(request, account, changed)
  }

  lemma LooksFirstLonger(request: Request, outside: Outside, clock: nat, was: Files, trace: seq<Step>,
                         longer: seq<Step>, paths: seq<Path>, baselines: Files)
    requires LooksFirst(request, outside, clock, was, trace, paths, baselines) && trace <= longer
    ensures LooksFirst(request, outside, clock, was, longer, paths, baselines)
  {
    var n := |paths| + 1;
    assert longer[..n] == trace[..n];
    SeenAlongLonger(was, trace, longer, |paths|);
  }

  lemma LawfulLonger(request: Request, outside: Outside, clock: nat, was: Files, trace: seq<Step>, longer: seq<Step>,
                     account: Account, changed: set<Path>)
    requires Lawful(request, outside, clock, was, trace, account, changed) && trace <= longer
    ensures Lawful(request, outside, clock, was, longer, account, changed)
  {
    LooksFirstLonger(request, outside, clock, was, trace, longer, account.paths, account.baselines);
  }

  /** Everything before the first write. */
  method Prepare(checkout: Checkout, request: Request)
    returns (look: Look, r: Result<set<Path>, ApplyError>, account: Account)
    requires SteadyHead(checkout.outside)
    modifies checkout
    ensures checkout.Valid() && checkout.first == old(checkout.clock) && checkout.start == old(checkout.files)
    ensures look == FirstLook(checkout.outside, old(checkout.clock), old(checkout.files))
    ensures Writes(checkout.trace) == []
    ensures r.Ok? ==>
      Lawful(request, checkout.outside, old(checkout.clock), old(checkout.files), checkout.trace, account, r.value)
    ensures r.Err? ==> !r.error.PropagationFailed? && !r.error.PostCheckFailed? && account == NOTHING
    ensures Still(checkout.outside) ==> checkout.files == old(checkout.files)
    ensures Still(checkout.outside) && r.Ok? ==>
      account.baselines == Projected(request.rules, request.access, old(checkout.files))
    ensures Favourable(checkout.outside) ==> (r.Ok? <==> Prepared(request, old(checkout.files)))
  {
    ghost var was, clock := checkout.files, checkout.clock;
    var projected, paths;
    look, projected, paths := Project(checkout, request);
    if projected.Err? {
      return look, Err(projected.error), NOTHING;
    }
    r, account := Validate(checkout, request, look, paths, projected.value, clock, was);
    account := if r.Ok? then account else NOTHING;
  }

  /** The condition on the operations, for the only ones there are. */
  lemma FineMeans(request: Request, outside: Outside, files: Files, account: Account, changed: set<Path>)
    requires account.baselines == Projected(request.rules, request.access, files)
    requires Prepared(request, files)
    requires Accounts(request, account, changed)
    ensures Fine(request, outside, files) <==>
              && (forall i | 0 <= i < |account.ops| :: Matches(files, account.ops[i]))
              && NoneExposed(outside, files, PutAll(files, account.ops), changed)
  {
    MatchesMeans(account, files, changed);
    forall ops | Implements(ops, account.baselines, account.after, changed) ensures ops == account.ops {
      OneImplementation(ops, account.ops, account.baselines, account.after, changed);
    }
  }

  // ---------------------------------------------------------------------------------
  // The same, said of files alone
  // ---------------------------------------------------------------------------------

  /** The runner was given the workspace `given`, copied from the checkout path by path, left `left`, which is
      acceptable, and the operations are the difference. */
  ghost predicate Planning(request: Request, start: Files, trace: seq<Step>, account: Account, given: Files,
                           left: Files) {
    && |account.paths| <= |trace|
    && GivenFrom(request, account.paths, SeenAlong(start, trace, |account.paths|), account.baselines, given)
    && Accepted(request, given, left)
    && Planned(given, left, account.baselines, account.ops)
  }

  ghost predicate Planful(request: Request, start: Files, trace: seq<Step>, account: Account) {
    exists given, left :: Planning(request, start, trace, account, given, left)
  }

  /** That, and each changed path holds what it is to hold. */
  ghost predicate Fulfilled(request: Request, start: Files, trace: seq<Step>, account: Account, changed: set<Path>,
                            files: Files) {
    exists given, left ::
      && Planning(request, start, trace, account, given, left)
      && Placed(given, left, account.baselines, changed, files)
  }

  lemma LawfulIsPlanned(request: Request, outside: Outside, clock: nat, was: Files, trace: seq<Step>,
                        account: Account, changed: set<Path>)
    requires Lawful(request, outside, clock, was, trace, account, changed)
    ensures Planning(request, was, trace, account, StagedCopy(account.baselines), Edited(request, account.baselines))
    ensures forall p ::
              p in changed <==> Changed(StagedCopy(account.baselines), Edited(request, account.baselines), p)
  {
    var seen := SeenAlong(was, trace, |account.paths|);
    var given, left := StagedCopy(account.baselines), Edited(request, account.baselines);
    assert LooksFirst(request, outside, clock, was, trace, account.paths, account.baselines);
    CopiedIsGiven(request, outside, clock, was, trace, account.paths, account.baselines);
    GoodOutputMeans(request, account.baselines);
    ChangedSetMeans(request, given, left);
    ImplementsMeans(given, left, account.baselines, account.ops, changed);
  }

  lemma CopiedIsGiven(request: Request, outside: Outside, clock: nat, was: Files, trace: seq<Step>, paths: seq<Path>,
                      baselines: Files)
    requires LooksFirst(request, outside, clock, was, trace, paths, baselines)
    ensures GivenFrom(request, paths, SeenAlong(was, trace, |paths|), baselines, StagedCopy(baselines))
    ensures forall p | p in baselines :: baselines[p].File?
  {
    var seen := SeenAlong(was, trace, |paths|);
    CopyIsGiven(request, paths, seen, baselines);
    CopiedFromMeans(request, paths, seen, |paths|);
  }

  lemma DeliveredIsPlaced(request: Request, outside: Outside, clock: nat, now: nat, was: Files, trace: seq<Step>,
                          account: Account, changed: set<Path>, files: Files)
    requires Lawful(request, outside, clock, was, trace, account, changed)
    requires Delivered(account, changed, outside, clock, now, was, files)
    ensures Fulfilled(request, was, trace, account, changed, files)
  {
    var given, left := StagedCopy(account.baselines), Edited(request, account.baselines);
    LawfulIsPlanned(request, outside, clock, was, trace, account, changed);
    ExpectedMeans(given, left, account.baselines, changed, files);
  }

  /** Undisturbed, the step has to succeed exactly here: everything the copy comes upon can be copied, what the
      runner makes of it is acceptable, every path to be written still is what was copied of it, and the writes
      bring no other untracked file to light. */
  ghost predicate Grantable(request: Request, outside: Outside, files: Files) {
    exists given, left, baselines, ops :: Granted(request, outside, files, given, left, baselines, ops)
  }

  ghost predicate Granted(request: Request, outside: Outside, files: Files, given: Files, left: Files,
                          baselines: Files, ops: seq<Operation>) {
    && GivenOf(request, files, baselines, given)
    && Accepted(request, given, left)
    && Planned(given, left, baselines, ops)
    && (forall i | 0 <= i < |ops| :: Matches(files, ops[i]))
    && var after := PutAll(files, ops);
       forall p | !Changed(given, left, p) && Untracked(outside.repo(0, after), after, p) ::
         Untracked(outside.repo(0, files), files, p)
  }

  /** The plan of a granted step is the account of the run. */
  lemma GrantedAccounts(request: Request, outside: Outside, files: Files, given: Files, left: Files,
                        baselines: Files, ops: seq<Operation>)
    requires Granted(request, outside, files, given, left, baselines, ops)
    ensures Prepared(request, files)
    ensures var account := Account([], Projected(request.rules, request.access, files), Inventoried(left), ops);
            var changed := ChangedPaths(request.rules, Inventoried(given), Inventoried(left));
            && changed.Ok? && Accounts(request, account, changed.value)
            && forall p :: p in changed.value <==> Changed(given, left, p)
  {
    var projected := Projected(request.rules, request.access, files);
    GivenIsProjected(request, files, baselines, given);
    forall p | p in projected ensures projected[p].File? {
      ProjectedMeans(request, files, p);
    }
    GoodOutputMeans(request, projected);
    ChangedSetMeans(request, given, left);
    var changed := ChangedPaths(request.rules, Inventoried(given), Inventoried(left)).value;
    assert Planned(given, left, projected, ops);
    ImplementsMeans(given, left, projected, ops, changed);
  }

  lemma GrantableIsFine(request: Request, outside: Outside, files: Files)
    requires Grantable(request, outside, files)
    ensures Fine(request, outside, files)
  {
    var given, left, baselines, ops :| Granted(request, outside, files, given, left, baselines, ops);
    var account := Account([], Projected(request.rules, request.access, files), Inventoried(left), ops);
    GrantedAccounts(request, outside, files, given, left, baselines, ops);
    var changed := ChangedPaths(request.rules, Inventoried(given), Inventoried(left)).value;
    FineMeans(request, outside, files, account, changed);
  }

  lemma FineIsGrantable(request: Request, outside: Outside, files: Files, account: Account, changed: set<Path>)
    requires Fine(request, outside, files)
    requires account.baselines == Projected(request.rules, request.access, files)
    requires Accounts(request, account, changed)
    ensures Grantable(request, outside, files)
  {
    var baselines := account.baselines;
    var given, left := StagedCopy(baselines), Edited(request, baselines);
    FineMeans(request, outside, files, account, changed);
    ProjectedIsGiven(request, files);
    forall p | p in baselines ensures baselines[p].File? {
      ProjectedMeans(request, files, p);
    }
    GoodOutputMeans(request, baselines);
    ChangedSetMeans(request, given, left);
    ImplementsMeans(given, left, baselines, account.ops, changed);
    assert Granted(request, outside, files, given, left, baselines, account.ops);
  }

  /** The step.  What it promises, for every runner and everything others may do meanwhile:
      - nothing is written unless the run so far was lawful; if propagation fails, the paths reported are
        the paths written, and they are a prefix of the sorted changed paths;
      - when it returns, exactly the paths that differ in the workspace were written, all of them
        permitted, each over the state it was copied from (`Valid`, by `HistoryMeans`), and every other path
        that Git sees was spared;
      - when nobody else touches the checkout it is the old one with the diff patched in;
      - when nothing outside gets in the way it returns exactly if the request is fine. */
  method RunApplyStep(checkout: Checkout, request: Request)
    returns (r: Result<set<Path>, ApplyError>, ghost account: Account)
    requires SteadyHead(checkout.outside)
    modifies checkout
    ensures checkout.Valid() && checkout.first == old(checkout.clock) && checkout.start == old(checkout.files)
    ensures r.Ok? ==>
      && Lawful(request, checkout.outside, old(checkout.clock), old(checkout.files), checkout.trace, account, r.value)
      && Writes(checkout.trace) == account.ops
      && Delivered(account, r.value, checkout.outside, old(checkout.clock), checkout.clock,
                   old(checkout.files), checkout.files)
    ensures r.Ok? ==>
      Fulfilled(request, checkout.start, checkout.trace, account, r.value, checkout.files)
    ensures account.ops == [] || Planful(request, checkout.start, checkout.trace, account)
    ensures r.Ok? && Still(checkout.outside) ==>
      && account.baselines == Projected(request.rules, request.access, old(checkout.files))
      && forall p :: At(checkout.files, p) == PatchedNode(account, old(checkout.files), r.value, p)
    ensures r.Err? ==>
      && Reports(r.error, account.ops, Writes(checkout.trace))
      && (account.ops == [] || exists changed ::
            Lawful(request, checkout.outside, old(checkout.clock), old(checkout.files), checkout.trace,
                   account, changed))
    ensures Favourable(checkout.outside) ==> (r.Ok? <==> Grantable(request, checkout.outside, old(checkout.files)))
  {
    ghost var was, clock := checkout.files, checkout.clock;
    var look, prepared, plan := Prepare(checkout, request);
    account := plan;
    if Grantable(request, checkout.outside, was) {
      GrantableIsFine(request, checkout.outside, was);
    }
    if prepared.Err? {
      return prepared, account;
    }
    ghost var looked := checkout.trace;
    var error := Deliver(checkout, request, look, plan, prepared.value, clock, was);
    LawfulLonger(request, checkout.outside, clock, was, looked, checkout.trace, plan, prepared.value);
    LawfulIsPlanned(request, checkout.outside, clock, was, checkout.trace, plan, prepared.value);
    r := if error.Some? then Err(error.value) else prepared;
    if r.Ok? {
      DeliveredIsPlaced(request, checkout.outside, clock, checkout.clock, was, checkout.trace, plan, r.value,
                        checkout.files);
    }
    if Favourable(checkout.outside) {
      FineMeans(request, checkout.outside, was, plan, prepared.value);
      if r.Ok? {
        FineIsGrantable(request, checkout.outside, was, plan, prepared.value);
      }
    }
    if r.Ok? && Still(checkout.outside) {
      PatchedMeans(plan, was, checkout.files, prepared.value);
    }
  }
}
