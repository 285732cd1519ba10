/** The apply step (src/ai_push_hooks/executors/apply.py, `run_apply_step`): copy the permitted part
    of the checkout into a staging workspace, let any runner edit it, diff it, check that nothing else
    moved, and write the diff back path by path while anybody may be changing the checkout. */
module ApplyRun {

  import opened Options
  import opened Ordering
  import opened ApplyChecks
  import opened ApplyTrace

  type Metadata = map<string, string>

  /** Everything this step does not control: what others do to the checkout at each moment, which
      destinations are safe, which writes fail, and how the repository looks at each moment with the
      checkout as it is then; the ignore rules may depend on both. */
  datatype Outside = Outside(change: (nat, Files) -> Files, safe: (nat, Path) -> bool, faulty: nat -> bool,
                             repo: (nat, Files) -> Repository, metadata: nat -> Metadata)

  /** Nobody else touches the checkout. */
  ghost predicate Still(outside: Outside) {
    forall n, files :: outside.change(n, files) == files
  }

  /** Nothing outside gets in the way either: the repository changes only as the checkout does. */
  ghost predicate Favourable(outside: Outside) {
    && Still(outside)
    && (forall n, p :: outside.safe(n, p))
    && (forall n :: !outside.faulty(n))
    && (forall n, files :: outside.repo(n, files) == outside.repo(0, files))
    && (forall files, other {:trigger outside.repo(0, files), outside.repo(0, other)} ::
          outside.repo(0, files).index == outside.repo(0, other).index)
    && (forall n :: outside.metadata(n) == outside.metadata(0))
  }

  datatype ApplyError =
    | Unprojectable(path: Path)
    | CheckoutChanged
    | StagingRefused
    | RunnerFailed
    | IgnoredOutput
    | UnsafeOutput(path: Path)
    | UnsafeDestination(path: Path)
    | Conflicts(paths: seq<Path>)
    | PropagationFailed(applied: seq<Path>)
    | PostCheckFailed(applied: seq<Path>)

  // ---------------------------------------------------------------------------------
  // The staging workspace
  // ---------------------------------------------------------------------------------

  /** `ignored` is what the ignore rules say of a path, tracked or not; `candidates` are the tracked
      and the unignored paths.  With `project` access all of them may be read. */
  datatype Access = Access(project: bool, candidates: set<Path>, ignored: Path -> bool)

  predicate Eligible(rules: Rules, access: Access, path: Path) {
    && path in access.candidates && !access.ignored(path) && !rules.guarded(path)
    && (access.project || rules.allowed(path))
  }

  /** A node that is neither copied nor skipped in silence. */
  predicate Blocking(access: Access, node: Node) {
    !access.project && !node.File? && !node.Missing?
  }

  ghost function Projected(rules: Rules, access: Access, files: Files): Files {
    map p | p in access.candidates && Eligible(rules, access, p) && At(files, p).File? :: At(files, p)
  }

  ghost predicate Projectable(rules: Rules, access: Access, files: Files) {
    forall p | p in access.candidates && Eligible(rules, access, p) :: !Blocking(access, At(files, p))
  }

  /** What is copied when each path is looked at in its own moment. */
  ghost function CopiedFrom(rules: Rules, access: Access, paths: seq<Path>, seen: seq<Files>, n: nat): Files
    requires n <= |paths| && n <= |seen|
  {
    if n == 0 then map[]
    else
      var before := CopiedFrom(rules, access, paths, seen, n - 1);
      CopyOne(rules, access, paths[n - 1], At(seen[n - 1], paths[n - 1]), before)
  }

  predicate BlockedAt(rules: Rules, access: Access, path: Path, files: Files) {
    Eligible(rules, access, path) && Blocking(access, At(files, path))
  }

  lemma {:induction false} CopiedFromFrame(rules: Rules, access: Access, paths: seq<Path>, seen: seq<Files>,
                                           more: seq<Files>, n: nat)
    requires n <= |paths| && n <= |seen| && seen <= more
    ensures CopiedFrom(rules, access, paths, more, n) == CopiedFrom(rules, access, paths, seen, n)
  {
    if n == 0 {
    } else {
      CopiedFromFrame(rules, access, paths, seen, more, n - 1);
    }
  }

  /** No path looked at so far blocks the copy. */
  ghost predicate NoneBlocked(rules: Rules, access: Access, paths: seq<Path>, seen: seq<Files>) {
    |seen| <= |paths| && forall k | 0 <= k < |seen| :: !BlockedAt(rules, access, paths[k], seen[k])
  }

  function CopyOne(rules: Rules, access: Access, path: Path, node: Node, copied: Files): Files {
    if Eligible(rules, access, path) && node.File? then copied[path := node] else copied
  }

  ghost predicate CopiedSoFar(rules: Rules, access: Access, paths: seq<Path>, seen: seq<Files>, copied: Files) {
    && NoneBlocked(rules, access, paths, seen)
    && copied == CopiedFrom(rules, access, paths, seen, |seen|)
  }

  lemma CopiedSoFarSnoc(rules: Rules, access: Access, paths: seq<Path>, seen: seq<Files>, copied: Files, state: Files)
    requires |seen| < |paths| && CopiedSoFar(rules, access, paths, seen, copied)
    requires !BlockedAt(rules, access, paths[|seen|], state)
    ensures var path := paths[|seen|];
            CopiedSoFar(rules, access, paths, seen + [state], CopyOne(rules, access, path, At(state, path), copied))
  {
    CopiedFromFrame(rules, access, paths, seen, seen + [state], |seen|);
  }

  lemma {:induction false} StillCopied(rules: Rules, access: Access, paths: seq<Path>, seen: seq<Files>, files: Files,
                                       n: nat)
    requires n <= |paths| && n <= |seen| && forall k | 0 <= k < |seen| :: seen[k] == files
    ensures var copied := CopiedFrom(rules, access, paths, seen, n);
            && (forall p :: p in copied <==> p in paths[..n] && Eligible(rules, access, p) && At(files, p).File?)
            && (forall p | p in copied :: copied[p] == At(files, p))
  {
    if n == 0 {
    } else {
      StillCopied(rules, access, paths, seen, files, n - 1);
      assert paths[..n] == paths[..n - 1] + [paths[n - 1]];
    }
  }

  /** When nobody interferes all that is copied comes from the same checkout. */
  lemma StillIsProjected(rules: Rules, access: Access, paths: seq<Path>, seen: seq<Files>, files: Files)
    requires Lists(paths, access.candidates) && |seen| == |paths|
    requires forall k | 0 <= k < |seen| :: seen[k] == files
    ensures CopiedFrom(rules, access, paths, seen, |paths|) == Projected(rules, access, files)
    ensures NoneBlocked(rules, access, paths, seen) <==> Projectable(rules, access, files)
  {
    StillCopied(rules, access, paths, seen, files, |paths|);
    assert paths[..|paths|] == paths;
    forall p | p in access.candidates ensures exists k | 0 <= k < |paths| :: paths[k] == p {
      assert p in paths;
    }
  }

  lemma StillIsBlocked(rules: Rules, access: Access, paths: seq<Path>, k: nat, files: Files)
    requires Lists(paths, access.candidates) && k < |paths| && BlockedAt(rules, access, paths[k], files)
    ensures !Projectable(rules, access, files)
  {
  }

  /** The workspace right after the copy: permissions kept, special bits dropped. */
  function StagedCopy(baselines: Files): Files {
    map p | p in baselines && baselines[p].File? ::
      File(baselines[p].content, REGULAR | Sanitized(baselines[p].mode))
  }

  predicate Inventoriable(staging: Files) {
    forall p | p in staging :: !staging[p].Symlink? && !staging[p].Other?
  }

  function Inventoried(staging: Files): Inventory {
    map p | p in staging && staging[p].File? :: Staged(staging[p].content, staging[p].mode)
  }

  // ---------------------------------------------------------------------------------
  // The operations
  // ---------------------------------------------------------------------------------

  function TargetOf(baseline: Node, staged: Option<Staged>): Node {
    match staged
    case None => Missing
    case Some(file) => File(file.content, REGULAR | ConservativeMode(baseline, file.mode))
  }

  function OperationFor(baselines: Files, after: Inventory, path: Path): Operation {
    Operation(path, At(baselines, path), TargetOf(At(baselines, path), Lookup(after, path)))
  }

  function Expected(baselines: Files, after: Inventory, changed: set<Path>): map<Path, Option<Staged>> {
    map p | p in changed ::
      if p in after then Some(Staged(after[p].content, ConservativeMode(At(baselines, p), after[p].mode)))
      else None
  }

  /** What is still accepted when the workspace is read again for the write. */
  predicate Acceptable(baselines: Files, after: Inventory, later: Files, path: Path) {
    match Lookup(after, path)
    case None => At(baselines, path).File?
    case Some(file) =>
      && file.mode & SPECIAL_BITS == 0
      && At(later, path).File?
      && At(later, path).content == file.content
      && At(later, path).mode & ALL_BITS == file.mode & ALL_BITS
  }

  /** One operation for each changed path, in sorted order. */
  ghost predicate Implements(ops: seq<Operation>, baselines: Files, after: Inventory, changed: set<Path>) {
    && Lists(Paths(ops), changed)
    && forall i | 0 <= i < |ops| :: ops[i] == OperationFor(baselines, after, ops[i].path)
  }

  function Paths(ops: seq<Operation>): (paths: seq<Path>)
    ensures |paths| == |ops|
    ensures forall i | 0 <= i < |ops| :: paths[i] == ops[i].path
  {
    seq(|ops|, i requires 0 <= i < |ops| => ops[i].path)
  }

  method BuildOperations(baselines: Files, after: Inventory, later: Files, changed: set<Path>)
    returns (r: Result<seq<Operation>, ApplyError>)
    ensures r.Ok? <==> forall p | p in changed :: Acceptable(baselines, after, later, p)
    ensures r.Ok? ==> Implements(r.value, baselines, after, changed)
    ensures r.Err? ==>
      r.error.UnsafeOutput? && r.error.path in changed && !Acceptable(baselines, after, later, r.error.path)
  {
    var paths := Sorted(changed);
    var ops: seq<Operation> := [];
    while |ops| < |paths|
      invariant |ops| <= |paths|
      invariant forall i | 0 <= i < |ops| ::
        ops[i] == OperationFor(baselines, after, paths[i]) && Acceptable(baselines, after, later, paths[i])
      decreases |paths| - |ops|
    {
      var path := paths[|ops|];
      if !Acceptable(baselines, after, later, path) {
        return Err(UnsafeOutput(path));
      }
      ops := ops + [OperationFor(baselines, after, path)];
    }
    assert Paths(ops) == paths;
    r := Ok(ops);
  }

  /** The paths of the first n operations that are not what they were copied from, each in the state in
      which it is looked at. */
  ghost function AllConflicts(seen: seq<Files>, ops: seq<Operation>, n: nat): seq<Path>
    requires n <= |ops| && n <= |seen|
  {
    if n == 0 then []
    else
      AllConflicts(seen, ops, n - 1) +
        if At(seen[n - 1], ops[n - 1].path) != ops[n - 1].baseline then [ops[n - 1].path] else []
  }

  lemma {:induction false} NoConflictsMeans(seen: seq<Files>, ops: seq<Operation>, n: nat)
    requires n <= |ops| && n <= |seen|
    ensures AllConflicts(seen, ops, n) == [] <==> forall i | 0 <= i < n :: Matches(seen[i], ops[i])
  {
    if n == 0 {
    } else {
      var last := n - 1;
      NoConflictsMeans(seen, ops, last);
      assert Matches(seen[last], ops[last]) <==> At(seen[last], ops[last].path) == ops[last].baseline;
    }
  }

  /** A path is reported exactly when it was not what it was copied from. */
  lemma {:induction false} ConflictsMean(seen: seq<Files>, ops: seq<Operation>, n: nat, path: Path)
    requires n <= |ops| && n <= |seen|
    ensures path in AllConflicts(seen, ops, n) <==>
            exists i | 0 <= i < n :: ops[i].path == path && At(seen[i], path) != ops[i].baseline
  {
    if n == 0 {
    } else {
      ConflictsMean(seen, ops, n - 1, path);
    }
  }

  lemma {:induction false} AllConflictsFrame(seen: seq<Files>, more: seq<Files>, ops: seq<Operation>, n: nat)
    requires n <= |ops| && n <= |seen| && seen <= more
    ensures AllConflicts(more, ops, n) == AllConflicts(seen, ops, n)
  {
    if n == 0 {
    } else {
      AllConflictsFrame(seen, more, ops, n - 1);
    }
  }

  lemma AllConflictsSnoc(seen: seq<Files>, state: Files, ops: seq<Operation>)
    requires |seen| < |ops|
    ensures var op := ops[|seen|];
            AllConflicts(seen + [state], ops, |seen| + 1) ==
            AllConflicts(seen, ops, |seen|) + if At(state, op.path) != op.baseline then [op.path] else []
  {
    AllConflictsFrame(seen, seen + [state], ops, |seen|);
  }

  /** `state` is the checkout k + 1 steps after the first `from`. */
  ghost predicate SeenAt(start: Files, trace: seq<Step>, from: nat, k: nat, state: Files) {
    from + k + 1 <= |trace| && state == Replay(start, trace[..from + k + 1])
  }

  ghost predicate AllSeen(start: Files, trace: seq<Step>, from: nat, seen: seq<Files>) {
    forall k | 0 <= k < |seen| :: SeenAt(start, trace, from, k, seen[k])
  }

  lemma AllSeenSnoc(start: Files, trace: seq<Step>, step: Step, from: nat, seen: seq<Files>)
    requires |trace| == from + |seen| && AllSeen(start, trace, from, seen)
    ensures AllSeen(start, trace + [step], from, seen + [Replay(start, trace + [step])])
  {
    var longer, more := trace + [step], seen + [Replay(start, trace + [step])];
    forall k | 0 <= k < |more| ensures SeenAt(start, longer, from, k, more[k]) {
      if k < |seen| {
        assert SeenAt(start, trace, from, k, seen[k]);
        assert longer[..from + k + 1] == trace[..from + k + 1];
      } else {
        assert longer[..from + k + 1] == longer;
      }
    }
  }

  // ---------------------------------------------------------------------------------
  // What the others do
  // ---------------------------------------------------------------------------------

  /** Every change that is not a write of ours is what somebody else makes, in that moment, of the checkout
      as it is.  Moments are counted from `first` by the turns of the others. */
  ghost predicate ByOthers(outside: Outside, first: nat, start: Files, trace: seq<Step>) {
    forall n | 0 <= n < |trace| && trace[n].Interference? ::
      ByOther(outside, first, start, trace[..n], trace[n].after)
  }

  ghost predicate ByOther(outside: Outside, first: nat, start: Files, before: seq<Step>, after: Files) {
    after == outside.change(first + Turns(before), Replay(start, before))
  }

  /** Every write of ours goes to a destination that is safe in that moment. */
  ghost predicate SafeWrites(outside: Outside, first: nat, trace: seq<Step>) {
    forall n | 0 <= n < |trace| && trace[n].Wrote? :: SafeWrite(outside, first, trace[..n], trace[n].op)
  }

  ghost predicate SafeWrite(outside: Outside, first: nat, before: seq<Step>, op: Operation) {
    outside.safe(first + Turns(before), op.path)
  }

  /** These two and `Guarded` together, step by step. */
  ghost predicate History(outside: Outside, first: nat, start: Files, trace: seq<Step>) {
    trace == [] ||
    var before := trace[..|trace| - 1];
    && History(outside, first, start, before)
    && StepOk(outside, first, start, before, trace[|trace| - 1])
  }

  ghost predicate StepOk(outside: Outside, first: nat, start: Files, before: seq<Step>, step: Step) {
    match step
    case Interference(after) => ByOther(outside, first, start, before, after)
    case Wrote(op) => Matches(Replay(start, before), op) && SafeWrite(outside, first, before, op)
  }

  lemma HistorySnoc(outside: Outside, first: nat, start: Files, trace: seq<Step>, step: Step)
    requires History(outside, first, start, trace) && StepOk(outside, first, start, trace, step)
    ensures History(outside, first, start, trace + [step])
  {
    assert (trace + [step])[..|trace|] == trace;
  }

  lemma {:induction false} HistoryAt(outside: Outside, first: nat, start: Files, trace: seq<Step>, n: nat)
    requires History(outside, first, start, trace) && n < |trace|
    ensures StepOk(outside, first, start, trace[..n], trace[n])
  {
    if n == |trace| - 1 {
    } else {
      var before := trace[..|trace| - 1];
      HistoryAt(outside, first, start, before, n);
      assert before[..n] == trace[..n];
    }
  }

  lemma HistoryMeans(outside: Outside, first: nat, start: Files, trace: seq<Step>)
    requires History(outside, first, start, trace)
    ensures Guarded(start, trace) && SafeWrites(outside, first, trace) && ByOthers(outside, first, start, trace)
  {
    forall n | 0 <= n < |trace| ensures StepOk(outside, first, start, trace[..n], trace[n]) {
      HistoryAt(outside, first, start, trace, n);
    }
  }

  lemma StillIsQuiet(outside: Outside, first: nat, start: Files, trace: seq<Step>)
    requires Still(outside) && History(outside, first, start, trace)
    ensures Quiet(start, trace)
  {
    HistoryMeans(outside, first, start, trace);
  }

  // ---------------------------------------------------------------------------------
  // The checkout
  // ---------------------------------------------------------------------------------

  /** The checkout as it changes under this step and everybody else.  `trace` is what happened since the
      moment `first`, when it was `start`. */
  class Checkout {
    const outside: Outside
    var files: Files
    var clock: nat
    ghost var first: nat
    ghost var start: Files
    ghost var trace: seq<Step>

    ghost predicate Valid()
      reads this
    {
      && Replay(start, trace) == files
      && clock == first + Turns(trace)
      && History(outside, first, start, trace)
    }

    constructor (files: Files, outside: Outside)
      ensures Valid() && this.files == files && this.outside == outside
    {
      this.files, this.outside, clock, first, start, trace := files, outside, 0, 0, files, [];
    }

    /** Starts a new record. */
    method Watch()
      modifies this`first, this`start, this`trace
      ensures Valid() && first == clock && start == files && trace == []
    {
      first, start, trace := clock, files, [];
    }

    /** The record goes on from the given one. */
    twostate predicate GoesOn()
      reads this
    {
      first == old(first) && start == old(start) && old(trace) <= trace
    }

    /** Anybody else may run. */
    method Elapse()
      requires Valid()
      modifies this
      ensures Valid() && GoesOn() && clock == old(clock) + 1
      ensures trace == old(trace) + [Interference(files)] && Writes(trace) == old(Writes(trace))
      ensures Still(outside) ==> files == old(files)
    {
      ghost var before := trace;
      var after := outside.change(clock, files);
      clock := clock + 1;
      Snoc(start, before, Interference(after));
      HistorySnoc(outside, first, start, before, Interference(after));
      files := after;
      trace := before + [Interference(after)];
    }

    /** The record since it had `from` steps, in the moment `moment`, is one turn for each of `seen`. */
    ghost predicate Looked(from: nat, moment: nat, seen: seq<Files>)
      reads this
    {
      && |trace| == from + |seen|
      && clock == moment + |seen|
      && AllSeen(start, trace, from, seen)
    }

    /** When nobody interferes the checkout has always been the old one. */
    twostate predicate Undisturbed(seen: seq<Files>)
      reads this
    {
      Still(outside) ==> files == old(files) && forall k | 0 <= k < |seen| :: seen[k] == old(files)
    }

    /** One more look at the checkout, in its own moment. */
    method Look(ghost from: nat, ghost moment: nat, ghost seen: seq<Files>) returns (ghost more: seq<Files>)
      requires Valid() && Looked(from, moment, seen)
      modifies this
      ensures Valid() && GoesOn() && Writes(trace) == old(Writes(trace))
      ensures more == seen + [files] && Looked(from, moment, more)
      ensures Still(outside) ==> files == old(files)
    {
      ghost var before := trace;
      Elapse();
      AllSeenSnoc(start, before, Interference(files), from, seen);
      more := seen + [files];
    }

    /** The final check of one path together with its write or deletion. */
    method Perform(op: Operation)
      requires Valid() && Matches(files, op) && outside.safe(clock, op.path)
      modifies this`files, this`trace
      ensures Valid() && GoesOn()
      ensures files == Put(old(files), op.path, op.target)
      ensures trace == old(trace) + [Wrote(op)] && Writes(trace) == old(Writes(trace)) + [op]
    {
      ghost var before := trace;
      Snoc(start, before, Wrote(op));
      HistorySnoc(outside, first, start, before, Wrote(op));
      files := Put(files, op.path, op.target);
      trace := before + [Wrote(op)];
    }

    /** Copies the eligible files, each path in its own moment, up to the first that blocks the copy. */
    method CopyToStaging(rules: Rules, access: Access)
      returns (r: Result<Files, ApplyError>, paths: seq<Path>, ghost seen: seq<Files>)
      requires Valid()
      modifies this
      ensures Valid() && GoesOn() && Writes(trace) == old(Writes(trace)) && Undisturbed(seen)
      ensures Lists(paths, access.candidates) && |seen| <= |paths|
      ensures Looked(|old(trace)|, old(clock), seen)
      ensures r.Ok? ==> |seen| == |paths| && CopiedSoFar(rules, access, paths, seen, r.value)
      ensures r.Err? ==> seen != [] && r.error == Unprojectable(paths[|seen| - 1]) &&
                         BlockedAt(rules, access, paths[|seen| - 1], seen[|seen| - 1])
    {
      paths := Sorted(access.candidates);
      seen := [];
      ghost var from, moment := |trace|, clock;
      var copied: Files := map[];
      var i := 0;
      while i < |paths|
        invariant 0 <= i <= |paths| && |seen| == i
        invariant Valid() && GoesOn() && Writes(trace) == old(Writes(trace)) && Undisturbed(seen)
        invariant Looked(from, moment, seen)
        invariant CopiedSoFar(rules, access, paths, seen, copied)
      {
        var path := paths[i];
        ghost var more := Look(from, moment, seen);
        if BlockedAt(rules, access, path, files) {
          r, seen := Err(Unprojectable(path)), more;
          return;
        }
        CopiedSoFarSnoc(rules, access, paths, seen, copied, files);
        copied := CopyOne(rules, access, path, At(files, path), copied);
        seen := more;
        i := i + 1;
      }
      r := Ok(copied);
    }

    predicate Safe(rules: Rules, path: Path)
      reads this
    {
      SafeAt(rules, path, clock)
    }

    predicate SafeAt(rules: Rules, path: Path, moment: nat)
    {
      !rules.guarded(path) && outside.safe(moment, path)
    }

    /** Looks at every destination, each in its own moment, up to the first that is not safe. */
    method CheckDestinations(rules: Rules, ops: seq<Operation>) returns (unsafe: Option<Path>)
      requires Valid()
      modifies this
      ensures Valid() && GoesOn() && Writes(trace) == old(Writes(trace))
      ensures Still(outside) ==> files == old(files)
      ensures unsafe.None? ==> forall i | 0 <= i < |ops| :: SafeAt(rules, ops[i].path, old(clock) + i + 1)
      ensures unsafe.Some? ==> unsafe.value in Paths(ops) && !Safe(rules, unsafe.value)
    {
      ghost var moment := clock;
      var i := 0;
      while i < |ops|
        invariant 0 <= i <= |ops|
        invariant Valid() && GoesOn() && Writes(trace) == old(Writes(trace))
        invariant Still(outside) ==> files == old(files)
        invariant clock == moment + i
        invariant forall k | 0 <= k < i :: SafeAt(rules, ops[k].path, moment + k + 1)
      {
        Elapse();
        if !Safe(rules, ops[i].path) {
          assert Paths(ops)[i] == ops[i].path;
          return Some(ops[i].path);
        }
        i := i + 1;
      }
      unsafe := None;
    }

    /** The paths that are not what they were copied from when they are looked at, one moment after the
        other; `seen` are these moments. */
    method CollectConflicts(ops: seq<Operation>) returns (conflicts: seq<Path>, ghost seen: seq<Files>)
      requires Valid()
      modifies this
      ensures Valid() && GoesOn() && Writes(trace) == old(Writes(trace)) && Undisturbed(seen)
      ensures |seen| == |ops| && Looked(|old(trace)|, old(clock), seen)
      ensures conflicts == AllConflicts(seen, ops, |ops|)
    {
      ghost var from, moment := |trace|, clock;
      conflicts, seen := [], [];
      var i := 0;
      while i < |ops|
        invariant 0 <= i <= |ops| && |seen| == i
        invariant Valid() && GoesOn() && Writes(trace) == old(Writes(trace)) && Undisturbed(seen)
        invariant Looked(from, moment, seen)
        invariant conflicts == AllConflicts(seen, ops, i)
      {
        ghost var more := Look(from, moment, seen);
        AllConflictsSnoc(seen, files, ops);
        conflicts := conflicts + if At(files, ops[i].path) != ops[i].baseline then [ops[i].path] else [];
        seen := more;
        i := i + 1;
      }
    }

    /** Every destination first, then every conflict, before the first write.  The conflicts reported are
        exactly the paths that differed at the moment each was looked at. */
    method Preflight(rules: Rules, ops: seq<Operation>) returns (error: Option<ApplyError>, ghost seen: seq<Files>)
      requires Valid()
      modifies this
      ensures Valid() && GoesOn() && Writes(trace) == old(Writes(trace))
      ensures Still(outside) ==> files == old(files) && forall k | 0 <= k < |seen| :: seen[k] == old(files)
      ensures error.None? ==> forall i | 0 <= i < |ops| :: SafeAt(rules, ops[i].path, old(clock) + i + 1)
      ensures error.Some? ==> Refused(error)
      ensures error.Some? && error.value.UnsafeDestination? ==>
                error.value.path in Paths(ops) && !Safe(rules, error.value.path)
      ensures error.None? || error.value.Conflicts? ==>
                && |seen| == |ops|
                && (exists from: nat | from >= |old(trace)| :: AllSeen(start, trace, from, seen))
                && AllConflicts(seen, ops, |ops|) == if error.None? then [] else error.value.paths
      ensures error.Some? && error.value.Conflicts? ==> error.value.paths != []
    {
      seen := [];
      var unsafe := CheckDestinations(rules, ops);
      if unsafe.Some? {
        error := Some(UnsafeDestination(unsafe.value));
        return;
      }
      ghost var from := |trace|;
      var conflicts;
      conflicts, seen := CollectConflicts(ops);
      assert AllSeen(start, trace, from, seen);
      error := if conflicts != [] then Some(Conflicts(conflicts)) else None;
    }

    /** Refused before anything was written. */
    ghost predicate Refused(error: Option<ApplyError>) {
      error.Some? && (error.value.UnsafeDestination? || error.value.Conflicts?)
    }

    ghost predicate Expecting(rules: Rules, ops: seq<Operation>) {
      Favourable(outside) && DistinctPaths(ops) && forall i | 0 <= i < |ops| :: !rules.guarded(ops[i].path)
    }

    /** The propagation loop: the paths written are always the first so many operations. */
    method WriteAll(rules: Rules, ops: seq<Operation>) returns (applied: seq<Path>)
      requires Valid()
      modifies this
      ensures Valid() && GoesOn()
      ensures |applied| <= |ops| && applied == Paths(ops[..|applied|])
      ensures Writes(trace) == old(Writes(trace)) + ops[..|applied|]
      ensures Expecting(rules, ops) && (forall k | 0 <= k < |ops| :: Matches(old(files), ops[k])) ==> |applied| == |ops|
    {
      applied := [];
      var i := 0;
      while i < |ops|
        invariant 0 <= i <= |ops|
        invariant Valid() && GoesOn()
        invariant applied == Paths(ops[..i])
        invariant Writes(trace) == old(Writes(trace)) + ops[..i]
        invariant Expecting(rules, ops) && (forall k | 0 <= k < |ops| :: Matches(old(files), ops[k])) ==>
                    forall k | i <= k < |ops| :: Matches(files, ops[k])
      {
        var done := PropagateOne(rules, ops[i]);
        if !done {
          return;
        }
        assert ops[..i + 1] == ops[..i] + [ops[i]];
        applied := applied + [ops[i].path];
        i := i + 1;
      }
    }

    /** Writes the operations one by one, each only onto its recorded baseline.  Whatever happens, the
        writes done are a prefix of the operations and exactly the paths reported. */
    method Propagate(rules: Rules, ops: seq<Operation>) returns (error: Option<ApplyError>, applied: seq<Path>)
      requires Valid()
      modifies this
      ensures Valid() && GoesOn()
      ensures |applied| <= |ops| && applied == Paths(ops[..|applied|])
      ensures Writes(trace) == old(Writes(trace)) + ops[..|applied|]
      ensures error.None? <==> |applied| == |ops| && !Refused(error)
      ensures error.Some? ==> applied == [] || error.value == PropagationFailed(applied)
      ensures error.Some? ==> Refused(error) || error.value == PropagationFailed(applied)
      ensures Expecting(rules, ops) ==> (error.None? <==> forall i | 0 <= i < |ops| :: Matches(old(files), ops[i]))
    {
      applied := [];
      ghost var seen;
      error, seen := Preflight(rules, ops);
      if |seen| == |ops| {
        NoConflictsMeans(seen, ops, |ops|);
      }
      if error.Some? {
        return;
      }
      applied := WriteAll(rules, ops);
      if |applied| < |ops| {
        error := Some(PropagationFailed(applied));
      }
    }

    /** One pass of the propagation loop: check, prepare, check again, write. */
    method PropagateOne(rules: Rules, op: Operation) returns (done: bool)
      requires Valid()
      modifies this
      ensures Valid() && GoesOn()
      ensures Writes(trace) == old(Writes(trace)) + (if done then [op] else [])
      ensures done ==> Safe(rules, op.path)
      ensures Still(outside) ==> files == if done then Put(old(files), op.path, op.target) else old(files)
      ensures Favourable(outside) && !rules.guarded(op.path) ==> (done <==> Matches(old(files), op))
    {
      done := false;
      Elapse();
      if !Safe(rules, op.path) || At(files, op.path) != op.baseline {
        return;
      }
      if op.target != Missing {
        Elapse();
        if outside.faulty(clock) || !Safe(rules, op.path) || At(files, op.path) != op.baseline {
          return;
        }
      }
      if outside.faulty(clock) {
        return;
      }
      Perform(op);
      done := true;
    }
  }
}
