/** What the apply step promises, said of files alone: what the runner is given, what output is accepted, and
    what the checkout holds afterwards (src/ai_push_hooks/executors/apply.py). */
module ApplyPromise {

  import opened Options
  import opened Ordering
  import opened ApplyChecks
  import opened ApplyTrace
  import opened ApplyRun

  datatype RunnerEnd = Raised | Exited(code: int)

  /** The runner turns the workspace into any other; `reread` is what the workspace has become when it
      is read again, and `refused` are the paths the ignore rules hide at that time. */
  datatype Request = Request(rules: Rules, access: Access, runner: Files -> (Files, RunnerEnd),
                             reread: Files -> Files, refused: Path -> bool)

  function Copied(baselines: Files): Inventory {
    Inventoried(StagedCopy(baselines))
  }

  ghost function Edited(request: Request, baselines: Files): Files {
    request.runner(StagedCopy(baselines)).0
  }

  ghost predicate Outputs(request: Request, baselines: Files, after: Inventory, later: Files, changed: set<Path>) {
    forall p | p in changed :: !request.refused(p) && Acceptable(baselines, after, later, p)
  }

  /** The conditions on the runner and on what it left in the workspace. */
  ghost predicate GoodOutput(request: Request, baselines: Files) {
    var staging := Edited(request, baselines);
    var after := Inventoried(staging);
    var changed := ChangedPaths(request.rules, Copied(baselines), after);
    && request.runner(StagedCopy(baselines)).1 == Exited(0)
    && Inventoriable(staging)
    && changed.Ok?
    && Outputs(request, baselines, after, request.reread(staging), changed.value)
  }

  // ---------------------------------------------------------------------------------
  // What the runner is given
  // ---------------------------------------------------------------------------------

  /** The paths that are copied: tracked or unignored, not guarded, and allowed unless the whole project
      may be read. */
  ghost predicate Readable(request: Request, path: Path) {
    && path in request.access.candidates && !request.access.ignored(path) && !request.rules.guarded(path)
    && (request.access.project || request.rules.allowed(path))
  }

  /** `node` is what the checkout holds at the path when it is looked at, `baseline` what is noted of it, and
      `given` what the workspace holds: the same content, its permissions and no special bits. */
  ghost predicate Handed(request: Request, path: Path, node: Node, baseline: Node, given: Node) {
    if Readable(request, path) && node.File? then
      baseline == node && given == File(node.content, 0x8000 | (node.mode & 0x1FF))
    else
      && baseline == Missing && given == Missing
      && (Readable(request, path) && !request.access.project ==> node == Missing)
  }

  /** Path by path, each in its own moment, the workspace is what the checkout held. */
  ghost predicate GivenFrom(request: Request, paths: seq<Path>, seen: seq<Files>, baselines: Files, given: Files) {
    && |seen| == |paths| && Lists(paths, request.access.candidates)
    && (forall k | 0 <= k < |paths| ::
          Handed(request, paths[k], At(seen[k], paths[k]), At(baselines, paths[k]), At(given, paths[k])))
    && (forall p | p in baselines || p in given :: p in request.access.candidates)
    && (forall p | p in given :: given[p].File?)
  }

  /** The same when nobody else touches the checkout. */
  ghost predicate GivenOf(request: Request, files: Files, baselines: Files, given: Files) {
    && (forall p | p in request.access.candidates ::
          Handed(request, p, At(files, p), At(baselines, p), At(given, p)))
    && (forall p | p in baselines || p in given :: p in request.access.candidates)
    && (forall p | p in given :: given[p].File?)
  }

  lemma EligibleMeans(request: Request, path: Path, node: Node)
    ensures Eligible(request.rules, request.access, path) <==> Readable(request, path)
    ensures Blocking(request.access, node) <==> !request.access.project && !node.File? && node != Missing
  {
  }

  lemma {:induction false} CopiedFromMeans(request: Request, paths: seq<Path>, seen: seq<Files>, n: nat)
    requires n <= |paths| && n <= |seen| && Ascending(paths)
    ensures var copied := CopiedFrom(request.rules, request.access, paths, seen, n);
            && (forall p | p in copied :: p in paths[..n] && copied[p].File?)
            && (forall k | 0 <= k < n ::
                  At(copied, paths[k]) ==
                  if Readable(request, paths[k]) && At(seen[k], paths[k]).File? then At(seen[k], paths[k]) else Missing)
  {
    if n == 0 {
    } else {
      CopiedFromMeans(request, paths, seen, n - 1);
      assert paths[..n] == paths[..n - 1] + [paths[n - 1]];
      forall k | 0 <= k < n - 1 ensures paths[k] != paths[n - 1] {
        BeforeTotal(paths[k], paths[n - 1]);
      }
      EligibleMeans(request, paths[n - 1], At(seen[n - 1], paths[n - 1]));
    }
  }

  lemma StagedCopyMeans(baselines: Files, path: Path)
    requires forall p | p in baselines :: baselines[p].File?
    ensures At(StagedCopy(baselines), path) ==
            if path !in baselines then Missing
            else File(baselines[path].content, 0x8000 | (baselines[path].mode & 0x1FF))
    ensures path in StagedCopy(baselines) <==> path in baselines
  {
  }

  /** The copy is that. */
  lemma CopyIsGiven(request: Request, paths: seq<Path>, seen: seq<Files>, baselines: Files)
    requires |seen| == |paths| && Lists(paths, request.access.candidates)
    requires NoneBlocked(request.rules, request.access, paths, seen)
    requires baselines == CopiedFrom(request.rules, request.access, paths, seen, |paths|)
    ensures GivenFrom(request, paths, seen, baselines, StagedCopy(baselines))
  {
    CopiedFromMeans(request, paths, seen, |paths|);
    assert paths[..|paths|] == paths;
    forall k | 0 <= k < |paths|
      ensures Handed(request, paths[k], At(seen[k], paths[k]), At(baselines, paths[k]),
                     At(StagedCopy(baselines), paths[k]))
    {
      StagedCopyMeans(baselines, paths[k]);
      EligibleMeans(request, paths[k], At(seen[k], paths[k]));
      assert !BlockedAt(request.rules, request.access, paths[k], seen[k]);
    }
  }

  lemma ProjectedMeans(request: Request, files: Files, path: Path)
    ensures At(Projected(request.rules, request.access, files), path) ==
            if Readable(request, path) && At(files, path).File? then At(files, path) else Missing
    ensures path in Projected(request.rules, request.access, files) ==>
              Projected(request.rules, request.access, files)[path].File?
  {
    EligibleMeans(request, path, At(files, path));
  }

  /** When nobody else touches the checkout the copy is that of its eligible part. */
  lemma ProjectedIsGiven(request: Request, files: Files)
    ensures var baselines := Projected(request.rules, request.access, files);
            Projectable(request.rules, request.access, files) <==>
            GivenOf(request, files, baselines, StagedCopy(baselines))
  {
    var baselines := Projected(request.rules, request.access, files);
    forall p ensures At(baselines, p) == if Readable(request, p) && At(files, p).File? then At(files, p) else Missing {
      ProjectedMeans(request, files, p);
    }
    forall p | p in baselines ensures baselines[p].File? {
      ProjectedMeans(request, files, p);
    }
    forall p ensures Handed(request, p, At(files, p), At(baselines, p), At(StagedCopy(baselines), p)) <==>
                     !BlockedAt(request.rules, request.access, p, files) {
      StagedCopyMeans(baselines, p);
      EligibleMeans(request, p, At(files, p));
    }
    forall p | BlockedAt(request.rules, request.access, p, files) ensures p in request.access.candidates {
    }
  }

  lemma GivenIsProjected(request: Request, files: Files, baselines: Files, given: Files)
    requires GivenOf(request, files, baselines, given)
    ensures given == StagedCopy(Projected(request.rules, request.access, files))
    ensures forall p :: At(baselines, p) == At(Projected(request.rules, request.access, files), p)
    ensures Projectable(request.rules, request.access, files)
  {
    var projected := Projected(request.rules, request.access, files);
    forall p ensures At(baselines, p) == At(projected, p) && At(given, p) == At(StagedCopy(projected), p) {
      ProjectedMeans(request, files, p);
      GivenAt(request, files, baselines, given, p);
      forall q | q in projected ensures projected[q].File? {
        ProjectedMeans(request, files, q);
      }
      StagedCopyMeans(projected, p);
    }
    forall p ensures p in given <==> p in StagedCopy(projected) {
      assert At(given, p) == At(StagedCopy(projected), p);
    }
    forall p | p in given ensures given[p] == StagedCopy(projected)[p] {
      assert At(given, p) == At(StagedCopy(projected), p);
    }
    forall p | p in request.access.candidates && Eligible(request.rules, request.access, p)
      ensures !Blocking(request.access, At(files, p))
    {
      EligibleMeans(request, p, At(files, p));
    }
  }

  lemma GivenAt(request: Request, files: Files, baselines: Files, given: Files, path: Path)
    requires GivenOf(request, files, baselines, given)
    ensures At(baselines, path) == if Readable(request, path) && At(files, path).File? then At(files, path) else Missing
    ensures At(given, path) ==
            if Readable(request, path) && At(files, path).File?
            then File(At(files, path).content, 0x8000 | (At(files, path).mode & 0x1FF)) else Missing
  {
    if path in request.access.candidates {
      assert Handed(request, path, At(files, path), At(baselines, path), At(given, path));
    }
  }

  // ---------------------------------------------------------------------------------
  // What output is accepted
  // ---------------------------------------------------------------------------------

  /** A regular file, or none. */
  ghost function Regular(files: Files, path: Path): Node {
    if path in files && files[path].File? then files[path] else Missing
  }

  ghost predicate Changed(given: Files, left: Files, path: Path) {
    Regular(given, path) != Regular(left, path)
  }

  /** A changed path may be written: it is allowed, not guarded, not ignored, and what is left there is, when
      it is read again, the same file without special bits, or it was a file and is gone. */
  ghost predicate Writable(request: Request, given: Files, left: Files, later: Files, path: Path) {
    && request.rules.allowed(path) && !request.rules.guarded(path) && !request.refused(path)
    && match Regular(left, path)
       case File(content, mode) =>
         && mode & 0xE00 == 0
         && At(later, path).File? && At(later, path).content == content
         && At(later, path).mode & 0xFFF == mode & 0xFFF
       case _ => Regular(given, path).File?
  }

  ghost predicate Plain(left: Files) {
    forall p | p in left :: left[p].File? || left[p].Directory? || left[p] == Missing
  }

  /** The runner was given this workspace and left that one, and what it changed may be written. */
  ghost predicate Accepted(request: Request, given: Files, left: Files) {
    && request.runner(given) == (left, Exited(0))
    && Plain(left)
    && forall p | Changed(given, left, p) :: Writable(request, given, left, request.reread(left), p)
  }

  lemma ChangedMeans(given: Files, left: Files, path: Path)
    ensures Changed(given, left, path) <==>
            Lookup(Inventoried(given), path) != Lookup(Inventoried(left), path)
    ensures Lookup(Inventoried(left), path).Some? <==> Regular(left, path).File?
    ensures Regular(left, path).File? ==>
              Lookup(Inventoried(left), path).value == Staged(left[path].content, left[path].mode)
  {
  }

  lemma ChangedSetMeans(request: Request, given: Files, left: Files)
    ensures var changed := ChangedPaths(request.rules, Inventoried(given), Inventoried(left));
            && (changed.Ok? <==>
                  forall p | Changed(given, left, p) :: request.rules.allowed(p) && !request.rules.guarded(p))
            && (changed.Ok? ==> forall p :: p in changed.value <==> Changed(given, left, p))
  {
    ChangedPathsMeans(request.rules, Inventoried(given), Inventoried(left));
    forall p ensures Changed(given, left, p) <==> Lookup(Inventoried(given), p) != Lookup(Inventoried(left), p) {
      ChangedMeans(given, left, p);
    }
  }

  lemma AcceptableMeans(request: Request, baselines: Files, left: Files, path: Path)
    requires forall p | p in baselines :: baselines[p].File?
    requires request.rules.allowed(path) && !request.rules.guarded(path)
    ensures Writable(request, StagedCopy(baselines), left, request.reread(left), path) <==>
            !request.refused(path) && Acceptable(baselines, Inventoried(left), request.reread(left), path)
  {
    StagedCopyMeans(baselines, path);
    ChangedMeans(StagedCopy(baselines), left, path);
  }

  /** The conditions on the output say that. */
  lemma GoodOutputMeans(request: Request, baselines: Files)
    requires forall p | p in baselines :: baselines[p].File?
    ensures GoodOutput(request, baselines) <==> Accepted(request, StagedCopy(baselines), Edited(request, baselines))
  {
    var given, left := StagedCopy(baselines), Edited(request, baselines);
    ChangedSetMeans(request, given, left);
    forall p | request.rules.allowed(p) && !request.rules.guarded(p)
      ensures Writable(request, given, left, request.reread(left), p) <==>
              !request.refused(p) && Acceptable(baselines, Inventoried(left), request.reread(left), p)
    {
      AcceptableMeans(request, baselines, left, p);
    }
  }

  // ---------------------------------------------------------------------------------
  // What is written
  // ---------------------------------------------------------------------------------

  /** What a changed path is to hold: what the runner left, as a regular file without special bits.  A file
      that only its owner could write keeps its permissions; any other becomes readable and writable by its
      owner alone, and executable as the file it replaces, or else as the new one. */
  ghost function Landed(baseline: Node, left: Node): Node {
    if !left.File? then Missing
    else if baseline.File? && baseline.mode & 0x12 == 0 then File(left.content, 0x8000 | (baseline.mode & 0x1FF))
    else File(left.content, 0x8180 | ((if baseline.File? then baseline.mode else left.mode) & 0x40))
  }

  lemma LandedMode(baseline: Node, source: Mode)
    ensures REGULAR | ConservativeMode(baseline, source) ==
            if baseline.File? && baseline.mode & 0x12 == 0 then 0x8000 | (baseline.mode & 0x1FF)
            else 0x8180 | ((if baseline.File? then baseline.mode else source) & 0x40)
  {
    var mode := ConservativeMode(baseline, source);
    var origin := if baseline.File? then baseline.mode else source;
    if !(baseline.File? && baseline.mode & 0x12 == 0) {
      OwnerOnly(mode, origin);
    }
  }

  lemma OwnerOnly(mode: Mode, origin: Mode)
    requires mode & 0x1BF == 0x180 && mode & !PERMISSIONS == 0 && mode & 0x40 == origin & 0x40
    ensures 0x8000 | mode == 0x8180 | (origin & 0x40)
  {
  }

  /** The operations: in sorted order, exactly the changed paths, each over what was copied. */
  ghost predicate Planned(given: Files, left: Files, baselines: Files, ops: seq<Operation>) {
    && Ascending(Paths(ops))
    && (forall p :: p in Paths(ops) <==> Changed(given, left, p))
    && forall i | 0 <= i < |ops| ::
         && ops[i].baseline == At(baselines, ops[i].path)
         && ops[i].target == Landed(ops[i].baseline, Regular(left, ops[i].path))
  }

  lemma OperationMeans(baselines: Files, left: Files, path: Path)
    ensures OperationFor(baselines, Inventoried(left), path) ==
            Operation(path, At(baselines, path), Landed(At(baselines, path), Regular(left, path)))
  {
    ChangedMeans(baselines, left, path);
    if Regular(left, path).File? {
      LandedMode(At(baselines, path), left[path].mode);
    }
  }

  /** The operations built are these. */
  lemma ImplementsMeans(given: Files, left: Files, baselines: Files, ops: seq<Operation>, changed: set<Path>)
    requires forall p :: p in changed <==> Changed(given, left, p)
    ensures Implements(ops, baselines, Inventoried(left), changed) <==> Planned(given, left, baselines, ops)
  {
    forall i | 0 <= i < |ops|
      ensures OperationFor(baselines, Inventoried(left), ops[i].path) ==
              Operation(ops[i].path, At(baselines, ops[i].path),
                        Landed(At(baselines, ops[i].path), Regular(left, ops[i].path)))
    {
      OperationMeans(baselines, left, ops[i].path);
    }
    forall i | 0 <= i < |ops| ensures Paths(ops)[i] in Paths(ops) {
    }
  }

  /** The path holds what it is to hold. */
  ghost predicate Holds(node: Node, wanted: Node) {
    if wanted.File? then node.File? && node.content == wanted.content && node.mode & 0xFFF == wanted.mode & 0xFFF
    else node == Missing
  }

  /** Exactly the changed paths are named, and each holds what it is to hold. */
  ghost predicate Placed(given: Files, left: Files, baselines: Files, changed: set<Path>, files: Files) {
    forall p ::
      && (p in changed <==> Changed(given, left, p))
      && (p in changed ==> Holds(At(files, p), Landed(At(baselines, p), Regular(left, p))))
  }

  /** The last comparison says that. */
  lemma ExpectedMeans(given: Files, left: Files, baselines: Files, changed: set<Path>, files: Files)
    requires forall p :: p in changed <==> Changed(given, left, p)
    ensures MatchesExpected(Expected(baselines, Inventoried(left), changed), files) <==>
            Placed(given, left, baselines, changed, files)
  {
    var after := Inventoried(left);
    var expected := Expected(baselines, after, changed);
    forall p | p in changed
      ensures Meets(expected[p], At(files, p)) <==> Holds(At(files, p), Landed(At(baselines, p), Regular(left, p)))
    {
      ExpectedAt(left, baselines, changed, files, p);
    }
  }

  lemma ExpectedAt(left: Files, baselines: Files, changed: set<Path>, files: Files, path: Path)
    requires path in changed
    ensures Meets(Expected(baselines, Inventoried(left), changed)[path], At(files, path)) <==>
            Holds(At(files, path), Landed(At(baselines, path), Regular(left, path)))
  {
    ChangedMeans(baselines, left, path);
    if Regular(left, path).File? {
      var mode := ConservativeMode(At(baselines, path), left[path].mode);
      LandedMode(At(baselines, path), left[path].mode);
      RegularBits(mode);
    }
  }

  lemma RegularBits(mode: Mode)
    ensures (REGULAR | mode) & 0xFFF == mode & ALL_BITS
  {
  }
}
