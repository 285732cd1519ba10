/** What the apply step knows about the checkout (src/ai_push_hooks/executors/apply.py): file modes,
    the diff of the staging workspace, and the checks before and after propagation that look only at
    what Git reports as dirty.

    Equal digests stand for equal contents, so a file is its contents and its mode. */
module ApplyChecks {

  import opened Options

  type Path = string
  type Content = string

  /** The `st_mode` of a file; 0x8000 says it is a regular file. */
  type Mode = bv16

  datatype Node = Missing | File(content: Content, mode: Mode) | Symlink(target: string)
                | Directory(mode: Mode) | Other(mode: Mode)

  type Files = map<Path, Node>

  function At(files: Files, path: Path): Node {
    if path in files then files[path] else Missing
  }

  // ---------------------------------------------------------------------------------
  // Modes
  // ---------------------------------------------------------------------------------

  const REGULAR: Mode := 0x8000
  const PERMISSIONS: Mode := 0x1FF      // 0o777
  const SHARED_WRITE: Mode := 0x12      // 0o022
  const OWNER_EXECUTE: Mode := 0x40     // 0o100
  const SPECIAL_BITS: Mode := 0xE00     // 0o7000
  const ALL_BITS: Mode := 0xFFF         // 0o7777

  function Sanitized(mode: Mode): Mode {
    mode & PERMISSIONS
  }

  /** The mode a propagated file gets: never special, never writable by others, executable for its
      owner exactly when the file it replaces was, or for a new file when the staged one is, and the
      old permissions untouched wherever they are already that conservative; everywhere else its owner may
      read and write it and nobody else may do anything. */
  function ConservativeMode(baseline: Node, source: Mode): (mode: Mode)
    ensures mode & !PERMISSIONS == 0
    ensures mode & SHARED_WRITE == 0
    ensures mode & OWNER_EXECUTE == (if baseline.File? then baseline.mode else source) & OWNER_EXECUTE
    ensures baseline.File? && baseline.mode & SHARED_WRITE == 0 ==> mode == baseline.mode & PERMISSIONS
    ensures !(baseline.File? && baseline.mode & SHARED_WRITE == 0) ==> mode & 0x1BF == 0x180
  {
    var permissions := if baseline.File? then Sanitized(baseline.mode) else Sanitized(source);
    if baseline.File? && permissions & SHARED_WRITE == 0 then permissions
    else if permissions & OWNER_EXECUTE != 0 then 0x1C0
    else 0x180
  }

  // ---------------------------------------------------------------------------------
  // The diff of the staging workspace
  // ---------------------------------------------------------------------------------

  datatype Staged = Staged(content: Content, mode: Mode)
  type Inventory = map<Path, Staged>

  function Lookup(inventory: Inventory, path: Path): Option<Staged> {
    if path in inventory then Some(inventory[path]) else None
  }

  /** `allowed` is the allowlist, `guarded` the Git metadata and instruction files. */
  datatype Rules = Rules(allowed: Path -> bool, guarded: Path -> bool)

  predicate Permits(rules: Rules, path: Path) {
    !rules.guarded(path) && rules.allowed(path)
  }

  function Differing(before: Inventory, after: Inventory): set<Path> {
    set p | p in before.Keys + after.Keys && Lookup(before, p) != Lookup(after, p)
  }

  /** The changed paths, or the ones that should not have changed. */
  function ChangedPaths(rules: Rules, before: Inventory, after: Inventory): Result<set<Path>, set<Path>> {
    var unexpected := set p | p in Differing(before, after) && !Permits(rules, p);
    if unexpected != {} then Err(unexpected) else Ok(Differing(before, after))
  }

  /** Accepted exactly when every path that differs is permitted; then those paths are the answer, and
      putting them into the old workspace gives the new one. */
  lemma ChangedPathsMeans(rules: Rules, before: Inventory, after: Inventory)
    ensures var changed := ChangedPaths(rules, before, after);
            && (changed.Ok? <==> forall p :: Lookup(before, p) != Lookup(after, p) ==> Permits(rules, p))
            && (changed.Ok? ==> forall p :: p in changed.value <==> Lookup(before, p) != Lookup(after, p))
            && (changed.Err? ==> forall p :: p in changed.error <==>
                  Lookup(before, p) != Lookup(after, p) && !Permits(rules, p))
  {
    var unexpected := set p | p in Differing(before, after) && !Permits(rules, p);
    forall p ensures p in Differing(before, after) <==> Lookup(before, p) != Lookup(after, p) {
    }
    if unexpected != {} {
      var p :| p in unexpected;
    } else {
      forall p | Lookup(before, p) != Lookup(after, p) ensures Permits(rules, p) {
        assert p in Differing(before, after);
        assert p !in unexpected;
      }
    }
  }

  // ---------------------------------------------------------------------------------
  // What Git sees
  // ---------------------------------------------------------------------------------

  /** Git records contents, one executable bit, and link targets. */
  datatype View = Absent | Blob(content: Content, executable: bool) | Link(target: string)

  function ViewOf(node: Node): View {
    match node
    case File(content, mode) => Blob(content, mode & OWNER_EXECUTE != 0)
    case Symlink(target) => Link(target)
    case _ => Absent
  }

  type Tree = map<Path, View>

  function Entry(tree: Tree, path: Path): View {
    if path in tree then tree[path] else Absent
  }

  /** The index also holds the flags by which a tracked path is not compared with the worktree
      (assume-unchanged and skip-worktree). */
  datatype Index = Index(entries: Tree, flagged: set<Path>)

  /** The repository at one look.  `ignores` says which untracked paths the ignore rules hide; they are
      read from the checkout itself, so a write may change them. */
  datatype Repository = Repository(head: Tree, index: Index, ignores: Path -> bool)

  predicate Tracked(repo: Repository, path: Path) {
    path in repo.head || path in repo.index.entries
  }

  /** Git compares the path in the worktree with the index. */
  predicate Watched(repo: Repository, path: Path) {
    Tracked(repo, path) && path !in repo.index.flagged
  }

  /** Git reports the path as untracked. */
  predicate Shown(repo: Repository, files: Files, path: Path) {
    !Tracked(repo, path) && !repo.ignores(path) && ViewOf(At(files, path)) != Absent
  }

  /** Git reports the path at all. */
  predicate Dirty(repo: Repository, files: Files, path: Path) {
    || Shown(repo, files, path)
    || (Tracked(repo, path) && Entry(repo.head, path) != Entry(repo.index.entries, path))
    || (Watched(repo, path) && Entry(repo.index.entries, path) != ViewOf(At(files, path)))
  }

  function Listed(repo: Repository, files: Files): (dirty: set<Path>)
    ensures forall p :: p in dirty <==> Dirty(repo, files, p)
  {
    set p | p in repo.head.Keys + repo.index.entries.Keys + files.Keys && Dirty(repo, files, p)
  }

  // ---------------------------------------------------------------------------------
  // The two checks
  // ---------------------------------------------------------------------------------

  /** What is recorded before anything else: the dirty paths, their full states, the index, and the
      Git control metadata (of any type). */
  datatype Recorded<M> = Recorded(dirty: set<Path>, contents: Files, index: Index, metadata: M)

  function Record<M>(repo: Repository, files: Files, metadata: M): Recorded<M> {
    var dirty := Listed(repo, files);
    Recorded(dirty, map p | p in dirty :: At(files, p), repo.index, metadata)
  }

  function ContentChanges<M>(before: Recorded<M>, files: Files): set<Path> {
    set p | p in before.contents && before.contents[p] != At(files, p)
  }

  predicate PreCheck<M(==)>(before: Recorded<M>, repo: Repository, files: Files, metadata: M) {
    var current := Listed(repo, files);
    && (current - before.dirty) + (before.dirty - current) + ContentChanges(before, files) == {}
    && repo.index == before.index
    && metadata == before.metadata
  }

  /** What a propagated path must be found to be: gone, or the staged file with its approved mode. */
  predicate Meets(staged: Option<Staged>, node: Node) {
    match staged
    case None => node.Missing?
    case Some(file) =>
      node.File? && node.content == file.content && node.mode & ALL_BITS == file.mode & ALL_BITS
  }

  predicate MatchesExpected(expected: map<Path, Option<Staged>>, files: Files) {
    forall p | p in expected :: Meets(expected[p], At(files, p))
  }

  predicate PostCheck<M(==)>(before: Recorded<M>, repo: Repository, files: Files, metadata: M,
                             staged: set<Path>, expected: map<Path, Option<Staged>>) {
    && MatchesExpected(expected, files)
    && ((Listed(repo, files) - before.dirty) + ContentChanges(before, files)) - staged == {}
    && repo.index == before.index
    && metadata == before.metadata
  }

  // What Git sees, said of the files themselves.

  /** Two states of a path that Git cannot tell apart. */
  ghost predicate Alike(a: Node, b: Node) {
    match a
    case File(content, mode) => b.File? && b.content == content && b.mode & 0x40 == mode & 0x40
    case Symlink(target) => b == Symlink(target)
    case _ => !b.File? && !b.Symlink?
  }

  /** The recorded entry is what the path holds. */
  ghost predicate Agrees(view: View, node: Node) {
    match view
    case Blob(content, executable) =>
      node.File? && node.content == content && (executable <==> node.mode & 0x40 == 0x40)
    case Link(target) => node == Symlink(target)
    case Absent => !node.File? && !node.Symlink?
  }

  ghost predicate InRepository(repo: Repository, path: Path) {
    path in repo.head || path in repo.index.entries
  }

  ghost predicate Compared(repo: Repository, path: Path) {
    InRepository(repo, path) && path !in repo.index.flagged
  }

  /** An untracked file or link that no ignore rule hides. */
  ghost predicate Untracked(repo: Repository, files: Files, path: Path) {
    && !InRepository(repo, path) && !repo.ignores(path)
    && (At(files, path).File? || At(files, path).Symlink?)
  }

  ghost predicate Uncommitted(repo: Repository, files: Files, path: Path) {
    || Untracked(repo, files, path)
    || (InRepository(repo, path) && Entry(repo.head, path) != Entry(repo.index.entries, path))
    || (Compared(repo, path) && !Agrees(Entry(repo.index.entries, path), At(files, path)))
  }

  /** Between two looks: a tracked path that Git compares is alike, an untracked path is reported before
      exactly if it is after, and a path that was dirty has not changed at all. */
  ghost predicate Untouched(repo: Repository, was: Files, later: Repository, files: Files, path: Path) {
    && (Compared(repo, path) ==> Alike(At(files, path), At(was, path)))
    && (Untracked(later, files, path) <==> Untracked(repo, was, path))
    && (Uncommitted(repo, was, path) ==> At(files, path) == At(was, path))
  }

  /** The same, but an untracked path may have stopped being reported. */
  ghost predicate Spared(repo: Repository, was: Files, later: Repository, files: Files, path: Path) {
    && (Compared(repo, path) ==> Alike(At(files, path), At(was, path)))
    && (Untracked(later, files, path) ==> Untracked(repo, was, path))
    && (Uncommitted(repo, was, path) ==> At(files, path) == At(was, path))
  }

  lemma ExecutableBit(mode: Mode)
    ensures mode & OWNER_EXECUTE == 0 || mode & OWNER_EXECUTE == 0x40
  {
  }

  /** The views compare exactly that. */
  lemma ViewsMean(repo: Repository, was: Files, later: Repository, files: Files, path: Path)
    ensures ViewOf(At(files, path)) == ViewOf(At(was, path)) <==> Alike(At(files, path), At(was, path))
    ensures Watched(repo, path) <==> Compared(repo, path)
    ensures Shown(later, files, path) <==> Untracked(later, files, path)
    ensures Dirty(repo, was, path) <==> Uncommitted(repo, was, path)
  {
    var node, other := At(files, path), At(was, path);
    if node.File? {
      ExecutableBit(node.mode);
    }
    if other.File? {
      ExecutableBit(other.mode);
    }
    assert ViewOf(other) == Entry(repo.index.entries, path) <==> Agrees(Entry(repo.index.entries, path), other);
  }

  /** One path at two looks with the same index, as the checks see it. */
  lemma DirtyTwice(repo: Repository, was: Files, later: Repository, files: Files, path: Path)
    requires later.head == repo.head && later.index == repo.index
    ensures Tracked(repo, path) && !Dirty(repo, was, path) && !Dirty(later, files, path) && Watched(repo, path) ==>
              ViewOf(At(files, path)) == ViewOf(At(was, path))
    ensures Tracked(repo, path) && (Watched(repo, path) ==> ViewOf(At(files, path)) == ViewOf(At(was, path))) ==>
              (Dirty(later, files, path) <==> Dirty(repo, was, path))
    ensures !Tracked(repo, path) ==>
              && (Dirty(repo, was, path) <==> Shown(repo, was, path))
              && (Dirty(later, files, path) <==> Shown(later, files, path))
  {
  }

  /** With HEAD fixed, looking only at the dirty paths, and at the saved contents of the initially dirty
      ones, misses nothing and reports nothing else. */
  lemma PreCheckMeans<M>(repo: Repository, was: Files, metadata: M, later: Repository, files: Files, after: M)
    requires later.head == repo.head
    ensures PreCheck(Record(repo, was, metadata), later, files, after) <==>
            later.index == repo.index && after == metadata && forall p :: Untouched(repo, was, later, files, p)
  {
    var before := Record(repo, was, metadata);
    if later.index == repo.index {
      var current := Listed(later, files);
      var changes := (current - before.dirty) + (before.dirty - current) + ContentChanges(before, files);
      if changes == {} {
        forall p ensures Untouched(repo, was, later, files, p) {
          DirtyTwice(repo, was, later, files, p);
          ViewsMean(repo, was, later, files, p);
          ViewsMean(later, files, repo, was, p);
          assert p !in changes;
          assert p in before.dirty <==> p in before.contents;
        }
      }
      if forall p :: Untouched(repo, was, later, files, p) {
        forall p ensures p !in changes {
          assert Untouched(repo, was, later, files, p);
          DirtyTwice(repo, was, later, files, p);
          ViewsMean(repo, was, later, files, p);
          ViewsMean(later, files, repo, was, p);
        }
      }
    }
  }

  /** After propagation: the check passes exactly when every propagated path is as expected and every
      path outside the staged changes was spared. */
  lemma PostCheckMeans<M>(repo: Repository, was: Files, metadata: M, later: Repository, files: Files, after: M,
                          staged: set<Path>, expected: map<Path, Option<Staged>>)
    requires later.head == repo.head
    ensures PostCheck(Record(repo, was, metadata), later, files, after, staged, expected) <==>
            && MatchesExpected(expected, files)
            && later.index == repo.index && after == metadata
            && forall p | p !in staged :: Spared(repo, was, later, files, p)
  {
    var before := Record(repo, was, metadata);
    if later.index == repo.index {
      var changes := ((Listed(later, files) - before.dirty) + ContentChanges(before, files)) - staged;
      if changes == {} {
        forall p | p !in staged ensures Spared(repo, was, later, files, p) {
          DirtyTwice(repo, was, later, files, p);
          ViewsMean(repo, was, later, files, p);
          ViewsMean(later, files, repo, was, p);
          assert p !in changes;
          assert p in before.dirty <==> p in before.contents;
        }
      }
      if forall p | p !in staged :: Spared(repo, was, later, files, p) {
        forall p ensures p !in changes {
          if p !in staged {
            assert Spared(repo, was, later, files, p);
            DirtyTwice(repo, was, later, files, p);
          ViewsMean(repo, was, later, files, p);
          ViewsMean(later, files, repo, was, p);
          }
        }
      }
    }
  }

  // ---------------------------------------------------------------------------------
  // What the checks do not see, and what they see too much of
  // ---------------------------------------------------------------------------------

  const PLAIN: Mode := 0x81A4

  /** A repository in which HEAD and index hold one file. */
  ghost function OneFile(path: Path, content: Content, ignores: Path -> bool): Repository {
    var tree: Tree := map[path := Blob(content, false)];
    Repository(tree, Index(tree, {}), ignores)
  }

  /** On a clean file a change of any permission but the owner's execute bit passes both checks.  Here
      another account gains write access to a tracked file. */
  lemma ModeChangeUnseen()
    ensures var repo := OneFile("a", "x", _ => false);
            var was: Files := map["a" := File("x", PLAIN)];
            var files: Files := map["a" := File("x", 0x81B6)];
            && PreCheck(Record(repo, was, 0), repo, files, 0)
            && At(files, "a") != At(was, "a")
  {
    var repo := OneFile("a", "x", _ => false);
    var was: Files := map["a" := File("x", PLAIN)];
    var files: Files := map["a" := File("x", 0x81B6)];
    forall p ensures Untouched(repo, was, repo, files, p) {
      if p == "a" {
        assert ViewOf(At(was, p)) == ViewOf(At(files, p)) == Blob("x", false);
        assert !Dirty(repo, was, p);
      }
    }
    PreCheckMeans(repo, was, 0, repo, files, 0);
  }

  const RULES: Path := ".gitignore"

  /** The ignore rule file is changed from `before` to `after`, as staged, and nothing else but the rules
      it states: `build` is hidden exactly if the file says so. */
  ghost function UnderRules(before: Content, now: Content): Repository {
    OneFile(RULES, before, p => p == "build" && now == "build")
  }

  ghost function RulesStaged(after: Content): map<Path, Option<Staged>> {
    map[RULES := Some(Staged(after, 0x1A4))]
  }

  /** A propagated `.gitignore` that lifts a rule brings an ignored file to light, and the last check takes
      it for a change: the step fails with the file already written, although nothing else was touched. */
  lemma LiftedRuleFails()
    ensures var was: Files := map[RULES := File("build", PLAIN), "build" := File("x", PLAIN)];
            var files := was[RULES := File("", PLAIN)];
            && MatchesExpected(RulesStaged(""), files)
            && !PostCheck(Record(UnderRules("build", "build"), was, 0), UnderRules("build", ""), files, 0,
                          {RULES}, RulesStaged(""))
  {
    var repo, later := UnderRules("build", "build"), UnderRules("build", "");
    var was: Files := map[RULES := File("build", PLAIN), "build" := File("x", PLAIN)];
    var files := was[RULES := File("", PLAIN)];
    PostCheckMeans(repo, was, 0, later, files, 0, {RULES}, RulesStaged(""));
    assert Untracked(later, files, "build") && !Untracked(repo, was, "build");
    assert !Spared(repo, was, later, files, "build");
  }

  /** A propagated `.gitignore` that adds a rule hides a file which somebody else created meanwhile. */
  lemma AddedRuleHides()
    ensures var was: Files := map[RULES := File("", PLAIN)];
            var files: Files := map[RULES := File("build", PLAIN), "build" := File("x", PLAIN)];
            && PostCheck(Record(UnderRules("", ""), was, 0), UnderRules("", "build"), files, 0,
                         {RULES}, RulesStaged("build"))
            && Untracked(UnderRules("", ""), files, "build") && !Untracked(UnderRules("", ""), was, "build")
  {
    var repo, later := UnderRules("", ""), UnderRules("", "build");
    var was: Files := map[RULES := File("", PLAIN)];
    var files: Files := map[RULES := File("build", PLAIN), "build" := File("x", PLAIN)];
    forall p | p !in {RULES} ensures Spared(repo, was, later, files, p) {
    }
    PostCheckMeans(repo, was, 0, later, files, 0, {RULES}, RulesStaged("build"));
  }
}
