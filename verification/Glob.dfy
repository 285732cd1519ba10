/** Glob matching of repository paths (src/ai_push_hooks/git_utils.py, `path_matches`).

    Paths and patterns are sequences of components.  How one component matches one pattern component
    (`fnmatch.fnmatchcase`) is a parameter: the recursion over `**` is correct for every choice of it.
 */
module Glob {

  import opened Options
  import opened Strings

  type Component = string
  type Fnmatch = (Component, Component) -> bool

  const STARS: Component := "**"

  // ---------------------------------------------------------------------------------
  // Declarative meaning
  // ---------------------------------------------------------------------------------

  /** `cuts` assigns to pattern component j the path components cuts[j] .. cuts[j + 1]: a run of any
      length for `**`, and exactly one matching component for every other one. */
  ghost predicate Assigns(fn: Fnmatch, path: seq<Component>, pattern: seq<Component>, cuts: seq<nat>) {
    && |cuts| == |pattern| + 1
    && cuts[0] == 0
    && cuts[|pattern|] == |path|
    && forall j | 0 <= j < |pattern| :: AssignsOne(fn, path, pattern[j], cuts[j], cuts[j + 1])
  }

  ghost predicate AssignsOne(fn: Fnmatch, path: seq<Component>, wanted: Component, from: nat, to: nat) {
    && from <= to <= |path|
    && (wanted != STARS ==> to == from + 1 && fn(path[from], wanted))
  }

  ghost predicate Means(fn: Fnmatch, path: seq<Component>, pattern: seq<Component>) {
    exists cuts :: Assigns(fn, path, pattern, cuts)
  }

  // ---------------------------------------------------------------------------------
  // The three cases of the recursion
  // ---------------------------------------------------------------------------------

  /** An empty pattern means exactly the empty path. */
  lemma MeansEmptyPattern(fn: Fnmatch, path: seq<Component>)
    ensures Means(fn, path, []) <==> path == []
  {
    if path == [] {
      assert Assigns(fn, path, [], [0]);
    }
  }

  /** Moves every cut of an assignment by `offset` components. */
  ghost function Shift(cuts: seq<nat>, offset: nat): (shifted: seq<nat>)
    ensures |shifted| == |cuts|
    ensures forall j | 0 <= j < |cuts| :: shifted[j] == cuts[j] + offset
  {
    seq(|cuts|, j requires 0 <= j < |cuts| => cuts[j] + offset)
  }

  lemma ShiftAssignsOne(fn: Fnmatch, path: seq<Component>, wanted: Component, from: nat, to: nat, offset: nat)
    requires offset <= |path|
    ensures AssignsOne(fn, path[offset..], wanted, from, to) <==>
              AssignsOne(fn, path, wanted, from + offset, to + offset)
  {
  }

  lemma CutsIncrease(fn: Fnmatch, path: seq<Component>, pattern: seq<Component>, cuts: seq<nat>, j: nat, k: nat)
    requires Assigns(fn, path, pattern, cuts)
    requires j <= k <= |pattern|
    ensures cuts[j] <= cuts[k]
    decreases k - j
  {
    if j >= k {
    } else {
      assert AssignsOne(fn, path, pattern[j], cuts[j], cuts[j + 1]);
      CutsIncrease(fn, path, pattern, cuts, j + 1, k);
    }
  }

  /** The first pattern component takes the first `taken` path components, for some `taken` it
      allows, and the rest of the pattern means the rest of the path. */
  lemma MeansCons(fn: Fnmatch, path: seq<Component>, pattern: seq<Component>)
    requires pattern != []
    ensures Means(fn, path, pattern)
       <==> exists taken: nat :: AssignsOne(fn, path, pattern[0], 0, taken) && Means(fn, path[taken..], pattern[1..])
  {
    if Means(fn, path, pattern) {
      var cuts :| Assigns(fn, path, pattern, cuts);
      MeansConsForward(fn, path, pattern, cuts);
    }
    if exists taken: nat :: AssignsOne(fn, path, pattern[0], 0, taken) && Means(fn, path[taken..], pattern[1..]) {
      var taken: nat :| AssignsOne(fn, path, pattern[0], 0, taken) && Means(fn, path[taken..], pattern[1..]);
      var cuts :| Assigns(fn, path[taken..], pattern[1..], cuts);
      MeansConsBackward(fn, path, pattern, taken, cuts);
    }
  }

  lemma MeansConsForward(fn: Fnmatch, path: seq<Component>, pattern: seq<Component>, cuts: seq<nat>)
    requires pattern != [] && Assigns(fn, path, pattern, cuts)
    ensures AssignsOne(fn, path, pattern[0], 0, cuts[1]) && Means(fn, path[cuts[1]..], pattern[1..])
  {
    var taken := cuts[1];
    assert AssignsOne(fn, path, pattern[0], cuts[0], cuts[1]);
    var rest := seq(|pattern|, j requires 0 <= j < |pattern| =>
                      if cuts[j + 1] >= taken then cuts[j + 1] - taken else 0);
    forall j | 0 <= j < |pattern| ensures rest[j] + taken == cuts[j + 1] {
      CutsIncrease(fn, path, pattern, cuts, 1, j + 1);
    }
    forall j | 0 <= j < |pattern| - 1
      ensures AssignsOne(fn, path[taken..], pattern[1..][j], rest[j], rest[j + 1])
    {
      assert AssignsOne(fn, path, pattern[j + 1], cuts[j + 1], cuts[j + 2]);
      ShiftAssignsOne(fn, path, pattern[j + 1], rest[j], rest[j + 1], taken);
    }
    assert rest[0] + taken == cuts[1];
    assert rest[|pattern| - 1] + taken == cuts[|pattern|];
    assert Assigns(fn, path[taken..], pattern[1..], rest);
  }

  lemma MeansConsBackward(fn: Fnmatch, path: seq<Component>, pattern: seq<Component>, taken: nat, rest: seq<nat>)
    requires pattern != [] && AssignsOne(fn, path, pattern[0], 0, taken)
    requires Assigns(fn, path[taken..], pattern[1..], rest)
    ensures Means(fn, path, pattern)
  {
    var cuts := [0] + Shift(rest, taken);
    forall j | 0 <= j < |pattern|
      ensures AssignsOne(fn, path, pattern[j], cuts[j], cuts[j + 1])
    {
      if j > 0 {
        assert AssignsOne(fn, path[taken..], pattern[1..][j - 1], rest[j - 1], rest[j]);
        ShiftAssignsOne(fn, path, pattern[j], rest[j - 1], rest[j], taken);
      }
    }
    assert Assigns(fn, path, pattern, cuts);
  }

  /** A component other than `**` takes exactly one path component. */
  lemma MeansOne(fn: Fnmatch, path: seq<Component>, pattern: seq<Component>)
    requires pattern != [] && pattern[0] != STARS
    ensures Means(fn, path, pattern)
       <==> path != [] && fn(path[0], pattern[0]) && Means(fn, path[1..], pattern[1..])
  {
    MeansCons(fn, path, pattern);
    if path != [] && fn(path[0], pattern[0]) {
      assert AssignsOne(fn, path, pattern[0], 0, 1);
    }
  }

  /** `**` takes nothing, or one component and then means `**` again. */
  lemma MeansStars(fn: Fnmatch, path: seq<Component>, pattern: seq<Component>)
    requires pattern != [] && pattern[0] == STARS
    ensures Means(fn, path, pattern)
       <==> Means(fn, path, pattern[1..]) || (path != [] && Means(fn, path[1..], pattern))
  {
    MeansCons(fn, path, pattern);
    assert path[0..] == path;
    if Means(fn, path, pattern[1..]) {
      assert AssignsOne(fn, path, pattern[0], 0, 0);
    }
    if path != [] {
      MeansCons(fn, path[1..], pattern);
      if Means(fn, path[1..], pattern) {
        var taken: nat :|
          AssignsOne(fn, path[1..], pattern[0], 0, taken) && Means(fn, path[1..][taken..], pattern[1..]);
        assert path[1..][taken..] == path[taken + 1..];
        assert AssignsOne(fn, path, pattern[0], 0, taken + 1);
      }
      if Means(fn, path, pattern) && !Means(fn, path, pattern[1..]) {
        var taken: nat :| AssignsOne(fn, path, pattern[0], 0, taken) && Means(fn, path[taken..], pattern[1..]);
        assert path[1..][taken - 1..] == path[taken..];
        assert AssignsOne(fn, path[1..], pattern[0], 0, taken - 1);
      }
    }
  }

  // ---------------------------------------------------------------------------------
  // The memoised recursion
  // ---------------------------------------------------------------------------------

  /** The closure state of one `path_matches` call: the memo dictionary the recursion fills. */
  class Matcher {
    const fn: Fnmatch
    const path: seq<Component>
    const pattern: seq<Component>
    var memo: map<(nat, nat), bool>

    /** Every memo entry is the declarative answer for its two tails. */
    ghost predicate Valid()
      reads this
    {
      forall key | key in memo ::
        && key.0 <= |path| && key.1 <= |pattern|
        && (memo[key] <==> Means(fn, path[key.0..], pattern[key.1..]))
    }

    constructor (fn: Fnmatch, path: seq<Component>, pattern: seq<Component>)
      ensures Valid() && this.fn == fn && this.path == path && this.pattern == pattern && memo == map[]
    {
      this.fn, this.path, this.pattern, memo := fn, path, pattern, map[];
    }

    method Matches(pathIndex: nat, patternIndex: nat) returns (result: bool)
      requires Valid() && pathIndex <= |path| && patternIndex <= |pattern|
      modifies this
      ensures Valid() && result == Means(fn, path[pathIndex..], pattern[patternIndex..])
      ensures memo.Keys >= old(memo.Keys) + {(pathIndex, patternIndex)}
      decreases |path| - pathIndex + |pattern| - patternIndex
    {
      var key := (pathIndex, patternIndex);
      if key in memo {
        return memo[key];
      }
      ghost var pathTail, patternTail := path[pathIndex..], pattern[patternIndex..];
      if patternIndex == |pattern| {
        MeansEmptyPattern(fn, pathTail);
        result := pathIndex == |path|;
      } else if pattern[patternIndex] == STARS {
        MeansStars(fn, pathTail, patternTail);
        assert patternTail[1..] == pattern[patternIndex + 1..];
        result := Matches(pathIndex, patternIndex + 1);
        if !result && pathIndex < |path| {
          assert pathTail[1..] == path[pathIndex + 1..];
          result := Matches(pathIndex + 1, patternIndex);
        }
      } else {
        MeansOne(fn, pathTail, patternTail);
        assert patternTail[1..] == pattern[patternIndex + 1..];
        result := pathIndex < |path| && fn(path[pathIndex], pattern[patternIndex]);
        if result {
          assert pathTail[1..] == path[pathIndex + 1..];
          result := Matches(pathIndex + 1, patternIndex + 1);
        }
      }
      memo := memo[key := result];
    }
  }

  // ---------------------------------------------------------------------------------
  // Whole paths
  // ---------------------------------------------------------------------------------

  /** A repository path the matcher accepts at all: relative, with no empty, `.` or `..` part. */
  predicate PlainPath(path: string) {
    && !("/" <= path)
    && forall part | part in Split(path, '/') :: part !in ["", ".", ".."]
  }

  /** No leading slash, and between the slashes neither nothing nor a dot or two. */
  ghost predicate IsPlain(path: string, parts: seq<Component>) {
    && (path == "" || path[0] != '/')
    && (forall i | 0 <= i < |parts| :: parts[i] != "" && parts[i] != "." && parts[i] != "..")
    && parts != [] && (forall i | 0 <= i < |parts| :: '/' !in parts[i]) && Join(parts, "/") == path
  }

  lemma PlainMeans(path: string)
    ensures PlainPath(path) <==> IsPlain(path, Split(path, '/'))
    ensures forall parts | IsPlain(path, parts) :: parts == Split(path, '/')
  {
    var split := Split(path, '/');
    forall parts | IsPlain(path, parts) ensures parts == split {
      SplitJoin(parts, '/');
    }
    assert forall i | 0 <= i < |split| :: split[i] in split;
  }

  /** `glob` is the parsed pattern; a pattern that does not parse matches nothing. */
  method PathMatches(fn: Fnmatch, path: string, glob: Option<seq<Component>>) returns (matched: bool)
    ensures matched <==> exists parts, pattern ::
              IsPlain(path, parts) && glob == Some(pattern) && Means(fn, parts, pattern)
  {
    PlainMeans(path);
    if !PlainPath(path) || glob.None? {
      return false;
    }
    var parts := Split(path, '/');
    var matcher := new Matcher(fn, parts, glob.value);
    matched := matcher.Matches(0, 0);
    assert parts[0..] == parts && glob.value[0..] == glob.value;
  }
}
