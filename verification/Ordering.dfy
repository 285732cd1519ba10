/** The order `sorted` puts paths in: lexicographic by code point, each path once. */
module Ordering {

  predicate Before(a: string, b: string) {
    if b == "" then false
    else if a == "" then true
    else a[0] < b[0] || (a[0] == b[0] && Before(a[1..], b[1..]))
  }

  /** The first n characters agree, and there a ends, or has the smaller character. */
  ghost predicate SmallerAt(a: string, b: string, n: nat) {
    && n <= |a| && n < |b| && a[..n] == b[..n]
    && (n == |a| || a[n] < b[n])
  }

  /** The order is the lexicographic one. */
  lemma {:induction false} BeforeMeans(a: string, b: string)
    ensures Before(a, b) <==> exists n: nat :: SmallerAt(a, b, n)
  {
    if b == "" {
    } else if a == "" {
      assert SmallerAt(a, b, 0);
    } else {
      BeforeMeans(a[1..], b[1..]);
      if a[0] < b[0] {
        assert SmallerAt(a, b, 0);
      }
      if n: nat :| SmallerAt(a[1..], b[1..], n) {
        assert a[0] == b[0] ==> a[..n + 1] == [a[0]] + a[1..][..n] && b[..n + 1] == [b[0]] + b[1..][..n];
        assert a[0] == b[0] ==> SmallerAt(a, b, n + 1);
      }
      if n: nat :| SmallerAt(a, b, n) {
        if n > 0 {
          assert a[0] == a[..n][0] && b[0] == b[..n][0];
          assert a[1..][..n - 1] == a[..n][1..] && b[1..][..n - 1] == b[..n][1..];
          assert SmallerAt(a[1..], b[1..], n - 1);
        }
      }
    }
  }

  lemma {:induction false} BeforeTransitive(a: string, b: string, c: string)
    requires Before(a, b) && Before(b, c)
    ensures Before(a, c)
  {
    if a == "" || a[0] != b[0] || b[0] != c[0] {
    } else {
      BeforeTransitive(a[1..], b[1..], c[1..]);
    }
  }

  /** Exactly one of the three holds, so a set has one sorted listing. */
  lemma {:induction false} BeforeTotal(a: string, b: string)
    ensures Before(a, b) || a == b || Before(b, a)
    ensures !(Before(a, b) && Before(b, a))
    ensures a == b ==> !Before(a, b)
  {
    if a == "" || b == "" || a[0] != b[0] {
    } else {
      BeforeTotal(a[1..], b[1..]);
      if a[1..] == b[1..] {
        assert a == [a[0]] + a[1..] && b == [b[0]] + b[1..];
      }
    }
  }

  ghost predicate Ascending(paths: seq<string>) {
    forall i, j | 0 <= i < j < |paths| :: Before(paths[i], paths[j])
  }

  /** `paths` lists the set in ascending order. */
  ghost predicate Lists(paths: seq<string>, members: set<string>) {
    && Ascending(paths)
    && (forall i | 0 <= i < |paths| :: paths[i] in members)
    && (forall p | p in members :: p in paths)
  }

  lemma AscendingDistinct(paths: seq<string>, i: nat, j: nat)
    requires Ascending(paths) && i < |paths| && j < |paths| && paths[i] == paths[j]
    ensures i == j
  {
    BeforeTotal(paths[i], paths[j]);
  }

  lemma HeadIsLeast(paths: seq<string>, others: seq<string>, members: set<string>)
    requires Lists(paths, members) && Lists(others, members)
    requires paths != [] && others != []
    ensures paths[0] == others[0]
  {
    var i :| 0 <= i < |others| && others[i] == paths[0];
    var j :| 0 <= j < |paths| && paths[j] == others[0];
    BeforeTotal(paths[0], others[0]);
  }

  lemma TailLists(paths: seq<string>, members: set<string>)
    requires Lists(paths, members) && paths != []
    ensures Lists(paths[1..], members - {paths[0]})
  {
    forall i | 0 <= i < |paths[1..]| ensures paths[1..][i] in members - {paths[0]} {
      if paths[i + 1] == paths[0] {
        AscendingDistinct(paths, i + 1, 0);
      }
    }
    forall p | p in members - {paths[0]} ensures p in paths[1..] {
      var i :| 0 <= i < |paths| && paths[i] == p;
      assert paths[1..][i - 1] == p;
    }
  }

  lemma EmptyListing(paths: seq<string>, members: set<string>)
    requires Lists(paths, members)
    ensures paths == [] <==> members == {}
  {
    if paths != [] {
      assert paths[0] in members;
    }
  }

  /** A set has only one sorted listing. */
  lemma {:induction false} SortedListingIsUnique(paths: seq<string>, others: seq<string>, members: set<string>)
    requires Lists(paths, members) && Lists(others, members)
    ensures paths == others
    decreases |paths|
  {
    EmptyListing(paths, members);
    EmptyListing(others, members);
    if paths == [] {
    } else {
      HeadIsLeast(paths, others, members);
      TailLists(paths, members);
      TailLists(others, members);
      SortedListingIsUnique(paths[1..], others[1..], members - {paths[0]});
      assert paths == [paths[0]] + paths[1..] && others == [others[0]] + others[1..];
    }
  }

  /** `path` belongs between paths[..i] and paths[i..]. */
  ghost predicate Between(paths: seq<string>, i: nat, path: string) {
    && i <= |paths|
    && (forall k | 0 <= k < i :: Before(paths[k], path))
    && (forall k | i <= k < |paths| :: Before(path, paths[k]))
  }

  function Inserted(paths: seq<string>, i: nat, path: string): (more: seq<string>)
    requires i <= |paths|
    ensures |more| == |paths| + 1
    ensures forall k | 0 <= k < |more| :: more[k] == if k < i then paths[k] else if k == i then path else paths[k - 1]
  {
    paths[..i] + [path] + paths[i..]
  }

  lemma FirstNotBefore(paths: seq<string>, i: nat, path: string)
    requires Ascending(paths) && i <= |paths| && path !in paths
    requires forall k | 0 <= k < i :: Before(paths[k], path)
    requires i < |paths| ==> !Before(paths[i], path)
    ensures Between(paths, i, path)
  {
    forall k | i <= k < |paths| ensures Before(path, paths[k]) {
      BeforeTotal(paths[i], path);
      if k > i {
        BeforeTransitive(path, paths[i], paths[k]);
      }
    }
  }

  lemma InsertedAscending(paths: seq<string>, i: nat, path: string)
    requires Ascending(paths) && Between(paths, i, path)
    ensures Ascending(Inserted(paths, i, path))
  {
  }

  lemma InsertedMembers(paths: seq<string>, i: nat, path: string, members: set<string>)
    requires Lists(paths, members) && i <= |paths|
    ensures forall p :: p in Inserted(paths, i, path) <==> p in members + {path}
  {
    var more := Inserted(paths, i, path);
    forall p | p in members + {path} ensures p in more {
      if p == path {
        assert more[i] == p;
      } else {
        var k :| 0 <= k < |paths| && paths[k] == p;
        assert more[if k < i then k else k + 1] == p;
      }
    }
  }

  /** Puts one more path in its place. */
  method Insert(paths: seq<string>, path: string, ghost members: set<string>) returns (more: seq<string>)
    requires Lists(paths, members) && path !in members
    ensures Lists(more, members + {path})
  {
    var i := 0;
    while i < |paths| && Before(paths[i], path)
      invariant 0 <= i <= |paths|
      invariant forall k | 0 <= k < i :: Before(paths[k], path)
    {
      i := i + 1;
    }
    FirstNotBefore(paths, i, path);
    InsertedAscending(paths, i, path);
    InsertedMembers(paths, i, path, members);
    more := Inserted(paths, i, path);
  }

  method Sorted(members: set<string>) returns (paths: seq<string>)
    ensures Lists(paths, members)
  {
    paths := [];
    var rest := members;
    while rest != {}
      invariant rest <= members
      invariant Lists(paths, members - rest)
    {
      var path :| path in rest;
      paths := Insert(paths, path, members - rest);
      assert members - rest + {path} == members - (rest - {path});
      rest := rest - {path};
    }
    assert members - rest == members;
  }
}
