/** The order of paths in a sorted map, and the sorted listing of a set of paths. */
module PathOrder {

  /** Strict lexicographic order. */
  predicate Before(a: string, b: string) {
    b != "" && (a == "" || a[0] < b[0] || (a[0] == b[0] && Before(a[1..], b[1..])))
  }

  /** `a` and `b` agree before `k`, and there `a` ends and `b` goes on, or `a` has the smaller character. */
  predicate DifferAt(a: string, b: string, k: nat) {
    && k <= |a| && k <= |b| && a[..k] == b[..k]
    && (k == |a| < |b| || (k < |a| && k < |b| && a[k] < b[k]))
  }

  /** It is the order by the first difference, where a text comes before its continuations. */
  lemma {:induction false} BeforeIff(a: string, b: string)
    ensures Before(a, b) <==> exists k :: DifferAt(a, b, k)
  {
    if Before(a, b) {
      var k := FirstDifference(a, b);
    }
    if k :| DifferAt(a, b, k) {
      DifferenceOrders(a, b, k);
    }
  }

  lemma {:induction false} FirstDifference(a: string, b: string) returns (k: nat)
    requires Before(a, b)
    ensures DifferAt(a, b, k)
  {
    if a != "" && a[0] == b[0] {
      k := FirstDifference(a[1..], b[1..]);
      k := k + 1;
      assert a[..k] == [a[0]] + a[1..][..k - 1] && b[..k] == [b[0]] + b[1..][..k - 1];
    } else {
      k := 0;
    }
  }

  lemma {:induction false} DifferenceOrders(a: string, b: string, k: nat)
    requires DifferAt(a, b, k)
    ensures Before(a, b)
    decreases k
  {
    if k > 0 {
      assert a[0] == a[..k][0] == b[..k][0] == b[0];
      assert a[1..][..k - 1] == a[..k][1..] == b[..k][1..] == b[1..][..k - 1];
      DifferenceOrders(a[1..], b[1..], k - 1);
    }
  }

  lemma {:induction false} BeforeIrreflexive(a: string)
    ensures !Before(a, a)
  {
    if a != "" {
      BeforeIrreflexive(a[1..]);
    }
  }

  lemma {:induction false} BeforeTransitive(a: string, b: string, c: string)
    requires Before(a, b) && Before(b, c)
    ensures Before(a, c)
  {
    if a != "" && a[0] == b[0] == c[0] {
      BeforeTransitive(a[1..], b[1..], c[1..]);
    }
  }

  lemma {:induction false} BeforeTotal(a: string, b: string)
    ensures a == b || Before(a, b) || Before(b, a)
  {
    if a != "" && b != "" && a[0] == b[0] {
      BeforeTotal(a[1..], b[1..]);
      assert a == [a[0]] + a[1..] && b == [b[0]] + b[1..];
    }
  }

  ghost predicate StrictlySorted(paths: seq<string>) {
    forall i, j :: 0 <= i < j < |paths| ==> Before(paths[i], paths[j])
  }

  ghost function Elements(paths: seq<string>): set<string> {
    set p | p in paths
  }

  predicate IsLeast(p: string, paths: set<string>) {
    p in paths && forall q :: q in paths ==> !Before(q, p)
  }

  lemma {:induction false} LeastExists(paths: set<string>)
    requires paths != {}
    ensures exists least :: IsLeast(least, paths)
    decreases |paths|
  {
    var least :| least in paths;
    var others := paths - {least};
    BeforeIrreflexive(least);
    if others != {} {
      LeastExists(others);
      var candidate :| IsLeast(candidate, others);
      LeastOfTwo(paths, least, candidate);
    } else {
      forall q | q in paths ensures q == least {
        assert q !in others;
      }
      assert IsLeast(least, paths);
    }
  }

  /** Of a path and the least of the others, one is the least. */
  lemma LeastOfTwo(paths: set<string>, path: string, candidate: string)
    requires path in paths && IsLeast(candidate, paths - {path})
    ensures IsLeast(path, paths) || IsLeast(candidate, paths)
  {
    BeforeTotal(candidate, path);
    BeforeIrreflexive(path);
    if Before(path, candidate) {
      forall q | q in paths - {path} ensures !Before(q, path) {
        if Before(q, path) {
          BeforeTransitive(q, path, candidate);
        }
      }
    } else {
      assert forall q :: q in paths ==> q == path || q in paths - {path};
    }
  }

  lemma LeastUnique(paths: set<string>, p: string, q: string)
    requires IsLeast(p, paths) && IsLeast(q, paths)
    ensures p == q
  {
    BeforeTotal(p, q);
  }

  function Least(paths: set<string>): (least: string)
    requires paths != {}
    ensures IsLeast(least, paths)
  {
    LeastExists(paths);
    assert forall p, q :: IsLeast(p, paths) && IsLeast(q, paths) ==> p == q by {
      forall p, q | IsLeast(p, paths) && IsLeast(q, paths) ensures p == q {
        LeastUnique(paths, p, q);
      }
    }
    var least :| IsLeast(least, paths);
    least
  }

  lemma {:induction false} ConsSorted(head: string, rest: seq<string>)
    requires StrictlySorted(rest) && forall q :: q in Elements(rest) ==> Before(head, q)
    ensures StrictlySorted([head] + rest) && Elements([head] + rest) == {head} + Elements(rest)
  {
    assert forall q :: q in rest ==> q in Elements(rest);
  }

  /** The paths of a set in sorted order, each once. */
  function SortedPaths(paths: set<string>): seq<string>
    decreases |paths|
  {
    if paths == {} then []
    else
      var least := Least(paths);
      [least] + SortedPaths(paths - {least})
  }

  lemma {:induction false} SortedPathsIsSorted(paths: set<string>)
    ensures StrictlySorted(SortedPaths(paths))
    ensures Elements(SortedPaths(paths)) == paths
    ensures |SortedPaths(paths)| == |paths|
    decreases |paths|
  {
    if paths != {} {
      var least := Least(paths);
      var rest := SortedPaths(paths - {least});
      SortedPathsIsSorted(paths - {least});
      forall q | q in Elements(rest) ensures Before(least, q) {
        BeforeTotal(least, q);
      }
      ConsSorted(least, rest);
    }
  }

  lemma NoElements(a: seq<string>)
    ensures Elements(a) == {} ==> a == []
  {
    if a != [] {
      assert a[0] in Elements(a);
    }
  }

  /** Only one strictly sorted sequence has a given set of elements. */
  lemma {:induction false} SortedUnique(a: seq<string>, b: seq<string>)
    requires StrictlySorted(a) && StrictlySorted(b) && Elements(a) == Elements(b)
    ensures a == b
  {
    if a == [] {
      NoElements(b);
    } else {
      assert a[0] in Elements(b);
      assert b != [];
      assert b[0] in Elements(a);
      SortedHeadIsLeast(a);
      SortedHeadIsLeast(b);
      BeforeTotal(a[0], b[0]);
      assert a[0] == b[0];
      SortedTail(a);
      SortedTail(b);
      SortedUnique(a[1..], b[1..]);
    }
  }

  lemma SortedHeadIsLeast(a: seq<string>)
    requires StrictlySorted(a) && a != []
    ensures forall q :: q in a ==> !Before(q, a[0])
  {
    forall q | q in a ensures !Before(q, a[0]) {
      var i :| 0 <= i < |a| && a[i] == q;
      BeforeIrreflexive(a[0]);
      if i > 0 && Before(q, a[0]) {
        BeforeTransitive(a[0], q, a[0]);
      }
    }
  }

  lemma SortedTail(a: seq<string>)
    requires StrictlySorted(a) && a != []
    ensures StrictlySorted(a[1..]) && Elements(a[1..]) == Elements(a) - {a[0]}
  {
    BeforeIrreflexive(a[0]);
    assert a == [a[0]] + a[1..];
    assert forall q :: q in a[1..] ==> Before(a[0], q);
  }

  /** Sorted sequences repeat nothing. */
  lemma SortedDistinct(a: seq<string>)
    requires StrictlySorted(a)
    ensures forall i, j :: 0 <= i < j < |a| ==> a[i] != a[j]
  {
    forall i, j | 0 <= i < j < |a| ensures a[i] != a[j] {
      BeforeIrreflexive(a[i]);
    }
  }

  function Keep(paths: seq<string>, keep: string -> bool): seq<string> {
    if paths == [] then []
    else (if keep(paths[0]) then [paths[0]] else []) + Keep(paths[1..], keep)
  }

  /** Dropping paths from a sorted listing leaves it sorted. */
  lemma {:induction false} KeepSorted(paths: seq<string>, keep: string -> bool)
    requires StrictlySorted(paths)
    ensures StrictlySorted(Keep(paths, keep))
    ensures Elements(Keep(paths, keep)) == set p | p in Elements(paths) && keep(p)
  {
    if paths != [] {
      SortedTail(paths);
      KeepSorted(paths[1..], keep);
      var rest := Keep(paths[1..], keep);
      forall q | q in Elements(rest) ensures Before(paths[0], q) {
        assert q in paths[1..];
      }
      ConsSorted(paths[0], rest);
      assert [] + rest == rest;
      assert Elements(paths) == {paths[0]} + Elements(paths[1..]);
    }
  }

  /** Sorting what is kept is keeping what is sorted. */
  lemma SortedPathsOfKept(paths: set<string>, keep: string -> bool)
    ensures SortedPaths(set p | p in paths && keep(p)) == Keep(SortedPaths(paths), keep)
  {
    var kept := set p | p in paths && keep(p);
    SortedPathsIsSorted(paths);
    SortedPathsIsSorted(kept);
    KeepSorted(SortedPaths(paths), keep);
    SortedUnique(SortedPaths(kept), Keep(SortedPaths(paths), keep));
  }
}
