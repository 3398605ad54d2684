/** Counting and weighing the tasks of a run by their status. */
module StatusSums {

  /** Where an issued task stands. */
  datatype Status = InFlight | Succeeded | Failed

  function Count(s: seq<Status>, x: Status): nat {
    if s == [] then 0
    else Count(s[..|s| - 1], x) + if s[|s| - 1] == x then 1 else 0
  }

  /** The weights of the tasks that have status `x`. */
  function Weigh(weights: seq<nat>, s: seq<Status>, x: Status): nat
    requires |s| <= |weights|
  {
    if s == [] then 0
    else Weigh(weights, s[..|s| - 1], x) + if s[|s| - 1] == x then weights[|s| - 1] else 0
  }

  function Total(weights: seq<nat>): nat {
    if weights == [] then 0 else Total(weights[..|weights| - 1]) + weights[|weights| - 1]
  }

  function Fresh(n: nat): (s: seq<Status>)
    ensures |s| == n && forall i :: 0 <= i < n ==> s[i] == InFlight
  {
    seq(n, _ => InFlight)
  }

  lemma {:induction false} CountPartition(s: seq<Status>)
    ensures Count(s, InFlight) + Count(s, Succeeded) + Count(s, Failed) == |s|
  {
    if s != [] {
      CountPartition(s[..|s| - 1]);
    }
  }

  lemma {:induction false} CountZero(s: seq<Status>, x: Status)
    ensures Count(s, x) == 0 <==> forall i :: 0 <= i < |s| ==> s[i] != x
  {
    if s != [] {
      CountZero(s[..|s| - 1], x);
    }
  }

  lemma {:induction false} CountUpdate(s: seq<Status>, i: nat, v: Status, x: Status)
    requires i < |s|
    ensures Count(s[i := v], x) + (if s[i] == x then 1 else 0) == Count(s, x) + if v == x then 1 else 0
  {
    var front := s[..|s| - 1];
    if i < |s| - 1 {
      CountUpdate(front, i, v, x);
      assert s[i := v][..|s| - 1] == front[i := v];
    } else {
      assert s[i := v][..|s| - 1] == front;
    }
  }

  lemma {:induction false} CountAppendFresh(s: seq<Status>, n: nat, x: Status)
    ensures Count(s + Fresh(n), x) == Count(s, x) + if x == InFlight then n else 0
  {
    if n == 0 {
      assert s + Fresh(0) == s;
    } else {
      CountAppendFresh(s, n - 1, x);
      assert (s + Fresh(n))[..|s| + n - 1] == s + Fresh(n - 1);
    }
  }

  lemma {:induction false} WeighUpdate(weights: seq<nat>, s: seq<Status>, i: nat, v: Status, x: Status)
    requires |s| <= |weights| && i < |s|
    ensures Weigh(weights, s[i := v], x) + (if s[i] == x then weights[i] else 0)
            == Weigh(weights, s, x) + if v == x then weights[i] else 0
  {
    var front := s[..|s| - 1];
    if i < |s| - 1 {
      WeighUpdate(weights, front, i, v, x);
      assert s[i := v][..|s| - 1] == front[i := v];
    } else {
      assert s[i := v][..|s| - 1] == front;
    }
  }

  /** New tasks start in flight, so they add nothing to what has come back. */
  lemma {:induction false} WeighAppendFresh(weights: seq<nat>, s: seq<Status>, n: nat, x: Status)
    requires |s| + n <= |weights| && x != InFlight
    ensures Weigh(weights, s + Fresh(n), x) == Weigh(weights, s, x)
  {
    if n == 0 {
      assert s + Fresh(0) == s;
    } else {
      WeighAppendFresh(weights, s, n - 1, x);
      assert (s + Fresh(n))[..|s| + n - 1] == s + Fresh(n - 1);
    }
  }

  lemma {:induction false} WeighMoreWeights(weights: seq<nat>, more: seq<nat>, s: seq<Status>, x: Status)
    requires |s| <= |weights| && weights <= more
    ensures Weigh(more, s, x) == Weigh(weights, s, x)
  {
    if s != [] {
      WeighMoreWeights(weights, more, s[..|s| - 1], x);
    }
  }

  lemma {:induction false} WeighPartition(weights: seq<nat>, s: seq<Status>)
    requires |s| <= |weights|
    ensures Weigh(weights, s, InFlight) + Weigh(weights, s, Succeeded) + Weigh(weights, s, Failed)
            == Total(weights[..|s|])
  {
    if s != [] {
      WeighPartition(weights, s[..|s| - 1]);
      assert weights[..|s|][..|s| - 1] == weights[..|s| - 1];
    }
  }
}
