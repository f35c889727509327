/**
 * What a breadth-first search is about: paths of labelled steps, and the finite set of states
 * reachable within a number of steps of a finitely branching successor function.
 */
module Reachability {

  datatype Problem<!S, !L> = Problem(init: S, succ: S -> seq<(L, S)>, maxDepth: nat)

  /** `x` is a successor of `y`. */
  predicate Follows<S(==), L>(p: Problem<S, L>, y: S, x: S) {
    exists i :: 0 <= i < |p.succ(y)| && p.succ(y)[i].1 == x
  }

  ghost predicate Path<S(!new), L(!new)>(p: Problem<S, L>, from: S, labels: seq<L>, to: S)
    decreases |labels|
  {
    if labels == [] then from == to
    else exists mid :: (labels[0], mid) in p.succ(from) && Path(p, mid, labels[1..], to)
  }

  /** The states reachable from the initial state in at most `n` steps. */
  ghost function Within<S(!new), L(!new)>(p: Problem<S, L>, n: nat): set<S> {
    if n == 0 then {p.init}
    else
      var inner := Within(p, n - 1);
      inner + set x, i | x in inner && 0 <= i < |p.succ(x)| :: p.succ(x)[i].1
  }

  lemma WithinStep<S(!new), L(!new)>(p: Problem<S, L>, n: nat, y: S, x: S)
    requires y in Within(p, n) && Follows(p, y, x)
    ensures x in Within(p, n + 1)
  {
    var inner := Within(p, n);
    var i :| 0 <= i < |p.succ(y)| && p.succ(y)[i].1 == x;
    assert x in set x, i | x in inner && 0 <= i < |p.succ(x)| :: p.succ(x)[i].1;
  }

  lemma WithinStepBack<S(!new), L(!new)>(p: Problem<S, L>, n: nat, x: S) returns (y: S)
    requires x in Within(p, n + 1) && x !in Within(p, n)
    ensures y in Within(p, n) && Follows(p, y, x)
  {
    var inner := Within(p, n);
    var z, i :| z in inner && 0 <= i < |p.succ(z)| && p.succ(z)[i].1 == x;
    y := z;
  }

  lemma {:induction false} WithinMonotone<S(!new), L(!new)>(p: Problem<S, L>, m: nat, n: nat)
    requires m <= n
    ensures Within(p, m) <= Within(p, n)
  {
    if m < n {
      WithinMonotone(p, m, n - 1);
    }
  }

  lemma {:induction false} PathExtends<S(!new), L(!new)>(p: Problem<S, L>, from: S, labels: seq<L>, mid: S, last: L, to: S)
    requires Path(p, from, labels, mid) && (last, to) in p.succ(mid)
    ensures Path(p, from, labels + [last], to)
    decreases |labels|
  {
    var longer := labels + [last];
    if labels == [] {
      assert longer[1..] == [];
      assert Path(p, to, longer[1..], to);
    } else {
      var next :| (labels[0], next) in p.succ(from) && Path(p, next, labels[1..], mid);
      PathExtends(p, next, labels[1..], mid, last, to);
      assert longer[1..] == labels[1..] + [last];
      assert (longer[0], next) in p.succ(from) && Path(p, next, longer[1..], to);
    }
  }

  lemma {:induction false} PathWithin<S(!new), L(!new)>(p: Problem<S, L>, from: S, labels: seq<L>, to: S, n: nat)
    requires Path(p, from, labels, to) && from in Within(p, n)
    ensures to in Within(p, n + |labels|)
    decreases |labels|
  {
    if labels != [] {
      var next :| (labels[0], next) in p.succ(from) && Path(p, next, labels[1..], to);
      var i :| 0 <= i < |p.succ(from)| && p.succ(from)[i] == (labels[0], next);
      assert Follows(p, from, next);
      WithinStep(p, n, from, next);
      PathWithin(p, next, labels[1..], to, n + 1);
    }
  }

  lemma {:induction false} WithinHasPath<S(!new), L(!new)>(p: Problem<S, L>, n: nat, x: S) returns (labels: seq<L>)
    requires x in Within(p, n)
    ensures |labels| <= n && Path(p, p.init, labels, x)
  {
    if n == 0 {
      labels := [];
    } else if x in Within(p, n - 1) {
      labels := WithinHasPath(p, n - 1, x);
    } else {
      var y := WithinStepBack(p, n - 1, x);
      var front := WithinHasPath(p, n - 1, y);
      var i :| 0 <= i < |p.succ(y)| && p.succ(y)[i].1 == x;
      PathExtends(p, p.init, front, y, p.succ(y)[i].0, x);
      labels := front + [p.succ(y)[i].0];
    }
  }

  ghost predicate ReachableIn<S(!new), L(!new)>(p: Problem<S, L>, n: nat, x: S) {
    exists labels :: Path(p, p.init, labels, x) && |labels| <= n
  }

  lemma ReachableIsWithin<S(!new), L(!new)>(p: Problem<S, L>, n: nat, x: S)
    requires ReachableIn(p, n, x)
    ensures x in Within(p, n)
  {
    var labels :| Path(p, p.init, labels, x) && |labels| <= n;
    PathWithin(p, p.init, labels, x, 0);
    WithinMonotone(p, |labels|, n);
  }

  /** Being within `n` steps is having a path of at most `n` labels from the initial state. */
  lemma WithinIsReachable<S(!new), L(!new)>(p: Problem<S, L>, n: nat, x: S)
    ensures x in Within(p, n) <==> ReachableIn(p, n, x)
  {
    if x in Within(p, n) {
      var labels := WithinHasPath(p, n, x);
      assert Path(p, p.init, labels, x) && |labels| <= n;
    }
    if ReachableIn(p, n, x) {
      ReachableIsWithin(p, n, x);
    }
  }

  ghost predicate ClosedUnderSteps<S(!new), L(!new)>(p: Problem<S, L>, states: set<S>) {
    forall y, x :: y in states && Follows(p, y, x) ==> x in states
  }

  /** What holds initially and is kept by every step holds of every reachable state. */
  lemma {:induction false} InductiveHolds<S(!new), L(!new)>(p: Problem<S, L>, inv: S -> bool, n: nat, x: S)
    requires inv(p.init) && forall y, z :: inv(y) && Follows(p, y, z) ==> inv(z)
    requires x in Within(p, n)
    ensures inv(x)
  {
    if n > 0 {
      if x in Within(p, n - 1) {
        InductiveHolds(p, inv, n - 1, x);
      } else {
        var y := WithinStepBack(p, n - 1, x);
        InductiveHolds(p, inv, n - 1, y);
      }
    }
  }

  /** A set that holds the initial state and is closed under steps holds everything reachable. */
  lemma ClosedHoldsAll<S(!new), L(!new)>(p: Problem<S, L>, states: set<S>, n: nat)
    requires p.init in states && ClosedUnderSteps(p, states)
    ensures Within(p, n) <= states
  {
    forall x | x in Within(p, n) ensures x in states {
      InductiveHolds(p, (y: S) => y in states, n, x);
    }
  }

  /** The same with the number of steps: what a layer hands on to the next holds of every layer. */
  lemma {:induction false} LayersHold<S(!new), L(!new)>(p: Problem<S, L>, inv: (nat, S) -> bool, n: nat, x: S)
    requires inv(0, p.init) && (forall k: nat, y :: inv(k, y) ==> inv(k + 1, y))
    requires forall k: nat, y, z :: inv(k, y) && Follows(p, y, z) ==> inv(k + 1, z)
    requires x in Within(p, n)
    ensures inv(n, x)
  {
    if n > 0 {
      if x in Within(p, n - 1) {
        LayersHold(p, inv, n - 1, x);
      } else {
        var y := WithinStepBack(p, n - 1, x);
        LayersHold(p, inv, n - 1, y);
      }
    }
  }

  predicate StaysOrFollows<S(==), L>(p: Problem<S, L>, y: S, x: S) {
    x == y || Follows(p, y, x)
  }

  /** A chain of states, each a successor of the one before or the same again, stays within its length. */
  lemma {:induction false} ChainWithin<S(!new), L(!new)>(p: Problem<S, L>, chain: seq<S>, n: nat)
    requires 0 < |chain| <= n + 1 && chain[0] == p.init
    requires forall i :: 0 < i < |chain| ==> StaysOrFollows(p, chain[i - 1], chain[i])
    ensures chain[|chain| - 1] in Within(p, n)
    decreases n
  {
    if |chain| == 1 {
      WithinMonotone(p, 0, n);
    } else {
      var k := |chain| - 1;
      assert chain[..k][k - 1] == chain[k - 1];
      ChainWithin(p, chain[..k], n - 1);
      assert StaysOrFollows(p, chain[k - 1], chain[k]);
      if chain[k] == chain[k - 1] {
        WithinMonotone(p, n - 1, n);
      } else {
        WithinStep(p, n - 1, chain[k - 1], chain[k]);
      }
    }
  }
}
