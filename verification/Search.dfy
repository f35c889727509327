/**
 * The bounded checkers' search loops over an arbitrary finitely branching successor function and
 * an arbitrary check: `check_model`, `analyze_frontier` and the vector checker's `explore`.
 * Their verdicts are proved against reachability: what a pass covers, that a counterexample is a
 * real and shortest path, and that an exhausted frontier covers every depth.
 */
module Search {
  import opened Common
  import opened Reachability
  import opened SearchInvariant

  ghost predicate Holds<S(!new), P>(check: S -> Option<P>, states: set<S>) {
    forall x :: x in states ==> check(x).None?
  }

  /** All discovered states passed the check; the initial one passes when it is first expanded. */
  ghost predicate Checked<S(!new), L(!new), P>(p: Problem<S, L>, c: Snap<S, L>, check: S -> Option<P>) {
    && Holds(check, c.dist.Keys - {p.init})
    && (p.init in c.done ==> check(p.init).None?)
  }

  lemma FirstPopIsInitial<S(!new), L(!new)>(p: Problem<S, L>, c: Snap<S, L>)
    requires Outer(p, c) && c.queue != [] && p.init !in c.done
    ensures c.queue[0].1 == 0
  {
    assert Queued(c, p.init);
    var i :| 0 <= i < |c.queue| && c.queue[i].0 == p.init;
    assert c.queue[0].1 <= c.queue[i].1;
  }

  // ---- check_model ----

  datatype Verdict<+L, +P> =
    | Passed
    | Raised(property: P)                    // the initial state itself fails: the error is not caught
    | Violated(property: P, trace: seq<L>)

  ghost predicate Counterexample<S(!new), L(!new), P(!new)>(
    p: Problem<S, L>, check: S -> Option<P>, property: P, trace: seq<L>)
  {
    exists bad :: Path(p, p.init, trace, bad) && check(bad) == Some(property)
  }

  /** A real path to a violation, and no violation is reachable in fewer steps. */
  ghost predicate ShortestCounterexample<S(!new), L(!new), P(!new)>(
    p: Problem<S, L>, check: S -> Option<P>, property: P, trace: seq<L>)
  {
    && Counterexample(p, check, property, trace)
    && 0 < |trace| <= p.maxDepth
    && Holds(check, Within(p, |trace| - 1))
  }

  ghost predicate VerdictIsRight<S(!new), L(!new), P(!new)>(
    p: Problem<S, L>, check: S -> Option<P>, verdict: Verdict<L, P>)
  {
    match verdict
    case Passed => Holds(check, Within(p, p.maxDepth))
    case Raised(property) => check(p.init) == Some(property)
    case Violated(property, trace) => ShortestCounterexample(p, check, property, trace)
  }

  lemma ViolationIsShortest<S(!new), L(!new), P(!new)>(
    p: Problem<S, L>, c: Snap<S, L>, check: S -> Option<P>, cur: S, d: nat, i: nat, trace: seq<L>, bad: S)
    requires Inner(p, c, cur, d, i) && d < p.maxDepth && Holds(check, c.dist.Keys)
    requires |trace| == d + 1 && Path(p, p.init, trace, bad) && check(bad).Some?
    ensures ShortestCounterexample(p, check, check(bad).value, trace)
  {
    InnerComplete(p, c, cur, d, i);
    assert Path(p, p.init, trace, bad) && check(bad) == Some(check(bad).value);
  }

  /** The inner loop: deals with every successor of `state`, unless one fails the check. */
  method ExpandState<S(==,!new), L(!new), P(!new)>(
    p: Problem<S, L>, check: S -> Option<P>, state: S, depth: nat,
    queue0: seq<(S, nat)>, seen0: set<S>, parents0: map<S, (S, L)>, ghost c0: Snap<S, L>)
    returns (verdict: Verdict<L, P>, queue: seq<(S, nat)>, seen: set<S>, parents: map<S, (S, L)>, ghost c: Snap<S, L>)
    requires Inner(p, c0, state, depth, 0) && depth < p.maxDepth && Holds(check, c0.dist.Keys)
    requires c0.queue == queue0 && c0.dist.Keys == seen0 && c0.parents == parents0
    ensures !verdict.Raised?
    ensures verdict.Violated? ==> VerdictIsRight(p, check, verdict)
    ensures verdict.Passed? ==> Inner(p, c, state, depth, |p.succ(state)|) && Holds(check, c.dist.Keys)
    ensures verdict.Violated? ==> |verdict.trace| == depth + 1
    ensures c.queue == queue && c.dist.Keys == seen && c.parents == parents && c.done == c0.done
    ensures forall x :: x in c0.dist ==> x in c.dist && c.dist[x] == c0.dist[x]
  {
    queue, seen, parents, c := queue0, seen0, parents0, c0;
    var edges := p.succ(state);
    for i := 0 to |edges|
      invariant Inner(p, c, state, depth, i) && Holds(check, c.dist.Keys)
      invariant c.queue == queue && c.dist.Keys == seen && c.parents == parents && c.done == c0.done
      invariant forall x :: x in c0.dist ==> x in c.dist && c.dist[x] == c0.dist[x]
    {
      var (action, candidate) := edges[i];
      var found := check(candidate);
      if found.Some? {
        var trace := Backtrack(p, c, parents, state, action, candidate);
        ViolationIsShortest(p, c, check, state, depth, i, trace, candidate);
        verdict := Violated(found.value, trace);
        return;
      }
      if candidate !in seen {
        DiscoverInner(p, c, state, depth, i);
        c := Discovered(c, state, depth, edges[i]);
        seen := seen + {candidate};
        parents := parents[candidate := (state, action)];
        queue := queue + [(candidate, depth + 1)];
      } else {
        KnownInner(p, c, state, depth, i);
      }
    }
    verdict := Passed;
  }

  /** The deepest expanded state lies at depth `m`. */
  ghost predicate Deepest<S(!new), L(!new)>(c: Snap<S, L>, m: nat) {
    && (forall x :: x in c.done && x in c.dist ==> c.dist[x] <= m)
    && (m == 0 || exists x :: x in c.done && x in c.dist && c.dist[x] == m)
  }

  /** A new state appears at depth `m`, and none beyond it within the bound. */
  ghost predicate LastLayer<S(!new), L(!new)>(p: Problem<S, L>, m: nat) {
    Within(p, p.maxDepth) == Within(p, m) && (m == 0 || Within(p, m - 1) != Within(p, m))
  }

  lemma DeepestCovers<S(!new), L(!new)>(p: Problem<S, L>, dist: map<S, nat>, m: nat)
    requires m <= p.maxDepth && dist.Keys == Within(p, p.maxDepth)
    requires forall x :: x in dist ==> x in Within(p, dist[x]) && dist[x] <= m
    ensures Within(p, p.maxDepth) == Within(p, m)
  {
    WithinMonotone(p, m, p.maxDepth);
    forall x | x in dist ensures x in Within(p, m) {
      WithinMonotone(p, dist[x], m);
    }
  }

  lemma DeepestIsNew<S(!new), L(!new)>(p: Problem<S, L>, c: Snap<S, L>, x: S, m: nat)
    requires SettledBelow(p, c, p.maxDepth) && 0 < m <= p.maxDepth && x in c.dist && c.dist[x] == m
    ensures x !in Within(p, m - 1)
  {
    LayerComplete(p, c, p.maxDepth, m - 1);
  }

  lemma DeepestIsLast<S(!new), L(!new)>(p: Problem<S, L>, c: Snap<S, L>, m: nat)
    requires Outer(p, c) && c.queue == [] && Deepest(c, m) && m <= p.maxDepth
    ensures LastLayer(p, m)
  {
    SeenIsAll(p, c);
    DeepestCovers(p, c.dist, m);
    if m > 0 {
      var x :| x in c.done && x in c.dist && c.dist[x] == m;
      DeepestIsNew(p, c, x, m);
      assert x in Within(p, m);
    }
  }

  /** The front of the queue is at least as deep as everything expanded. */
  lemma FrontIsDeepest<S(!new), L(!new)>(p: Problem<S, L>, c: Snap<S, L>, m: nat)
    requires Outer(p, c) && c.queue != [] && Deepest(c, m)
    ensures m <= c.queue[0].1
  {
  }

  lemma DeepestGrows<S(!new), L(!new)>(c: Snap<S, L>, cur: S, d: nat)
    requires Layered(c, d) && cur in c.dist && c.dist[cur] == d
    ensures Deepest(Finished(c, cur), d)
  {
    assert cur in Finished(c, cur).done;
  }

  /** Terminates for every problem; `Within` is finite because branching is. */
  method CheckModel<S(==,!new), L(!new), P(!new)>(p: Problem<S, L>, check: S -> Option<P>)
    returns (verdict: Verdict<L, P>, statesChecked: nat, maximumDepth: nat)
    ensures VerdictIsRight(p, check, verdict)
    ensures verdict.Passed? ==> statesChecked == |Within(p, p.maxDepth)|
    ensures verdict.Passed? ==> LastLayer(p, maximumDepth)
    ensures verdict.Violated? ==> |verdict.trace| == maximumDepth + 1
    ensures verdict.Raised? ==> maximumDepth == 0
    ensures maximumDepth <= p.maxDepth
  {
    var queue := [(p.init, 0)];
    var seen := {p.init};
    var parents: map<S, (S, L)> := map[];
    maximumDepth := 0;
    ghost var c: Snap<S, L> := Start(p);
    StartOuter(p);
    while queue != []
      invariant Outer(p, c) && Checked(p, c, check)
      invariant c.queue == queue && c.dist.Keys == seen && c.parents == parents
      invariant maximumDepth <= p.maxDepth && Deepest(c, maximumDepth)
      decreases Within(p, p.maxDepth) - c.done
    {
      var (state, depth) := queue[0];
      queue := queue[1..];
      PopChecked(p, c, check);
      FrontIsDeepest(p, c, maximumDepth);
      c := Popped(c);
      maximumDepth := if maximumDepth < depth then depth else maximumDepth;
      var own := check(state);
      if own.Some? {
        return Raised(own.value), |seen|, maximumDepth;
      }
      if depth < p.maxDepth {
        verdict, queue, seen, parents, c := ExpandState(p, check, state, depth, queue, seen, parents, c);
        if verdict.Violated? {
          return verdict, |seen|, maximumDepth;
        }
        FinishOuter(p, c, state, depth, |p.succ(state)|);
      } else {
        FinishOuter(p, c, state, depth, 0);
      }
      DeepestGrows(c, state, depth);
      c := Finished(c, state);
    }
    SeenIsAll(p, c);
    DeepestIsLast(p, c, maximumDepth);
    return Passed, |seen|, maximumDepth;
  }

  /** What holds after taking the front of the queue: only the initial state can still fail its check. */
  lemma PopChecked<S(!new), L(!new), P(!new)>(p: Problem<S, L>, c: Snap<S, L>, check: S -> Option<P>)
    requires Outer(p, c) && Checked(p, c, check) && c.queue != []
    ensures var (cur, d) := c.queue[0];
      && Inner(p, Popped(c), cur, d, 0) && d <= p.maxDepth
      && cur in Within(p, p.maxDepth) && cur !in c.done
      && (check(cur).Some? ==> cur == p.init && d == 0)
      && (check(cur).None? ==> Holds(check, c.dist.Keys))
  {
    var (cur, d) := c.queue[0];
    PopInner(p, c);
    SeenIsWithin(p, c);
    if p.init !in c.done {
      FirstPopIsInitial(p, c);
    }
    if check(cur).None? {
      InitialChecked(p, Popped(c), check, cur, d);
    }
  }

  lemma InitialChecked<S(!new), L(!new), P(!new)>(
    p: Problem<S, L>, c: Snap<S, L>, check: S -> Option<P>, cur: S, d: nat)
    requires Inner(p, c, cur, d, 0) && Checked(p, c, check) && check(cur).None?
    requires p.init !in c.done ==> d == 0
    ensures Holds(check, c.dist.Keys)
  {
    assert cur == p.init || ParentAt(p, c, cur);
  }
}
