/**
 * The vector checker's `explore`: it keeps the depth of every discovered state in a dictionary,
 * reports a counterexample step by step, and probes the states at the bound after the search.
 */
module SearchExplore {
  import opened Common
  import opened Reachability
  import opened SearchInvariant
  import opened Search
  import opened SearchFrontier

  datatype Outcome<+S, +L, +P> =
    | StartRejected(property: P)
    | CounterexampleFound(property: P, steps: seq<(L, S)>)
    | BoundReached
    | Exhausted

  /** Each step is an edge out of the state the previous one led to. */
  ghost predicate Steps<S(!new), L(!new)>(p: Problem<S, L>, from: S, steps: seq<(L, S)>) {
    forall i :: 0 <= i < |steps| ==> steps[i] in p.succ(Before(from, steps, i))
  }

  function Before<S, L>(from: S, steps: seq<(L, S)>, i: nat): S
    requires i <= |steps|
  {
    if i == 0 then from else steps[i - 1].1
  }

  /**
   * A counterexample is a shortest sequence of real steps into a violation.  A search that ends at
   * the bound has checked everything within it, and something lies beyond.  An exhausted search
   * has checked everything reachable at any depth.
   */
  ghost predicate OutcomeIsRight<S(!new), L(!new), P(!new)>(
    p: Problem<S, L>, check: S -> Option<P>, outcome: Outcome<S, L, P>)
  {
    match outcome
    case StartRejected(property) => check(p.init) == Some(property)
    case CounterexampleFound(property, steps) =>
      && 0 < |steps| <= p.maxDepth && Steps(p, p.init, steps)
      && check(steps[|steps| - 1].1) == Some(property)
      && Holds(check, Within(p, |steps| - 1))
    case BoundReached =>
      && Holds(check, Within(p, p.maxDepth))
      && !ClosedUnderSteps(p, Within(p, p.maxDepth))
    case Exhausted =>
      && ClosedUnderSteps(p, Within(p, p.maxDepth))
      && forall n: nat :: Holds(check, Within(p, n))
  }

  /** The dictionaries of `explore` say what the snapshot says. */
  ghost predicate Mirrors<S(!new), L(!new)>(
    p: Problem<S, L>, c: Snap<S, L>, queue: seq<S>, parent: map<S, Option<(S, L)>>, depth: map<S, nat>)
  {
    && c.dist == depth && parent.Keys == depth.Keys
    && |c.queue| == |queue| && (forall i :: 0 <= i < |queue| ==> c.queue[i].0 == queue[i])
    && (forall x :: x in parent ==>
          (parent[x].None? <==> x == p.init) && (parent[x].Some? ==> x in c.parents && parent[x].value == c.parents[x]))
  }

  lemma StepsPrepend<S(!new), L(!new)>(p: Problem<S, L>, from: S, first: (L, S), rest: seq<(L, S)>)
    requires first in p.succ(from) && Steps(p, first.1, rest)
    ensures Steps(p, from, [first] + rest)
  {
    var steps := [first] + rest;
    forall i | 0 <= i < |steps| ensures steps[i] in p.succ(Before(from, steps, i)) {
      if i > 0 {
        assert steps[i] == rest[i - 1] && Before(from, steps, i) == Before(first.1, rest, i - 1);
      }
    }
  }

  /** The parent of a state, if it has one, is one step nearer; a state without one is the first. */
  ghost predicate LinksBack<S(!new), L(!new)>(
    p: Problem<S, L>, dist: map<S, nat>, parent: map<S, Option<(S, L)>>, x: S)
    requires x in dist
  {
    && x in parent
    && (parent[x].None? ==> x == p.init && dist[x] == 0)
    && (parent[x].Some? ==>
          && parent[x].value.0 in dist && dist[x] == dist[parent[x].value.0] + 1
          && (parent[x].value.1, x) in p.succ(parent[x].value.0))
  }

  lemma MirrorsLinkBack<S(!new), L(!new)>(
    p: Problem<S, L>, c: Snap<S, L>, queue: seq<S>, parent: map<S, Option<(S, L)>>, depth: map<S, nat>)
    requires Mirrors(p, c, queue, parent, depth) && Parented(p, c) && Grounded(p, c)
    ensures forall x :: x in c.dist ==> LinksBack(p, c.dist, parent, x)
  {
    forall x | x in c.dist ensures LinksBack(p, c.dist, parent, x) {
      assert x != p.init ==> ParentAt(p, c, x);
    }
  }

  method TraceSteps<S(==,!new), L(!new)>(
    ghost p: Problem<S, L>, ghost dist: map<S, nat>,
    parent: map<S, Option<(S, L)>>, cur: S, last: (L, S)) returns (steps: seq<(L, S)>)
    requires forall x :: x in dist ==> LinksBack(p, dist, parent, x)
    requires cur in dist && last in p.succ(cur)
    ensures |steps| == dist[cur] + 1 && steps[|steps| - 1] == last
    ensures Steps(p, p.init, steps)
  {
    steps := [last];
    var cursor := cur;
    assert LinksBack(p, dist, parent, cursor);
    while parent[cursor].Some?
      invariant cursor in dist && 0 < |steps| && LinksBack(p, dist, parent, cursor)
      invariant Steps(p, cursor, steps) && steps[|steps| - 1] == last
      invariant |steps| + dist[cursor] == dist[cur] + 1
      decreases dist[cursor]
    {
      var (previous, action) := parent[cursor].value;
      StepsPrepend(p, previous, (action, cursor), steps);
      steps := [(action, cursor)] + steps;
      cursor := previous;
    }
  }

  lemma MirrorsDiscovered<S(!new), L(!new)>(
    p: Problem<S, L>, c: Snap<S, L>, queue: seq<S>, parent: map<S, Option<(S, L)>>, depth: map<S, nat>,
    cur: S, d: nat, edge: (L, S))
    requires Mirrors(p, c, queue, parent, depth) && edge.1 !in c.dist && p.init in c.dist
    ensures Mirrors(p, Discovered(c, cur, d, edge), queue + [edge.1],
                    parent[edge.1 := Some((cur, edge.0))], depth[edge.1 := d + 1])
  {
  }

  lemma ExploreViolation<S(!new), L(!new), P(!new)>(
    p: Problem<S, L>, c: Snap<S, L>, check: S -> Option<P>, cur: S, d: nat, i: nat, steps: seq<(L, S)>)
    requires Inner(p, c, cur, d, i) && d < p.maxDepth && Holds(check, c.dist.Keys)
    requires |steps| == d + 1 && Steps(p, p.init, steps) && check(steps[d].1).Some?
    ensures OutcomeIsRight(p, check, CounterexampleFound(check(steps[d].1).value, steps))
  {
    InnerComplete(p, c, cur, d, i);
  }

  /** The counterexample through edge `i` of the state being expanded. */
  method Report<S(==,!new), L(!new), P(!new)>(
    p: Problem<S, L>, check: S -> Option<P>, current: S, currentDepth: nat, i: nat, property: P,
    parent: map<S, Option<(S, L)>>, ghost queue: seq<S>, ghost depth: map<S, nat>, ghost c: Snap<S, L>)
    returns (outcome: Outcome<S, L, P>)
    requires Inner(p, c, current, currentDepth, i) && currentDepth < p.maxDepth && Holds(check, c.dist.Keys)
    requires Mirrors(p, c, queue, parent, depth)
    requires i < |p.succ(current)| && check(p.succ(current)[i].1) == Some(property)
    ensures outcome.CounterexampleFound? && OutcomeIsRight(p, check, outcome)
  {
    MirrorsLinkBack(p, c, queue, parent, depth);
    var steps := TraceSteps(p, c.dist, parent, current, p.succ(current)[i]);
    ExploreViolation(p, c, check, current, currentDepth, i, steps);
    outcome := CounterexampleFound(property, steps);
  }

  method ExploreState<S(==,!new), L(!new), P(!new)>(
    p: Problem<S, L>, check: S -> Option<P>, current: S, currentDepth: nat, queue0: seq<S>,
    parent0: map<S, Option<(S, L)>>, depth0: map<S, nat>, ghost c0: Snap<S, L>)
    returns (found: Option<Outcome<S, L, P>>, queue: seq<S>, parent: map<S, Option<(S, L)>>,
             depth: map<S, nat>, ghost c: Snap<S, L>)
    requires Inner(p, c0, current, currentDepth, 0) && currentDepth < p.maxDepth && Holds(check, c0.dist.Keys)
    requires Mirrors(p, c0, queue0, parent0, depth0)
    ensures found.Some? ==> found.value.CounterexampleFound? && OutcomeIsRight(p, check, found.value)
    ensures found.None? ==> Inner(p, c, current, currentDepth, |p.succ(current)|) && Holds(check, c.dist.Keys)
    ensures Mirrors(p, c, queue, parent, depth) && c.done == c0.done
    ensures forall x :: x in c0.dist ==> x in c.dist && c.dist[x] == c0.dist[x]
  {
    queue, parent, depth, c := queue0, parent0, depth0, c0;
    var edges := p.succ(current);
    for i := 0 to |edges|
      invariant Inner(p, c, current, currentDepth, i) && Holds(check, c.dist.Keys)
      invariant Mirrors(p, c, queue, parent, depth) && c.done == c0.done
      invariant forall x :: x in c0.dist ==> x in c.dist && c.dist[x] == c0.dist[x]
    {
      var edge := edges[i];
      var violation := check(edge.1);
      if violation.Some? {
        var outcome := Report(p, check, current, currentDepth, i, violation.value, parent, queue, depth, c);
        found := Some(outcome);
        return;
      }
      if edge.1 !in parent {
        DiscoverInner(p, c, current, currentDepth, i);
        MirrorsDiscovered(p, c, queue, parent, depth, current, currentDepth, edge);
        c := Discovered(c, current, currentDepth, edge);
        parent := parent[edge.1 := Some((current, edge.0))];
        depth := depth[edge.1 := currentDepth + 1];
        queue := queue + [edge.1];
      } else {
        KnownInner(p, c, current, currentDepth, i);
      }
    }
    found := None;
  }

  /** The states expanded at the bound are the ones in the list of cutoff states. */
  ghost predicate CutoffsListed<S(!new), L(!new)>(p: Problem<S, L>, c: Snap<S, L>, cutoffs: seq<S>) {
    && (forall i :: 0 <= i < |cutoffs| ==> cutoffs[i] in c.dist)
    && (forall x :: x in c.done && x in c.dist && c.dist[x] == p.maxDepth ==> x in cutoffs)
  }

  /** After the search: does any state at the bound have a successor that was never discovered? */
  method ProbeCutoffs<S(==,!new), L(!new)>(p: Problem<S, L>, seen: set<S>, cutoffs: seq<S>)
    returns (unseen: set<S>)
    ensures forall x :: x in unseen <==> x !in seen && exists i :: 0 <= i < |cutoffs| && Follows(p, cutoffs[i], x)
  {
    unseen := {};
    for n := 0 to |cutoffs|
      invariant forall x :: x in unseen <==> x !in seen && exists i :: 0 <= i < n && Follows(p, cutoffs[i], x)
    {
      var novel := NewSuccessors(p, seen, cutoffs[n]);
      unseen := unseen + novel;
    }
  }

  method NewSuccessors<S(==,!new), L(!new)>(p: Problem<S, L>, seen: set<S>, y: S) returns (novel: set<S>)
    ensures forall x :: x in novel <==> x !in seen && Follows(p, y, x)
  {
    novel := {};
    var edges := p.succ(y);
    for j := 0 to |edges|
      invariant forall x :: x in novel <==> x !in seen && exists i :: 0 <= i < j && edges[i].1 == x
    {
      if edges[j].1 !in seen {
        novel := novel + {edges[j].1};
      }
    }
  }

  lemma ExploreClosed<S(!new), L(!new), P(!new)>(
    p: Problem<S, L>, c: Snap<S, L>, check: S -> Option<P>, cutoffs: seq<S>, unseen: set<S>)
    requires Outer(p, c) && c.queue == [] && Holds(check, c.dist.Keys) && CutoffsListed(p, c, cutoffs)
    requires forall x :: x in unseen <==> x !in c.dist && exists i :: 0 <= i < |cutoffs| && Follows(p, cutoffs[i], x)
    ensures OutcomeIsRight(p, check, if unseen == {} then Exhausted else BoundReached)
  {
    SeenIsAll(p, c);
    var all := Within(p, p.maxDepth);
    if unseen == {} {
      forall y, x | y in all && Follows(p, y, x) ensures x in all {
        if c.dist[y] < p.maxDepth {
          assert SuccessorsSeen(p, c, y, |p.succ(y)|);
        } else {
          assert y in cutoffs;
        }
      }
      forall n: nat ensures Holds(check, Within(p, n)) {
        ClosedHoldsAll(p, all, n);
      }
    } else {
      var x :| x in unseen;
      var i :| 0 <= i < |cutoffs| && Follows(p, cutoffs[i], x);
      assert cutoffs[i] in all && x !in all;
    }
  }

  /** One iteration of the outer loop. */
  method ExploreNext<S(==,!new), L(!new), P(!new)>(
    p: Problem<S, L>, check: S -> Option<P>, queue0: seq<S>,
    parent0: map<S, Option<(S, L)>>, depth0: map<S, nat>, cutoffs0: seq<S>, ghost c0: Snap<S, L>)
    returns (found: Option<Outcome<S, L, P>>, queue: seq<S>, parent: map<S, Option<(S, L)>>,
             depth: map<S, nat>, cutoffs: seq<S>, ghost c: Snap<S, L>)
    requires Outer(p, c0) && queue0 != [] && Holds(check, c0.dist.Keys)
    requires Mirrors(p, c0, queue0, parent0, depth0) && CutoffsListed(p, c0, cutoffs0)
    ensures found.Some? ==> found.value.CounterexampleFound? && OutcomeIsRight(p, check, found.value)
    ensures found.None? ==>
      && Outer(p, c) && Holds(check, c.dist.Keys)
      && Mirrors(p, c, queue, parent, depth) && CutoffsListed(p, c, cutoffs)
      && c.done == c0.done + {queue0[0]}
      && queue0[0] in Within(p, p.maxDepth) && queue0[0] !in c0.done
  {
    parent, depth, cutoffs := parent0, depth0, cutoffs0;
    var current := queue0[0];
    queue := queue0[1..];
    var currentDepth := depth[current];
    PopInner(p, c0);
    SeenIsWithin(p, c0);
    PopMirrors(p, c0, queue0, parent0, depth0);
    c := Popped(c0);
    found := None;
    if currentDepth == p.maxDepth {
      CutoffReached(p, c0, cutoffs, current);
      cutoffs := cutoffs + [current];
      FinishOuter(p, c, current, currentDepth, 0);
      c := Finished(c, current);
    } else {
      found, queue, parent, depth, c := ExploreState(p, check, current, currentDepth, queue, parent, depth, c);
      if found.None? {
        FinishOuter(p, c, current, currentDepth, |p.succ(current)|);
        CutoffsKept(p, c0, c, cutoffs, current);
      }
      c := Finished(c, current);
    }
  }

  lemma PopMirrors<S(!new), L(!new)>(
    p: Problem<S, L>, c: Snap<S, L>, queue: seq<S>, parent: map<S, Option<(S, L)>>, depth: map<S, nat>)
    requires Mirrors(p, c, queue, parent, depth) && queue != []
    ensures c.queue != [] && c.queue[0].0 == queue[0]
    ensures Mirrors(p, Popped(c), queue[1..], parent, depth)
  {
  }

  lemma CutoffReached<S(!new), L(!new)>(p: Problem<S, L>, c: Snap<S, L>, cutoffs: seq<S>, cur: S)
    requires CutoffsListed(p, c, cutoffs) && cur in c.dist && c.queue != []
    ensures CutoffsListed(p, Finished(Popped(c), cur), cutoffs + [cur])
  {
  }

  lemma CutoffsKept<S(!new), L(!new)>(p: Problem<S, L>, c0: Snap<S, L>, c: Snap<S, L>, cutoffs: seq<S>, cur: S)
    requires CutoffsListed(p, c0, cutoffs) && c.done == c0.done && c0.done <= c0.dist.Keys
    requires forall x :: x in c0.dist ==> x in c.dist && c.dist[x] == c0.dist[x]
    requires cur in c.dist && c.dist[cur] != p.maxDepth
    ensures CutoffsListed(p, Finished(c, cur), cutoffs)
  {
  }

  method Explore<S(==,!new), L(!new), P(!new)>(p: Problem<S, L>, check: S -> Option<P>)
    returns (outcome: Outcome<S, L, P>, statesChecked: nat)
    ensures OutcomeIsRight(p, check, outcome)
    ensures outcome.BoundReached? || outcome.Exhausted? ==> statesChecked == |Within(p, p.maxDepth)|
  {
    var own := check(p.init);
    if own.Some? {
      return StartRejected(own.value), 0;
    }
    var queue := [p.init];
    var parent: map<S, Option<(S, L)>> := map[p.init := None];
    var depth: map<S, nat> := map[p.init := 0];
    var cutoffs: seq<S> := [];
    ghost var c: Snap<S, L> := Start(p);
    StartOuter(p);
    while queue != []
      invariant Outer(p, c) && Holds(check, c.dist.Keys)
      invariant Mirrors(p, c, queue, parent, depth) && CutoffsListed(p, c, cutoffs)
      decreases Within(p, p.maxDepth) - c.done
    {
      var found;
      found, queue, parent, depth, cutoffs, c := ExploreNext(p, check, queue, parent, depth, cutoffs, c);
      if found.Some? {
        return found.value, |parent|;
      }
    }
    var unseen := ProbeCutoffs(p, parent.Keys, cutoffs);
    ExploreClosed(p, c, check, cutoffs, unseen);
    SeenIsAll(p, c);
    assert |parent| == |parent.Keys|;
    return if unseen == {} then Exhausted else BoundReached, |parent|;
  }
}
