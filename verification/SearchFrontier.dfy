/**
 * `analyze_frontier`: the same search with resource ceilings, which also probes the successors of
 * the states at the depth bound.  An exhausted frontier is a statement about every depth.
 */
module SearchFrontier {
  import opened Common
  import opened MapSums
  import opened Reachability
  import opened SearchInvariant
  import opened Search

  /** The ceilings; `late(n)` is what the clock answers at the n-th time it is consulted. */
  datatype Ceilings = Ceilings(maxStates: nat, maxTransitions: nat, late: nat -> bool)

  predicate ResourceReached(limits: Ceilings, states: nat, transitions: nat, reading: nat) {
    states > limits.maxStates || transitions > limits.maxTransitions || limits.late(reading)
  }

  /** No reading of the clock up to the n-th was late. */
  ghost predicate InTime(limits: Ceilings, n: nat) {
    forall k: nat :: 1 <= k <= n ==> !limits.late(k)
  }

  datatype Ending<+P> =
    | ResourceLimit
    | InvariantViolation(property: P, depth: nat)
    | DepthLimit
    | FrontierExhausted

  ghost predicate ViolatedWithin<S(!new), L(!new), P(!new)>(
    p: Problem<S, L>, check: S -> Option<P>, property: P, depth: nat)
  {
    exists x :: x in Within(p, depth) && check(x) == Some(property)
  }

  ghost function EdgeCounts<S(!new), L(!new)>(p: Problem<S, L>, states: set<S>): map<S, int> {
    map x | x in states :: |p.succ(x)|
  }

  /** The number of transitions out of a set of states. */
  ghost function Edges<S(!new), L(!new)>(p: Problem<S, L>, states: set<S>): int {
    Total(EdgeCounts(p, states))
  }

  /**
   * A ceiling is too low for the problem: the clock is late at some reading, or there are more
   * states up to one step past the bound than may be held, or more transitions out of the states
   * within the bound than may be taken.
   */
  ghost predicate CeilingTooLow<S(!new), L(!new)>(p: Problem<S, L>, limits: Ceilings) {
    || (exists n :: limits.late(n))
    || limits.maxStates < |Within(p, p.maxDepth + 1)|
    || limits.maxTransitions < Edges(p, Within(p, p.maxDepth))
  }

  /**
   * A search to the end keeps every ceiling: it holds the states within the bound, takes the
   * transitions out of them, and reads the clock once for each of both.
   */
  ghost predicate CeilingsKept<S(!new), L(!new)>(p: Problem<S, L>, limits: Ceilings) {
    var states := Within(p, p.maxDepth);
    && |states| <= limits.maxStates
    && Edges(p, states) <= limits.maxTransitions
    && (forall k: nat :: 1 <= k <= |states| + Edges(p, states) ==> !limits.late(k))
  }

  /** A search that stops for want of resources met a ceiling the problem really exceeds. */
  ghost predicate EndingIsRight<S(!new), L(!new), P(!new)>(
    p: Problem<S, L>, check: S -> Option<P>, limits: Ceilings, ending: Ending<P>)
  {
    match ending
    case ResourceLimit => CeilingTooLow(p, limits)
    case InvariantViolation(property, depth) =>
      && ViolatedWithin(p, check, property, depth)
      && (depth > 0 ==> Holds(check, Within(p, depth - 1)))
    case DepthLimit =>
      Holds(check, Within(p, p.maxDepth + 1)) && Within(p, p.maxDepth + 1) != Within(p, p.maxDepth)
    case FrontierExhausted =>
      ClosedUnderSteps(p, Within(p, p.maxDepth)) && forall n: nat :: Holds(check, Within(p, n))
  }

  // ---- the states beyond the bound ----

  ghost predicate ProbedAt<S(!new), L(!new)>(p: Problem<S, L>, c: Snap<S, L>, unseen: set<S>, x: S, n: nat)
    requires n <= |p.succ(x)|
  {
    forall j :: 0 <= j < n ==> p.succ(x)[j].1 in c.dist || p.succ(x)[j].1 in unseen
  }

  /** `unseen` holds checked states one step beyond the bound; it is empty until the bound is reached. */
  ghost predicate Beyond<S(!new), L(!new), P(!new)>(
    p: Problem<S, L>, c: Snap<S, L>, check: S -> Option<P>, unseen: set<S>)
  {
    && Holds(check, unseen) && unseen !! c.dist.Keys && unseen <= Within(p, p.maxDepth + 1)
    && (unseen != {} ==> forall i :: 0 <= i < |c.queue| ==> p.maxDepth <= c.queue[i].1)
    && (forall x :: x in c.done && x in c.dist && c.dist[x] == p.maxDepth ==>
          ProbedAt(p, c, unseen, x, |p.succ(x)|))
  }

  lemma ShallowHasNothingBeyond<S(!new), L(!new), P(!new)>(
    p: Problem<S, L>, c: Snap<S, L>, check: S -> Option<P>, unseen: set<S>)
    requires Outer(p, c) && c.queue != [] && Beyond(p, c, check, unseen) && c.queue[0].1 < p.maxDepth
    ensures unseen == {} && forall x :: x in c.done && x in c.dist ==> c.dist[x] < p.maxDepth
  {
    var head := c.queue[0].1;
    assert unseen == {} || p.maxDepth <= head;
  }

  lemma ViolationFound<S(!new), L(!new), P(!new)>(
    p: Problem<S, L>, c: Snap<S, L>, check: S -> Option<P>, limits: Ceilings, cur: S, d: nat, i: nat, bad: S)
    requires Inner(p, c, cur, d, 0) || Inner(p, c, cur, d, i)
    requires Holds(check, c.dist.Keys) && Follows(p, cur, bad) && check(bad).Some?
    ensures EndingIsRight(p, check, limits, InvariantViolation(check(bad).value, d + 1))
  {
    var n := if Inner(p, c, cur, d, i) then i else 0;
    InnerComplete(p, c, cur, d, n);
    WithinStep(p, d, cur, bad);
    assert bad in Within(p, d + 1) && check(bad) == Some(check(bad).value);
  }

  // ---- ceilings ----

  lemma EdgesGrow<S(!new), L(!new)>(p: Problem<S, L>, done: set<S>, cur: S)
    requires cur !in done
    ensures Edges(p, done + {cur}) == Edges(p, done) + |p.succ(cur)|
  {
    var was := EdgeCounts(p, done);
    assert EdgeCounts(p, done + {cur}) == was[cur := |p.succ(cur)|];
    TotalInsert(was, cur, |p.succ(cur)|);
  }

  /** The transitions out of the expanded states and the one being expanded fit the whole. */
  lemma EdgesFit<S(!new), L(!new)>(p: Problem<S, L>, c: Snap<S, L>, cur: S, d: nat, i: nat)
    requires Inner(p, c, cur, d, i)
    ensures Edges(p, c.done) + |p.succ(cur)| <= Edges(p, Within(p, p.maxDepth))
  {
    SeenFits(p, c);
    EdgesGrow(p, c.done, cur);
    TotalWithin(EdgeCounts(p, c.done + {cur}), EdgeCounts(p, Within(p, p.maxDepth)));
  }

  lemma DoneEdgesFit<S(!new), L(!new)>(p: Problem<S, L>, c: Snap<S, L>)
    requires Outer(p, c)
    ensures Edges(p, c.done) <= Edges(p, Within(p, p.maxDepth))
  {
    SeenFits(p, c);
    TotalWithin(EdgeCounts(p, c.done), EdgeCounts(p, Within(p, p.maxDepth)));
  }

  lemma SeenFits<S(!new), L(!new)>(p: Problem<S, L>, c: Snap<S, L>)
    requires Grounded(p, c)
    ensures c.dist.Keys <= Within(p, p.maxDepth)
  {
    forall x | x in c.dist ensures x in Within(p, p.maxDepth) {
      WithinMonotone(p, c.dist[x], p.maxDepth);
    }
  }

  lemma StopIsReal<S(!new), L(!new)>(p: Problem<S, L>, limits: Ceilings, held: set<S>, transitions: nat, reading: nat)
    requires held <= Within(p, p.maxDepth + 1) && transitions <= Edges(p, Within(p, p.maxDepth))
    requires ResourceReached(limits, |held|, transitions, reading)
    ensures CeilingTooLow(p, limits)
  {
    SubsetSize(held, Within(p, p.maxDepth + 1));
  }

  lemma SeenStopIsReal<S(!new), L(!new)>(
    p: Problem<S, L>, c: Snap<S, L>, limits: Ceilings, transitions: nat, reading: nat)
    requires Grounded(p, c) && transitions <= Edges(p, Within(p, p.maxDepth))
    requires ResourceReached(limits, |c.dist.Keys|, transitions, reading)
    ensures CeilingTooLow(p, limits)
  {
    SeenFits(p, c);
    WithinMonotone(p, p.maxDepth, p.maxDepth + 1);
    StopIsReal(p, limits, c.dist.Keys, transitions, reading);
  }

  /** There is one state more within the bound than may be held. */
  lemma FullIsReal<S(!new), L(!new)>(p: Problem<S, L>, c: Snap<S, L>, limits: Ceilings, cur: S, d: nat, i: nat, x: S)
    requires Inner(p, c, cur, d, i) && d < p.maxDepth && Follows(p, cur, x) && x !in c.dist
    requires limits.maxStates <= |c.dist.Keys|
    ensures CeilingTooLow(p, limits)
  {
    SeenFits(p, c);
    WithinStep(p, d, cur, x);
    WithinMonotone(p, d + 1, p.maxDepth + 1);
    WithinMonotone(p, p.maxDepth, p.maxDepth + 1);
    SubsetSize(c.dist.Keys + {x}, Within(p, p.maxDepth + 1));
  }

  /** One successor of a state above the bound, after the resource test. */
  method Consider<S(==,!new), L(!new), P(!new)>(
    p: Problem<S, L>, check: S -> Option<P>, limits: Ceilings, state: S, depth: nat, i: nat,
    queue0: seq<(S, nat)>, seen0: set<S>, ghost c0: Snap<S, L>)
    returns (stop: Option<Ending<P>>, queue: seq<(S, nat)>, seen: set<S>, ghost c: Snap<S, L>)
    requires Inner(p, c0, state, depth, i) && depth < p.maxDepth && Holds(check, c0.dist.Keys)
    requires i < |p.succ(state)| && c0.queue == queue0 && c0.dist.Keys == seen0
    ensures stop.Some? ==> EndingIsRight(p, check, limits, stop.value)
    ensures stop.Some? ==> stop.value.ResourceLimit? || stop.value.InvariantViolation?
    ensures stop.None? ==> Inner(p, c, state, depth, i + 1) && Holds(check, c.dist.Keys)
    ensures |seen| <= limits.maxStates || seen == seen0
    ensures c.queue == queue && c.dist.Keys == seen && c.done == c0.done
    ensures forall x :: x in c0.dist ==> x in c.dist && c.dist[x] == c0.dist[x]
  {
    stop, queue, seen, c := None, queue0, seen0, c0;
    var edge := p.succ(state)[i];
    var candidate := edge.1;
    assert Follows(p, state, candidate);
    var found := check(candidate);
    if found.Some? {
      ViolationFound(p, c, check, limits, state, depth, i, candidate);
      stop := Some(InvariantViolation(found.value, depth + 1));
    } else if candidate !in seen {
      if |seen| >= limits.maxStates {
        FullIsReal(p, c, limits, state, depth, i, candidate);
        stop := Some(ResourceLimit);
      } else {
        DiscoverInner(p, c, state, depth, i);
        c := Discovered(c, state, depth, edge);
        seen := seen + {candidate};
        queue := queue + [(candidate, depth + 1)];
      }
    } else {
      KnownInner(p, c, state, depth, i);
    }
  }

  /** One turn of the loop below: the resource test, and then the successor. */
  method ConsiderWithin<S(==,!new), L(!new), P(!new)>(
    p: Problem<S, L>, check: S -> Option<P>, limits: Ceilings, state: S, depth: nat, i: nat,
    queue0: seq<(S, nat)>, seen0: set<S>, transitions: nat, reading: nat, ghost c0: Snap<S, L>)
    returns (stop: Option<Ending<P>>, queue: seq<(S, nat)>, seen: set<S>, ghost c: Snap<S, L>)
    requires Inner(p, c0, state, depth, i) && depth < p.maxDepth && Holds(check, c0.dist.Keys)
    requires i < |p.succ(state)| && c0.queue == queue0 && c0.dist.Keys == seen0 && |seen0| <= limits.maxStates
    requires transitions <= Edges(p, Within(p, p.maxDepth)) && 0 < reading && InTime(limits, reading - 1)
    ensures stop.Some? ==> EndingIsRight(p, check, limits, stop.value)
    ensures stop.Some? ==> stop.value.ResourceLimit? || stop.value.InvariantViolation?
    ensures stop.None? ==> Inner(p, c, state, depth, i + 1) && Holds(check, c.dist.Keys)
    ensures stop.None? ==> transitions <= limits.maxTransitions && InTime(limits, reading)
    ensures |seen| <= limits.maxStates
    ensures c.queue == queue && c.dist.Keys == seen && c.done == c0.done
    ensures forall x :: x in c0.dist ==> x in c.dist && c.dist[x] == c0.dist[x]
  {
    stop, queue, seen, c := None, queue0, seen0, c0;
    if ResourceReached(limits, |seen|, transitions, reading) {
      SeenStopIsReal(p, c, limits, transitions, reading);
      stop := Some(ResourceLimit);
    } else {
      stop, queue, seen, c := Consider(p, check, limits, state, depth, i, queue, seen, c);
    }
  }

  /** The loop over the successors of a state above the bound. */
  method ExpandWithCeilings<S(==,!new), L(!new), P(!new)>(
    p: Problem<S, L>, check: S -> Option<P>, limits: Ceilings, state: S, depth: nat,
    queue0: seq<(S, nat)>, seen0: set<S>, transitions0: nat, reading0: nat, ghost c0: Snap<S, L>)
    returns (stop: Option<Ending<P>>, queue: seq<(S, nat)>, seen: set<S>, transitions: nat, reading: nat,
             ghost c: Snap<S, L>)
    requires Inner(p, c0, state, depth, 0) && depth < p.maxDepth && Holds(check, c0.dist.Keys)
    requires c0.queue == queue0 && c0.dist.Keys == seen0
    requires transitions0 == Edges(p, c0.done) <= limits.maxTransitions
    requires |seen0| <= limits.maxStates && InTime(limits, reading0)
    ensures stop.Some? ==> EndingIsRight(p, check, limits, stop.value)
    ensures stop.Some? ==> stop.value.ResourceLimit? || stop.value.InvariantViolation?
    ensures stop.None? ==> Inner(p, c, state, depth, |p.succ(state)|) && Holds(check, c.dist.Keys)
    ensures stop.None? ==> transitions == transitions0 + |p.succ(state)| && reading == reading0 + |p.succ(state)|
    ensures stop.None? ==> transitions <= limits.maxTransitions && InTime(limits, reading)
    ensures |seen| <= limits.maxStates
    ensures c.queue == queue && c.dist.Keys == seen && c.done == c0.done
    ensures forall x :: x in c0.dist ==> x in c.dist && c.dist[x] == c0.dist[x]
  {
    queue, seen, transitions, reading, c := queue0, seen0, transitions0, reading0, c0;
    EdgesFit(p, c, state, depth, 0);
    ghost var spent := Edges(p, c.done);
    for i := 0 to |p.succ(state)|
      invariant Inner(p, c, state, depth, i) && Holds(check, c.dist.Keys)
      invariant c.queue == queue && c.dist.Keys == seen && c.done == c0.done
      invariant transitions == spent + i <= limits.maxTransitions && reading == reading0 + i
      invariant |seen| <= limits.maxStates && InTime(limits, reading)
      invariant forall x :: x in c0.dist ==> x in c.dist && c.dist[x] == c0.dist[x]
    {
      transitions, reading := transitions + 1, reading + 1;
      stop, queue, seen, c := ConsiderWithin(p, check, limits, state, depth, i, queue, seen, transitions, reading, c);
      if stop.Some? {
        return;
      }
    }
    stop := None;
  }

  /** One turn of the loop below: the resource test, and then the successor. */
  method ProbeWithin<S(==,!new), L(!new), P(!new)>(
    p: Problem<S, L>, check: S -> Option<P>, limits: Ceilings, state: S, depth: nat, i: nat,
    seen: set<S>, unseen0: set<S>, transitions: nat, reading: nat, ghost c: Snap<S, L>)
    returns (stop: Option<Ending<P>>, unseen: set<S>)
    requires Inner(p, c, state, depth, 0) && depth == p.maxDepth && Holds(check, c.dist.Keys)
    requires c.dist.Keys == seen && Beyond(p, c, check, unseen0)
    requires i < |p.succ(state)| && ProbedAt(p, c, unseen0, state, i)
    requires transitions <= Edges(p, Within(p, p.maxDepth)) && 0 < reading && InTime(limits, reading - 1)
    ensures stop.Some? ==> EndingIsRight(p, check, limits, stop.value)
    ensures stop.Some? ==> stop.value.ResourceLimit? || stop.value.InvariantViolation?
    ensures stop.None? ==> Beyond(p, c, check, unseen) && ProbedAt(p, c, unseen, state, i + 1)
    ensures stop.None? ==> transitions <= limits.maxTransitions && InTime(limits, reading)
  {
    stop, unseen := None, unseen0;
    if ResourceReached(limits, |seen| + |unseen|, transitions, reading) {
      ProbeStopIsReal(p, c, check, limits, unseen, transitions, reading);
      stop := Some(ResourceLimit);
    } else {
      stop, unseen := Probe(p, check, limits, state, depth, i, seen, unseen, c);
    }
  }

  /** The loop over the successors of a state at the bound: checked, and kept when not seen. */
  method ProbeWithCeilings<S(==,!new), L(!new), P(!new)>(
    p: Problem<S, L>, check: S -> Option<P>, limits: Ceilings, state: S, depth: nat,
    seen: set<S>, unseen0: set<S>, transitions0: nat, reading0: nat, ghost c: Snap<S, L>)
    returns (stop: Option<Ending<P>>, unseen: set<S>, transitions: nat, reading: nat)
    requires Inner(p, c, state, depth, 0) && depth == p.maxDepth && Holds(check, c.dist.Keys)
    requires c.dist.Keys == seen && Beyond(p, c, check, unseen0)
    requires transitions0 == Edges(p, c.done) <= limits.maxTransitions && InTime(limits, reading0)
    ensures stop.Some? ==> EndingIsRight(p, check, limits, stop.value)
    ensures stop.Some? ==> stop.value.ResourceLimit? || stop.value.InvariantViolation?
    ensures stop.None? ==> Beyond(p, c, check, unseen) && ProbedAt(p, c, unseen, state, |p.succ(state)|)
    ensures stop.None? ==> transitions == transitions0 + |p.succ(state)| && reading == reading0 + |p.succ(state)|
    ensures stop.None? ==> transitions <= limits.maxTransitions && InTime(limits, reading)
  {
    unseen, transitions, reading := unseen0, transitions0, reading0;
    EdgesFit(p, c, state, depth, 0);
    ghost var spent := Edges(p, c.done);
    for i := 0 to |p.succ(state)|
      invariant Beyond(p, c, check, unseen) && ProbedAt(p, c, unseen, state, i)
      invariant transitions == spent + i <= limits.maxTransitions && reading == reading0 + i && InTime(limits, reading)
    {
      transitions, reading := transitions + 1, reading + 1;
      stop, unseen := ProbeWithin(p, check, limits, state, depth, i, seen, unseen, transitions, reading, c);
      if stop.Some? {
        return;
      }
    }
    stop := None;
  }

  /** One successor of a state at the bound, after the resource test. */
  method Probe<S(==,!new), L(!new), P(!new)>(
    p: Problem<S, L>, check: S -> Option<P>, limits: Ceilings, state: S, depth: nat, i: nat,
    seen: set<S>, unseen0: set<S>, ghost c: Snap<S, L>)
    returns (stop: Option<Ending<P>>, unseen: set<S>)
    requires Inner(p, c, state, depth, 0) && depth == p.maxDepth && Holds(check, c.dist.Keys)
    requires c.dist.Keys == seen && Beyond(p, c, check, unseen0)
    requires i < |p.succ(state)| && ProbedAt(p, c, unseen0, state, i)
    ensures stop.Some? ==> EndingIsRight(p, check, limits, stop.value) && stop.value.InvariantViolation?
    ensures stop.None? ==> Beyond(p, c, check, unseen) && ProbedAt(p, c, unseen, state, i + 1)
  {
    stop, unseen := None, unseen0;
    var candidate := p.succ(state)[i].1;
    assert Follows(p, state, candidate);
    var found := check(candidate);
    if found.Some? {
      ViolationFound(p, c, check, limits, state, depth, 0, candidate);
      stop := Some(InvariantViolation(found.value, depth + 1));
    } else if candidate != state && candidate !in seen {
      BeyondGrows(p, c, check, state, depth, unseen, candidate);
      unseen := unseen + {candidate};
    }
  }

  lemma ProbeStopIsReal<S(!new), L(!new), P(!new)>(
    p: Problem<S, L>, c: Snap<S, L>, check: S -> Option<P>, limits: Ceilings, unseen: set<S>,
    transitions: nat, reading: nat)
    requires Grounded(p, c) && Beyond(p, c, check, unseen) && transitions <= Edges(p, Within(p, p.maxDepth))
    requires ResourceReached(limits, |c.dist.Keys| + |unseen|, transitions, reading)
    ensures CeilingTooLow(p, limits)
  {
    SeenFits(p, c);
    WithinMonotone(p, p.maxDepth, p.maxDepth + 1);
    assert |c.dist.Keys + unseen| == |c.dist.Keys| + |unseen|;
    StopIsReal(p, limits, c.dist.Keys + unseen, transitions, reading);
  }

  lemma BeyondGrows<S(!new), L(!new), P(!new)>(
    p: Problem<S, L>, c: Snap<S, L>, check: S -> Option<P>, cur: S, d: nat, unseen: set<S>, x: S)
    requires Inner(p, c, cur, d, 0) && d == p.maxDepth && Beyond(p, c, check, unseen)
    requires Follows(p, cur, x) && check(x).None? && x !in c.dist
    ensures Beyond(p, c, check, unseen + {x})
  {
    WithinStep(p, d, cur, x);
    forall y | y in c.done && y in c.dist && c.dist[y] == p.maxDepth
      ensures ProbedAt(p, c, unseen + {x}, y, |p.succ(y)|)
    {
      assert ProbedAt(p, c, unseen, y, |p.succ(y)|);
    }
  }

  lemma BeyondPopped<S(!new), L(!new), P(!new)>(
    p: Problem<S, L>, c: Snap<S, L>, check: S -> Option<P>, unseen: set<S>)
    requires Beyond(p, c, check, unseen) && c.queue != []
    ensures Beyond(p, Popped(c), check, unseen)
  {
    forall y | y in c.done && y in c.dist && c.dist[y] == p.maxDepth
      ensures ProbedAt(p, Popped(c), unseen, y, |p.succ(y)|)
    {
      assert ProbedAt(p, c, unseen, y, |p.succ(y)|);
    }
  }

  lemma BeyondProbed<S(!new), L(!new), P(!new)>(
    p: Problem<S, L>, c: Snap<S, L>, check: S -> Option<P>, unseen: set<S>, cur: S)
    requires Beyond(p, c, check, unseen) && ProbedAt(p, c, unseen, cur, |p.succ(cur)|)
    ensures Beyond(p, Finished(c, cur), check, unseen)
  {
    forall y | y in c.done + {cur} && y in c.dist && c.dist[y] == p.maxDepth
      ensures ProbedAt(p, Finished(c, cur), unseen, y, |p.succ(y)|)
    {
      if y != cur {
        assert ProbedAt(p, c, unseen, y, |p.succ(y)|);
      } else {
        assert ProbedAt(p, c, unseen, cur, |p.succ(cur)|);
      }
    }
  }

  /** Nothing lies beyond the bound while the states expanded are above it. */
  lemma BeyondEmpty<S(!new), L(!new), P(!new)>(
    p: Problem<S, L>, c: Snap<S, L>, check: S -> Option<P>, before: Snap<S, L>, cur: S)
    requires c.done == before.done && cur in c.dist && c.dist[cur] < p.maxDepth
    requires forall x :: x in before.done ==> x in before.dist && before.dist[x] < p.maxDepth
    requires forall x :: x in before.dist ==> x in c.dist && c.dist[x] == before.dist[x]
    ensures Beyond(p, Finished(c, cur), check, {})
  {
  }

  // ---- the verdict ----

  lemma Exhausted<S(!new), L(!new), P(!new)>(
    p: Problem<S, L>, c: Snap<S, L>, check: S -> Option<P>, limits: Ceilings)
    requires Outer(p, c) && c.queue == [] && Holds(check, c.dist.Keys) && Beyond(p, c, check, {})
    ensures EndingIsRight(p, check, limits, FrontierExhausted)
  {
    SeenIsAll(p, c);
    var all := Within(p, p.maxDepth);
    forall y, x | y in all && Follows(p, y, x) ensures x in all {
      var j :| 0 <= j < |p.succ(y)| && p.succ(y)[j].1 == x;
      if c.dist[y] < p.maxDepth {
        assert SuccessorsSeen(p, c, y, |p.succ(y)|);
      } else {
        assert ProbedAt(p, c, {}, y, |p.succ(y)|);
      }
    }
    forall n: nat ensures Holds(check, Within(p, n)) {
      ClosedHoldsAll(p, all, n);
    }
  }

  lemma Cut<S(!new), L(!new), P(!new)>(
    p: Problem<S, L>, c: Snap<S, L>, check: S -> Option<P>, limits: Ceilings, unseen: set<S>)
    requires Outer(p, c) && c.queue == [] && Holds(check, c.dist.Keys) && Beyond(p, c, check, unseen)
    requires unseen != {}
    ensures EndingIsRight(p, check, limits, DepthLimit)
  {
    SeenIsAll(p, c);
    forall x | x in Within(p, p.maxDepth + 1) ensures check(x).None? {
      if x !in Within(p, p.maxDepth) {
        var y := WithinStepBack(p, p.maxDepth, x);
        BeyondOrSeen(p, c, check, unseen, y, x);
      }
    }
  }

  lemma BeyondOrSeen<S(!new), L(!new), P(!new)>(
    p: Problem<S, L>, c: Snap<S, L>, check: S -> Option<P>, unseen: set<S>, y: S, x: S)
    requires Expanded(p, c) && Beyond(p, c, check, unseen) && Follows(p, y, x)
    requires y in c.done && y in c.dist && c.dist[y] <= p.maxDepth
    ensures x in c.dist || x in unseen
  {
    if c.dist[y] < p.maxDepth {
      assert SuccessorsSeen(p, c, y, |p.succ(y)|);
    } else {
      assert ProbedAt(p, c, unseen, y, |p.succ(y)|);
    }
  }

  ghost predicate Analyzed<S(!new), L(!new), P(!new)>(
    p: Problem<S, L>, c: Snap<S, L>, check: S -> Option<P>, unseen: set<S>)
  {
    && Outer(p, c) && Checked(p, c, check) && Beyond(p, c, check, unseen)
    && (c.queue == [] ==> p.init in c.done)
  }

  lemma ProbeDone<S(!new), L(!new), P(!new)>(
    p: Problem<S, L>, c: Snap<S, L>, check: S -> Option<P>, unseen: set<S>, cur: S, d: nat)
    requires Inner(p, c, cur, d, 0) && d == p.maxDepth && Holds(check, c.dist.Keys)
    requires Beyond(p, c, check, unseen) && ProbedAt(p, c, unseen, cur, |p.succ(cur)|)
    ensures Analyzed(p, Finished(c, cur), check, unseen)
  {
    FinishOuter(p, c, cur, d, 0);
    BeyondProbed(p, c, check, unseen, cur);
    InitialDone(p, Finished(c, cur));
  }

  lemma ExpandDone<S(!new), L(!new), P(!new)>(
    p: Problem<S, L>, c: Snap<S, L>, check: S -> Option<P>, before: Snap<S, L>, cur: S, d: nat)
    requires Inner(p, c, cur, d, |p.succ(cur)|) && d < p.maxDepth && Holds(check, c.dist.Keys)
    requires c.done == before.done
    requires forall x :: x in before.done ==> x in before.dist && before.dist[x] < p.maxDepth
    requires forall x :: x in before.dist ==> x in c.dist && c.dist[x] == before.dist[x]
    ensures Analyzed(p, Finished(c, cur), check, {})
  {
    FinishOuter(p, c, cur, d, |p.succ(cur)|);
    BeyondEmpty(p, c, check, before, cur);
    InitialDone(p, Finished(c, cur));
  }

  /** One iteration of the outer loop. */
  method AnalyzeNext<S(==,!new), L(!new), P(!new)>(
    p: Problem<S, L>, check: S -> Option<P>, limits: Ceilings,
    queue0: seq<(S, nat)>, seen0: set<S>, unseen0: set<S>, transitions0: nat, reading0: nat, ghost c0: Snap<S, L>)
    returns (stop: Option<Ending<P>>, queue: seq<(S, nat)>, seen: set<S>, unseen: set<S>,
             transitions: nat, reading: nat, ghost c: Snap<S, L>)
    requires Analyzed(p, c0, check, unseen0) && queue0 != []
    requires c0.queue == queue0 && c0.dist.Keys == seen0
    requires transitions0 == Edges(p, c0.done) <= limits.maxTransitions && InTime(limits, reading0)
    ensures stop.Some? ==> EndingIsRight(p, check, limits, stop.value)
    ensures stop.Some? ==> stop.value.ResourceLimit? || stop.value.InvariantViolation?
    ensures stop.None? ==>
      && Analyzed(p, c, check, unseen) && c.queue == queue && c.dist.Keys == seen
      && c.done == c0.done + {queue0[0].0} && transitions == Edges(p, c.done) <= limits.maxTransitions
      && reading == reading0 + 1 + transitions - transitions0 && InTime(limits, reading) && |seen| <= limits.maxStates
      && queue0[0].0 in Within(p, p.maxDepth) && queue0[0].0 !in c0.done
  {
    queue, seen, unseen, transitions, reading, c := queue0, seen0, unseen0, transitions0, reading0 + 1, c0;
    if ResourceReached(limits, |seen|, transitions, reading) {
      DoneEdgesFit(p, c);
      SeenStopIsReal(p, c, limits, transitions, reading);
      stop := Some(ResourceLimit);
      return;
    }
    stop, queue, seen, unseen, transitions, reading, c :=
      AnalyzeState(p, check, limits, queue, seen, unseen, transitions, reading, c);
  }

  /** The state at the head of the queue. */
  method AnalyzeState<S(==,!new), L(!new), P(!new)>(
    p: Problem<S, L>, check: S -> Option<P>, limits: Ceilings,
    queue0: seq<(S, nat)>, seen0: set<S>, unseen0: set<S>, transitions0: nat, reading0: nat, ghost c0: Snap<S, L>)
    returns (stop: Option<Ending<P>>, queue: seq<(S, nat)>, seen: set<S>, unseen: set<S>,
             transitions: nat, reading: nat, ghost c: Snap<S, L>)
    requires Analyzed(p, c0, check, unseen0) && queue0 != []
    requires c0.queue == queue0 && c0.dist.Keys == seen0 && |seen0| <= limits.maxStates
    requires transitions0 == Edges(p, c0.done) <= limits.maxTransitions && InTime(limits, reading0)
    ensures stop.Some? ==> EndingIsRight(p, check, limits, stop.value)
    ensures stop.Some? ==> stop.value.ResourceLimit? || stop.value.InvariantViolation?
    ensures stop.None? ==>
      && Analyzed(p, c, check, unseen) && c.queue == queue && c.dist.Keys == seen
      && c.done == c0.done + {queue0[0].0} && transitions == Edges(p, c.done) <= limits.maxTransitions
      && reading == reading0 + transitions - transitions0 && InTime(limits, reading) && |seen| <= limits.maxStates
      && queue0[0].0 in Within(p, p.maxDepth) && queue0[0].0 !in c0.done
  {
    seen, unseen, transitions, reading := seen0, unseen0, transitions0, reading0;
    var (state, depth) := queue0[0];
    queue := queue0[1..];
    PopChecked(p, c0, check);
    c := Popped(c0);
    EdgesGrow(p, c.done, state);
    var own := check(state);
    if own.Some? {
      RaisedAtStart(p, check, limits);
      stop := Some(InvariantViolation(own.value, 0));
      return;
    }
    if depth >= p.maxDepth {
      BeyondPopped(p, c0, check, unseen);
      stop, unseen, transitions, reading :=
        ProbeWithCeilings(p, check, limits, state, depth, seen, unseen, transitions, reading, c);
      if stop.None? {
        ProbeDone(p, c, check, unseen, state, depth);
      }
      c := Finished(c, state);
    } else {
      ShallowHasNothingBeyond(p, c0, check, unseen);
      stop, queue, seen, transitions, reading, c :=
        ExpandAbove(p, check, limits, state, depth, queue, seen, transitions, reading, c);
    }
  }

  /** A state above the bound, done with. */
  method ExpandAbove<S(==,!new), L(!new), P(!new)>(
    p: Problem<S, L>, check: S -> Option<P>, limits: Ceilings, state: S, depth: nat,
    queue0: seq<(S, nat)>, seen0: set<S>, transitions0: nat, reading0: nat, ghost c0: Snap<S, L>)
    returns (stop: Option<Ending<P>>, queue: seq<(S, nat)>, seen: set<S>, transitions: nat, reading: nat,
             ghost c: Snap<S, L>)
    requires Inner(p, c0, state, depth, 0) && depth < p.maxDepth && Holds(check, c0.dist.Keys)
    requires c0.queue == queue0 && c0.dist.Keys == seen0
    requires transitions0 == Edges(p, c0.done) <= limits.maxTransitions
    requires |seen0| <= limits.maxStates && InTime(limits, reading0)
    requires forall x :: x in c0.done ==> x in c0.dist && c0.dist[x] < p.maxDepth
    ensures stop.Some? ==> EndingIsRight(p, check, limits, stop.value)
    ensures stop.Some? ==> stop.value.ResourceLimit? || stop.value.InvariantViolation?
    ensures stop.None? ==> Analyzed(p, c, check, {}) && c.queue == queue && c.dist.Keys == seen && c.done == c0.done + {state}
    ensures stop.None? ==> transitions == transitions0 + |p.succ(state)| && reading == reading0 + |p.succ(state)|
    ensures stop.None? ==> transitions <= limits.maxTransitions && InTime(limits, reading) && |seen| <= limits.maxStates
  {
    stop, queue, seen, transitions, reading, c :=
      ExpandWithCeilings(p, check, limits, state, depth, queue0, seen0, transitions0, reading0, c0);
    if stop.None? {
      ExpandDone(p, c, check, c0, state, depth);
      c := Finished(c, state);
    }
  }

  method AnalyzeFrontier<S(==,!new), L(!new), P(!new)>(p: Problem<S, L>, check: S -> Option<P>, limits: Ceilings)
    returns (ending: Ending<P>, statesChecked: nat)
    ensures EndingIsRight(p, check, limits, ending)
    ensures ending.DepthLimit? || ending.FrontierExhausted? ==>
      statesChecked == |Within(p, p.maxDepth)| && CeilingsKept(p, limits)
  {
    var queue := [(p.init, 0)];
    var seen := {p.init};
    var unseen: set<S> := {};
    var transitions: nat, reading: nat := 0, 0;
    ghost var c: Snap<S, L> := Start(p);
    StartOuter(p);
    assert EdgeCounts(p, c.done) == map[];
    while queue != []
      invariant Analyzed(p, c, check, unseen) && c.queue == queue && c.dist.Keys == seen
      invariant transitions == Edges(p, c.done) <= limits.maxTransitions
      invariant reading == |c.done| + transitions && InTime(limits, reading)
      invariant c.done != {} ==> |seen| <= limits.maxStates
      decreases Within(p, p.maxDepth) - c.done
    {
      var stop;
      stop, queue, seen, unseen, transitions, reading, c :=
        AnalyzeNext(p, check, limits, queue, seen, unseen, transitions, reading, c);
      if stop.Some? {
        return stop.value, |seen|;
      }
    }
    SeenIsAll(p, c);
    if unseen != {} {
      Cut(p, c, check, limits, unseen);
      return DepthLimit, |seen|;
    }
    Exhausted(p, c, check, limits);
    return FrontierExhausted, |seen|;
  }

  lemma InitialDone<S(!new), L(!new)>(p: Problem<S, L>, c: Snap<S, L>)
    requires Outer(p, c)
    ensures c.queue == [] ==> p.init in c.done
  {
    assert p.init in c.done || Queued(c, p.init);
  }

  lemma RaisedAtStart<S(!new), L(!new), P(!new)>(p: Problem<S, L>, check: S -> Option<P>, limits: Ceilings)
    requires check(p.init).Some?
    ensures EndingIsRight(p, check, limits, InvariantViolation(check(p.init).value, 0))
  {
    assert p.init in Within(p, 0) && check(p.init) == Some(check(p.init).value);
  }

  /** With an exhausted frontier no path of any length, whatever its labels, ends in a violation. */
  lemma ExhaustionCoversEveryPath<S(!new), L(!new), P(!new)>(
    p: Problem<S, L>, check: S -> Option<P>, limits: Ceilings, labels: seq<L>, x: S)
    requires EndingIsRight(p, check, limits, FrontierExhausted) && Path(p, p.init, labels, x)
    ensures check(x).None? && x in Within(p, p.maxDepth)
  {
    PathWithin(p, p.init, labels, x, 0);
    ClosedHoldsAll(p, Within(p, p.maxDepth), |labels|) by {
      WithinMonotone(p, 0, p.maxDepth);
    }
  }
}
