/**
 * The shared invariant of the breadth-first searches.  A snapshot holds the queue, the parent
 * links, the depth at which each state was discovered and the states already expanded.
 */
module SearchInvariant {
  import opened Reachability

  datatype Snap<!S, !L> = Snap(
    queue: seq<(S, nat)>,
    parents: map<S, (S, L)>,
    dist: map<S, nat>,
    done: set<S>)

  // ---- the parts of the invariant ----

  /** The queue lists discovered, unexpanded states once each, with the depth they were found at. */
  ghost predicate Listed<S(!new), L>(c: Snap<S, L>) {
    && (forall i :: 0 <= i < |c.queue| ==>
          c.queue[i].0 in c.dist && c.dist[c.queue[i].0] == c.queue[i].1 && c.queue[i].0 !in c.done)
    && (forall i, j :: 0 <= i < j < |c.queue| ==> c.queue[i].0 != c.queue[j].0)
  }

  ghost predicate Queued<S(!new), L>(c: Snap<S, L>, x: S) {
    exists i :: 0 <= i < |c.queue| && c.queue[i].0 == x
  }

  /** Every discovered state is expanded, waiting, or being expanded now. */
  ghost predicate Covered<S(!new), L>(c: Snap<S, L>, now: set<S>) {
    && c.done <= c.dist.Keys && now <= c.dist.Keys && now !! c.done
    && (forall i :: 0 <= i < |c.queue| ==> c.queue[i].0 !in now)
    && (forall x :: x in c.dist ==> x in c.done || x in now || Queued(c, x))
  }

  /** The queue holds one layer and then the next; nothing expanded lies deeper than `d`. */
  ghost predicate Layered<S(!new), L>(c: Snap<S, L>, d: nat) {
    && (forall i :: 0 <= i < |c.queue| ==> d <= c.queue[i].1 <= d + 1)
    && (forall i, j :: 0 <= i < j < |c.queue| ==> c.queue[i].1 <= c.queue[j].1)
    && (forall x :: x in c.done && x in c.dist ==> c.dist[x] <= d)
  }

  ghost predicate Grounded<S(!new), L(!new)>(p: Problem<S, L>, c: Snap<S, L>) {
    && p.init in c.dist && c.dist[p.init] == 0
    && (forall x :: x in c.dist ==> c.dist[x] <= p.maxDepth && x in Within(p, c.dist[x]))
  }

  ghost predicate SuccessorsSeen<S(!new), L(!new)>(p: Problem<S, L>, c: Snap<S, L>, x: S, n: nat)
    requires x in c.dist && n <= |p.succ(x)|
  {
    forall j :: 0 <= j < n ==> p.succ(x)[j].1 in c.dist && c.dist[p.succ(x)[j].1] <= c.dist[x] + 1
  }

  ghost predicate Expanded<S(!new), L(!new)>(p: Problem<S, L>, c: Snap<S, L>) {
    forall x :: x in c.done && x in c.dist && c.dist[x] < p.maxDepth ==> SuccessorsSeen(p, c, x, |p.succ(x)|)
  }

  ghost predicate ParentAt<S(!new), L(!new)>(p: Problem<S, L>, c: Snap<S, L>, x: S)
    requires x in c.dist
  {
    && x in c.parents && c.parents[x].0 in c.dist
    && c.dist[x] == c.dist[c.parents[x].0] + 1
    && (c.parents[x].1, x) in p.succ(c.parents[x].0)
  }

  ghost predicate Parented<S(!new), L(!new)>(p: Problem<S, L>, c: Snap<S, L>) {
    && p.init !in c.parents
    && (forall x :: x in c.dist && x != p.init ==> ParentAt(p, c, x))
  }

  /** Between two iterations of the outer loop. */
  ghost predicate Outer<S(!new), L(!new)>(p: Problem<S, L>, c: Snap<S, L>) {
    && Listed(c) && Covered(c, {}) && Grounded(p, c) && Expanded(p, c) && Parented(p, c)
    && (c.queue != [] ==> Layered(c, c.queue[0].1))
  }

  /** While `cur`, found at depth `d`, is being expanded and its first `i` successors are dealt with. */
  ghost predicate Inner<S(!new), L(!new)>(p: Problem<S, L>, c: Snap<S, L>, cur: S, d: nat, i: nat) {
    && Listed(c) && Covered(c, {cur}) && Grounded(p, c) && Expanded(p, c) && Parented(p, c)
    && Layered(c, d)
    && c.dist[cur] == d && i <= |p.succ(cur)| && SuccessorsSeen(p, c, cur, i)
  }

  function Start<S, L>(p: Problem<S, L>): Snap<S, L> {
    Snap([(p.init, 0)], map[], map[p.init := 0], {})
  }

  function Popped<S, L>(c: Snap<S, L>): Snap<S, L>
    requires c.queue != []
  {
    c.(queue := c.queue[1..])
  }

  function Finished<S, L>(c: Snap<S, L>, cur: S): Snap<S, L> {
    c.(done := c.done + {cur})
  }

  function Discovered<S, L>(c: Snap<S, L>, cur: S, d: nat, edge: (L, S)): Snap<S, L> {
    c.(queue := c.queue + [(edge.1, d + 1)],
       parents := c.parents[edge.1 := (cur, edge.0)],
       dist := c.dist[edge.1 := d + 1])
  }

  // ---- what each move of the search keeps ----

  lemma StartOuter<S(!new), L(!new)>(p: Problem<S, L>)
    ensures Outer(p, Start(p))
  {
    assert Start(p).queue[0].0 == p.init;
  }

  lemma PopListed<S(!new), L(!new)>(p: Problem<S, L>, c: Snap<S, L>)
    requires Listed(c) && Covered(c, {}) && c.queue != []
    ensures Listed(Popped(c)) && Covered(Popped(c), {c.queue[0].0})
  {
    var after, cur := Popped(c), c.queue[0].0;
    forall x | x in c.dist ensures x in c.done || x == cur || Queued(after, x) {
      if x !in c.done && x != cur {
        assert Queued(c, x);
        var i :| 0 <= i < |c.queue| && c.queue[i].0 == x;
        assert after.queue[i - 1].0 == x;
      }
    }
  }

  lemma PopInner<S(!new), L(!new)>(p: Problem<S, L>, c: Snap<S, L>)
    requires Outer(p, c) && c.queue != []
    ensures Inner(p, Popped(c), c.queue[0].0, c.queue[0].1, 0)
  {
    PopListed(p, c);
    var after := Popped(c);
    forall x | x in c.dist && x != p.init ensures ParentAt(p, after, x) {
      assert ParentAt(p, c, x);
    }
    forall x | x in c.done && x in c.dist && c.dist[x] < p.maxDepth
      ensures SuccessorsSeen(p, after, x, |p.succ(x)|)
    {
      assert SuccessorsSeen(p, c, x, |p.succ(x)|);
    }
  }

  /** Everything discovered lies at most one layer below the state being expanded. */
  lemma SeenIsNear<S(!new), L(!new)>(p: Problem<S, L>, c: Snap<S, L>, cur: S, d: nat, i: nat, x: S)
    requires Inner(p, c, cur, d, i) && x in c.dist
    ensures c.dist[x] <= d + 1
  {
    if x !in c.done && x != cur {
      assert Queued(c, x);
      var k :| 0 <= k < |c.queue| && c.queue[k].0 == x;
    }
  }

  lemma KnownInner<S(!new), L(!new)>(p: Problem<S, L>, c: Snap<S, L>, cur: S, d: nat, i: nat)
    requires Inner(p, c, cur, d, i) && i < |p.succ(cur)| && p.succ(cur)[i].1 in c.dist
    ensures Inner(p, c, cur, d, i + 1)
  {
    SeenIsNear(p, c, cur, d, i, p.succ(cur)[i].1);
  }

  lemma DiscoverListed<S(!new), L(!new)>(c: Snap<S, L>, cur: S, d: nat, edge: (L, S))
    requires Listed(c) && Covered(c, {cur}) && edge.1 !in c.dist
    ensures Listed(Discovered(c, cur, d, edge)) && Covered(Discovered(c, cur, d, edge), {cur})
  {
    var after := Discovered(c, cur, d, edge);
    forall x | x in after.dist ensures x in after.done || x == cur || Queued(after, x) {
      if x == edge.1 {
        assert after.queue[|c.queue|].0 == x;
      } else if x !in c.done && x != cur {
        assert Queued(c, x);
        var i :| 0 <= i < |c.queue| && c.queue[i].0 == x;
        assert after.queue[i].0 == x;
      }
    }
  }

  lemma DiscoverExpanded<S(!new), L(!new)>(p: Problem<S, L>, c: Snap<S, L>, cur: S, d: nat, edge: (L, S))
    requires Expanded(p, c) && edge.1 !in c.dist && c.done <= c.dist.Keys
    ensures Expanded(p, Discovered(c, cur, d, edge))
  {
    var after := Discovered(c, cur, d, edge);
    forall x | x in after.done && x in after.dist && after.dist[x] < p.maxDepth
      ensures SuccessorsSeen(p, after, x, |p.succ(x)|)
    {
      assert SuccessorsSeen(p, c, x, |p.succ(x)|);
    }
  }

  lemma DiscoverParented<S(!new), L(!new)>(p: Problem<S, L>, c: Snap<S, L>, cur: S, d: nat, edge: (L, S))
    requires Parented(p, c) && p.init in c.dist && cur in c.dist && c.dist[cur] == d
    requires edge.1 !in c.dist && edge in p.succ(cur)
    ensures Parented(p, Discovered(c, cur, d, edge))
  {
    var after := Discovered(c, cur, d, edge);
    forall x | x in after.dist && x != p.init ensures ParentAt(p, after, x) {
      if x != edge.1 {
        assert ParentAt(p, c, x);
      }
    }
  }

  lemma DiscoverLayered<S(!new), L(!new)>(c: Snap<S, L>, cur: S, d: nat, edge: (L, S))
    requires Layered(c, d) && edge.1 !in c.dist && c.done <= c.dist.Keys
    ensures Layered(Discovered(c, cur, d, edge), d)
  {
  }

  lemma DiscoverSeen<S(!new), L(!new)>(p: Problem<S, L>, c: Snap<S, L>, cur: S, d: nat, i: nat)
    requires cur in c.dist && c.dist[cur] == d && i < |p.succ(cur)| && SuccessorsSeen(p, c, cur, i)
    requires p.succ(cur)[i].1 !in c.dist
    ensures SuccessorsSeen(p, Discovered(c, cur, d, p.succ(cur)[i]), cur, i + 1)
  {
  }

  lemma DiscoverInner<S(!new), L(!new)>(p: Problem<S, L>, c: Snap<S, L>, cur: S, d: nat, i: nat)
    requires Inner(p, c, cur, d, i) && d < p.maxDepth
    requires i < |p.succ(cur)| && p.succ(cur)[i].1 !in c.dist
    ensures Inner(p, Discovered(c, cur, d, p.succ(cur)[i]), cur, d, i + 1)
  {
    var edge := p.succ(cur)[i];
    DiscoverListed(c, cur, d, edge);
    DiscoverExpanded(p, c, cur, d, edge);
    DiscoverParented(p, c, cur, d, edge);
    DiscoverGrounded(p, c, cur, d, edge);
    DiscoverLayered(c, cur, d, edge);
    DiscoverSeen(p, c, cur, d, i);
  }

  lemma DiscoverGrounded<S(!new), L(!new)>(p: Problem<S, L>, c: Snap<S, L>, cur: S, d: nat, edge: (L, S))
    requires Grounded(p, c) && cur in c.dist && c.dist[cur] == d && d < p.maxDepth
    requires edge.1 !in c.dist && edge in p.succ(cur)
    ensures Grounded(p, Discovered(c, cur, d, edge))
  {
    assert Follows(p, cur, edge.1);
    WithinStep(p, d, cur, edge.1);
  }

  lemma FinishOuter<S(!new), L(!new)>(p: Problem<S, L>, c: Snap<S, L>, cur: S, d: nat, i: nat)
    requires Inner(p, c, cur, d, i)
    requires i == |p.succ(cur)| || p.maxDepth <= d
    ensures Outer(p, Finished(c, cur))
  {
    var after := Finished(c, cur);
    forall x | x in after.dist ensures x in after.done || Queued(after, x) {
      if x !in c.done && x != cur {
        assert Queued(c, x);
        var i :| 0 <= i < |c.queue| && c.queue[i].0 == x;
        assert after.queue[i].0 == x;
      }
    }
    FinishExpanded(p, c, cur, d, i);
    forall x | x in c.dist && x != p.init ensures ParentAt(p, after, x) {
      assert ParentAt(p, c, x);
    }
  }

  lemma FinishExpanded<S(!new), L(!new)>(p: Problem<S, L>, c: Snap<S, L>, cur: S, d: nat, i: nat)
    requires Inner(p, c, cur, d, i)
    requires i == |p.succ(cur)| || p.maxDepth <= d
    ensures Expanded(p, Finished(c, cur))
  {
    var after := Finished(c, cur);
    forall x | x in after.done && x in after.dist && after.dist[x] < p.maxDepth
      ensures SuccessorsSeen(p, after, x, |p.succ(x)|)
    {
      if x != cur {
        assert SuccessorsSeen(p, c, x, |p.succ(x)|);
      }
    }
  }

  // ---- what the search has covered ----

  /** Every state found at a depth below `d` has been expanded. */
  ghost predicate SettledBelow<S(!new), L(!new)>(p: Problem<S, L>, c: Snap<S, L>, d: nat) {
    && d <= p.maxDepth
    && p.init in c.dist && c.dist[p.init] == 0
    && Expanded(p, c)
    && (forall y :: y in c.dist && c.dist[y] < d ==> y in c.done)
  }

  lemma StepIsSeen<S(!new), L(!new)>(p: Problem<S, L>, c: Snap<S, L>, d: nat, y: S, x: S)
    requires SettledBelow(p, c, d) && y in c.dist && c.dist[y] < d && Follows(p, y, x)
    ensures x in c.dist && c.dist[x] <= c.dist[y] + 1
  {
    assert SuccessorsSeen(p, c, y, |p.succ(y)|);
  }

  /** Then everything within `k <= d` steps has been found, at its shortest depth or below. */
  lemma {:induction false} LayerComplete<S(!new), L(!new)>(p: Problem<S, L>, c: Snap<S, L>, d: nat, k: nat)
    requires SettledBelow(p, c, d) && k <= d
    ensures forall x :: x in Within(p, k) ==> x in c.dist && c.dist[x] <= k
  {
    if k > 0 {
      LayerComplete(p, c, d, k - 1);
      forall x | x in Within(p, k) ensures x in c.dist && c.dist[x] <= k {
        if x !in Within(p, k - 1) {
          var y := WithinStepBack(p, k - 1, x);
          StepIsSeen(p, c, d, y, x);
        }
      }
    }
  }

  lemma InnerSettled<S(!new), L(!new)>(p: Problem<S, L>, c: Snap<S, L>, cur: S, d: nat, i: nat)
    requires Inner(p, c, cur, d, i)
    ensures SettledBelow(p, c, d)
  {
    forall y | y in c.dist && c.dist[y] < d ensures y in c.done {
      assert y in c.done || y == cur || Queued(c, y);
    }
  }

  /** While a state of depth `d` is being expanded, everything within `d` steps has been found. */
  lemma InnerComplete<S(!new), L(!new)>(p: Problem<S, L>, c: Snap<S, L>, cur: S, d: nat, i: nat)
    requires Inner(p, c, cur, d, i)
    ensures Within(p, d) <= c.dist.Keys
  {
    InnerSettled(p, c, cur, d, i);
    LayerComplete(p, c, d, d);
  }

  lemma SeenIsWithin<S(!new), L(!new)>(p: Problem<S, L>, c: Snap<S, L>)
    requires Grounded(p, c)
    ensures c.dist.Keys <= Within(p, p.maxDepth)
  {
    forall x | x in c.dist ensures x in Within(p, p.maxDepth) {
      WithinMonotone(p, c.dist[x], p.maxDepth);
    }
  }

  /** When the queue is empty, exactly the states within the depth bound have been found. */
  lemma SeenIsAll<S(!new), L(!new)>(p: Problem<S, L>, c: Snap<S, L>)
    requires Outer(p, c) && c.queue == []
    ensures c.dist.Keys == Within(p, p.maxDepth) == c.done
  {
    forall y | y in c.dist ensures y in c.done {
      assert y in c.done || Queued(c, y);
    }
    LayerComplete(p, c, p.maxDepth, p.maxDepth);
    SeenIsWithin(p, c);
  }

  // ---- reading a trace off the parent links ----

  /** Follows parent links back from `cur`; the labels collected lead from the initial state to `to`. */
  method Backtrack<S(==,!new), L(!new)>(ghost p: Problem<S, L>, ghost c: Snap<S, L>, parents: map<S, (S, L)>,
                                        cur: S, last: L, ghost to: S) returns (trace: seq<L>)
    requires parents == c.parents && Parented(p, c) && cur in c.dist && (last, to) in p.succ(cur)
    requires p.init in c.dist && c.dist[p.init] == 0
    ensures Path(p, p.init, trace, to)
    ensures |trace| == c.dist[cur] + 1
  {
    trace := [last];
    var cursor := cur;
    assert trace[1..] == [] && Path(p, to, trace[1..], to);
    while cursor in parents
      invariant cursor in c.dist
      invariant Path(p, cursor, trace, to)
      invariant |trace| + c.dist[cursor] == c.dist[cur] + 1
      decreases c.dist[cursor]
    {
      assert cursor != p.init && ParentAt(p, c, cursor);
      ghost var rest, here := trace, cursor;
      trace := [parents[cursor].1] + trace;
      cursor := parents[cursor].0;
      assert trace[1..] == rest;
      assert (trace[0], here) in p.succ(cursor) && Path(p, here, trace[1..], to);
    }
    assert cursor == p.init || ParentAt(p, c, cursor);
  }
}
