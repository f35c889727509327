/**
 * A site's delegation tree: building it puts every unit into a leaf, tearing it down returns
 * exactly what it held, and the list of leaves stays aliased to the tree, so that taking a unit
 * from a leaf is taking it from the tree.
 */
module DelegationTree {
  import opened Common
  import opened DelegationShape
  import opened Shares

  // ---- tidy trees ----

  /** No node owes; a node with children holds no units, and its sequence number counts them. */
  ghost predicate TidyNode(n: LeaseNode)
    reads n
  {
    0 <= n.residual && (n.children != [] ==> n.residual == 0 && n.sequence == |n.children|)
  }

  ghost predicate Tidy(s: Shape)
    reads NodeSet(s)
  {
    Matches(s) && Distinct(Nodes(s)) && forall n :: n in NodeSet(s) ==> TidyNode(n)
  }

  ghost predicate TidyAll(kids: seq<Shape>)
    reads NodeSetAll(kids)
  {
    MatchesAll(kids) && Distinct(NodesAll(kids)) && forall n :: n in NodeSetAll(kids) ==> TidyNode(n)
  }

  lemma DistinctConcat(a: seq<LeaseNode>, b: seq<LeaseNode>)
    requires Distinct(a) && Distinct(b) && forall i :: 0 <= i < |b| ==> b[i] !in a
    ensures Distinct(a + b)
  {
    var c := a + b;
    forall i, j | 0 <= i < j < |c| ensures c[i] != c[j] {
      if i < |a| <= j {
        assert c[j] == b[j - |a|];
      }
    }
  }

  lemma TidySnoc(kids: seq<Shape>, kid: Shape)
    requires TidyAll(kids) && Tidy(kid) && NodeSet(kid) !! NodeSetAll(kids)
    ensures TidyAll(kids + [kid])
    ensures NodesAll(kids + [kid]) == NodesAll(kids) + Nodes(kid)
    ensures NodeSetAll(kids + [kid]) == NodeSetAll(kids) + NodeSet(kid)
    ensures Sum(ResidualsOf(NodesAll(kids + [kid]))) == Sum(ResidualsOf(NodesAll(kids))) + Held(kid)
  {
    assert (kids + [kid])[..|kids|] == kids;
    DistinctConcat(NodesAll(kids), Nodes(kid));
    ResidualsConcat(NodesAll(kids), Nodes(kid));
  }

  lemma TidyRoot(root: LeaseNode, kids: seq<Shape>)
    requires TidyAll(kids) && root !in NodeSetAll(kids) && root.children == KidNodes(kids) && TidyNode(root)
    ensures var s := Shape(root, kids);
      Tidy(s) && Held(s) == root.residual + Sum(ResidualsOf(NodesAll(kids)))
  {
    DistinctConcat([root], NodesAll(kids));
    ResidualsConcat([root], NodesAll(kids));
    assert ResidualsOf([root]) == [] + [root.residual];
    SumAppend([], root.residual);
  }

  lemma SumDropFirst(parts: seq<int>, i: nat)
    requires i < |parts|
    ensures Sum(parts[i..]) == parts[i] + Sum(parts[i + 1..])
  {
    assert parts[i..] == [parts[i]] + parts[i + 1..];
    SumConcat([parts[i]], parts[i + 1..]);
    assert [parts[i]] == [] + [parts[i]];
    SumAppend([], parts[i]);
  }

  // ---- building ----

  /** Debits the parent and appends a new child. */
  method Attach(parent: LeaseNode, units: int) returns (child: LeaseNode)
    modifies parent
    ensures fresh(child) && child.level == parent.level + 1 && child.residual == units && child.children == []
    ensures parent.residual == old(parent.residual) - units && parent.children == old(parent.children) + [child]
    ensures parent.sequence == old(parent.sequence) + 1 && child.sequence == 0
  {
    child := new LeaseNode(parent.level + 1, units);
    parent.sequence := parent.sequence + 1;
    parent.residual := parent.residual - units;
    parent.children := parent.children + [child];
  }

  // ---- even trees ----

  /** The node is at the full depth and holds a rounded part of the whole, which is not nothing. */
  ghost predicate EvenNode(n: LeaseNode, whole: int, width: nat, level: nat)
    reads n
  {
    n.level == level && 0 < n.residual && Near(whole, width, n.residual)
  }

  ghost predicate Even(s: Shape, whole: int, width: nat, level: nat)
    reads NodeSet(s)
  {
    forall n :: n in NodeSet(s) && n in Tips(s) ==> EvenNode(n, whole, width, level)
  }

  ghost predicate EvenAll(kids: seq<Shape>, whole: int, width: nat, level: nat)
    reads NodeSetAll(kids)
  {
    forall n :: n in NodeSetAll(kids) && n in TipsAll(kids) ==> EvenNode(n, whole, width, level)
  }

  /** Two even leaves of one tree differ by at most one unit. */
  lemma EvenLeavesDiffer(a: LeaseNode, b: LeaseNode, whole: int, width: nat, level: nat)
    requires EvenNode(a, whole, width, level) && EvenNode(b, whole, width, level)
    ensures a.residual <= b.residual + 1 && b.residual <= a.residual + 1
  {
    NearAlike(whole, width, a.residual, b.residual);
    NearAlike(whole, width, b.residual, a.residual);
  }

  lemma EvenSnoc(kids: seq<Shape>, kid: Shape, whole: int, fanout: nat, units: int, width: nat, level: nat)
    requires EvenAll(kids, whole, fanout * width, level) && Even(kid, units, width, level) && Near(whole, fanout, units)
    ensures EvenAll(kids + [kid], whole, fanout * width, level)
    ensures |TipsAll(kids + [kid])| == |TipsAll(kids)| + |Tips(kid)|
  {
    assert (kids + [kid])[..|kids|] == kids;
    forall n | n in NodeSetAll(kids + [kid]) && n in TipsAll(kids + [kid])
      ensures EvenNode(n, whole, fanout * width, level)
    {
      if n in TipsAll(kids) {
        TipsAllAreNodes(kids, n);
      } else {
        TipsAreNodes(kid, n);
        NearLifts(whole, fanout, units, width, n.residual);
      }
    }
  }

  lemma EvenRoot(root: LeaseNode, kids: seq<Shape>, whole: int, width: nat, level: nat)
    requires EvenAll(kids, whole, width, level) && kids != []
    ensures Even(Shape(root, kids), whole, width, level)
  {
    forall n | n in Tips(Shape(root, kids)) ensures EvenNode(n, whole, width, level) {
      TipsAllAreNodes(kids, n);
    }
  }

  // ---- spawning ----

  /** Spawns one child with `units` and delegates from there. */
  method SpawnOne(parent: LeaseNode, units: int, depth: nat, fanout: nat, ghost width: nat)
    returns (operations: nat, ghost sub: Shape)
    requires parent.level < depth && fanout > 0 && units > 0 && width == Power(fanout, depth - parent.level - 1)
    modifies parent
    ensures Tidy(sub) && Held(sub) == units && forall n :: n in NodeSet(sub) ==> fresh(n)
    ensures parent.children == old(parent.children) + [sub.node] && parent.residual == old(parent.residual) - units
    ensures parent.sequence == old(parent.sequence) + 1
    ensures operations == |Nodes(sub)|
    ensures Even(sub, units, width, depth) && |Tips(sub)| == LeafCount(units, width)
    decreases depth - parent.level, 0
  {
    var child := Attach(parent, units);
    assert child != parent && depth - child.level == depth - parent.level - 1;
    var below;
    below, sub := SpawnChildren(child, depth, fanout);
    assert Even(sub, units, width, depth) && |Tips(sub)| == LeafCount(units, width);
    operations := 1 + below;
  }

  /** The children made so far: tidy, new, apart from their parent, and `count` nodes holding `total`. */
  ghost predicate Brood(parent: LeaseNode, kids: seq<Shape>, count: nat, total: int)
    reads parent, NodeSetAll(kids)
  {
    && TidyAll(kids) && parent !in NodeSetAll(kids) && parent.children == KidNodes(kids) && parent.sequence == |kids|
    && |NodesAll(kids)| == count && Sum(ResidualsOf(NodesAll(kids))) == total
  }

  lemma BroodGrows(parent: LeaseNode, kids: seq<Shape>, sub: Shape, count: nat, total: int)
    requires TidyAll(kids) && parent !in NodeSetAll(kids) && parent !in NodeSet(sub)
    requires |NodesAll(kids)| == count && Sum(ResidualsOf(NodesAll(kids))) == total
    requires parent.children == KidNodes(kids) + [sub.node] && parent.sequence == |kids| + 1
    requires Tidy(sub) && NodeSet(sub) !! NodeSetAll(kids)
    ensures Brood(parent, kids + [sub], count + |Nodes(sub)|, total + Held(sub))
    ensures NodeSetAll(kids + [sub]) == NodeSetAll(kids) + NodeSet(sub)
  {
    var grown := kids + [sub];
    TidySnoc(kids, sub);
    assert KidNodes(grown) == KidNodes(kids) + [sub.node];
    assert |NodesAll(grown)| == |NodesAll(kids)| + |Nodes(sub)|;
    assert parent !in NodeSetAll(grown);
  }

  method SpawnNext(parent: LeaseNode, units: int, depth: nat, fanout: nat,
                   ghost kids: seq<Shape>, ghost region: set<LeaseNode>, ghost count: nat, ghost total: int,
                   ghost whole: int, ghost width: nat)
    returns (operations: nat, ghost grown: seq<Shape>, ghost extended: set<LeaseNode>)
    requires parent.level < depth && fanout > 0 && units > 0
    requires NodeSetAll(kids) == region && Brood(parent, kids, count, total)
    requires width == Power(fanout, depth - parent.level - 1) && Near(whole, fanout, units)
    requires EvenAll(kids, whole, fanout * width, depth)
    modifies parent
    ensures EvenAll(grown, whole, fanout * width, depth) && |TipsAll(grown)| == |TipsAll(kids)| + LeafCount(units, width)
    ensures NodeSetAll(grown) == extended && Brood(parent, grown, count + operations, total + units)
    ensures forall n :: n in extended ==> n in region || fresh(n)
    ensures parent.residual == old(parent.residual) - units
    decreases depth - parent.level, 1
  {
    ghost var sub;
    operations, sub := SpawnOne(parent, units, depth, fanout, width);
    BroodGrows(parent, kids, sub, count, total);
    EvenSnoc(kids, sub, whole, fanout, units, width, depth);
    grown := kids + [sub];
    extended := region + NodeSet(sub);
  }

  lemma NoBrood(parent: LeaseNode, whole: int, width: nat, level: nat)
    requires parent.children == [] && parent.sequence == 0
    ensures Brood(parent, [], 0, 0) && EvenAll([], whole, width, level) && TipsAll([]) == []
  {
    assert ResidualsOf(NodesAll([])) == [];
  }

  /** What is known of the parts a parent is split into. */
  ghost predicate Split(parts: seq<int>, whole: int, fanout: nat) {
    && |parts| == fanout && Sum(parts) == whole
    && (forall i, j :: 0 <= i <= j < |parts| ==> 0 <= parts[j] <= parts[i])
    && (forall i :: 0 <= i < |parts| ==> Near(whole, fanout, parts[i]))
  }

  lemma SplitIsSplit(units: nat, fanout: nat)
    requires fanout > 0
    ensures Split(SplitAllocation(units, fanout), units, fanout)
  {
    SplitIsFair(units, fanout);
    forall i | 0 <= i < fanout ensures Near(units, fanout, SplitAllocation(units, fanout)[i]) {
      PartIsNear(units, fanout, i);
    }
  }

  /** The leaves under the first `i` parts: all of their width, or as many as there are units. */
  ghost function LeavesSoFar(parts: seq<int>, i: nat, whole: int, fanout: nat, width: nat): int
    requires i <= |parts|
  {
    if whole < fanout * width then Sum(parts[..i]) else i * width
  }

  lemma LeavesGrow(parts: seq<int>, i: nat, whole: int, fanout: nat, width: nat)
    requires Split(parts, whole, fanout) && i < |parts|
    ensures LeavesSoFar(parts, i + 1, whole, fanout, width) ==
      LeavesSoFar(parts, i, whole, fanout, width) + LeafCount(parts[i], width)
  {
    NearBounds(whole, fanout, parts[i], width);
    assert parts[..i + 1] == parts[..i] + [parts[i]];
    SumAppend(parts[..i], parts[i]);
    assert (i + 1) * width == i * width + width;
  }

  lemma LeavesInAll(parts: seq<int>, i: nat, whole: nat, fanout: nat, width: nat)
    requires Split(parts, whole, fanout) && i <= |parts| && width > 0 && (i < |parts| ==> parts[i] <= 0)
    ensures LeavesSoFar(parts, i, whole, fanout, width) == LeafCount(whole, fanout * width)
  {
    assert parts == parts[..i] + parts[i..];
    SumConcat(parts[..i], parts[i..]);
    SumZeros(parts[i..]);
    if fanout * width <= whole && i < |parts| {
      NearBounds(whole, fanout, parts[i], width);
    }
  }

  method SpawnParts(parent: LeaseNode, parts: seq<int>, depth: nat, fanout: nat, ghost width: nat)
    returns (operations: nat, ghost kids: seq<Shape>, ghost region: set<LeaseNode>)
    requires parent.level < depth && fanout > 0 && parent.children == [] && parent.sequence == 0 && parent.residual > 0
    requires Split(parts, parent.residual, fanout) && width == Power(fanout, depth - parent.level - 1) && width > 0
    modifies parent
    ensures Brood(parent, kids, operations, old(parent.residual)) && parent.residual == 0
    ensures NodeSetAll(kids) == region && forall n :: n in region ==> fresh(n)
    ensures EvenAll(kids, old(parent.residual), fanout * width, depth)
    ensures |TipsAll(kids)| == LeafCount(old(parent.residual), fanout * width)
    decreases depth - parent.level, 2
  {
    operations, kids, region := 0, [], {};
    var total := parent.residual;
    var i := 0;
    assert parts[0..] == parts && parts[..0] == [];
    NoBrood(parent, total, fanout * width, depth);
    while i < |parts| && parts[i] > 0
      invariant 0 <= i <= |parts|
      invariant NodeSetAll(kids) == region && Brood(parent, kids, operations, total - parent.residual)
      invariant forall n :: n in region ==> fresh(n)
      invariant parent.residual == Sum(parts[i..])
      invariant EvenAll(kids, total, fanout * width, depth)
      invariant |TipsAll(kids)| == LeavesSoFar(parts, i, total, fanout, width)
      decreases |parts| - i
    {
      SumDropFirst(parts, i);
      LeavesGrow(parts, i, total, fanout, width);
      var below;
      below, kids, region := SpawnNext(parent, parts[i], depth, fanout, kids, region, operations, total - parent.residual,
                                       total, width);
      operations := operations + below;
      i := i + 1;
    }
    SumZeros(parts[i..]);
    LeavesInAll(parts, i, total, fanout, width);
  }

  /**
   * Delegates all of the parent's units downwards until the full depth is reached: the leaves all lie
   * at that depth and share the units evenly, on as many leaves as there are units or room for.
   */
  method SpawnChildren(parent: LeaseNode, depth: nat, fanout: nat) returns (operations: nat, ghost s: Shape)
    requires parent.level <= depth && (parent.level < depth ==> fanout > 0)
    requires parent.children == [] && parent.sequence == 0 && parent.residual > 0
    modifies parent
    ensures s.node == parent && Tidy(s) && Held(s) == old(parent.residual)
    ensures forall n :: n in NodeSet(s) && n != parent ==> fresh(n)
    ensures operations == |Nodes(s)| - 1
    ensures var width := Power(fanout, depth - parent.level);
      Even(s, old(parent.residual), width, depth) && |Tips(s)| == LeafCount(old(parent.residual), width)
    decreases depth - parent.level, 4
  {
    operations := 0;
    s := Shape(parent, []);
    if parent.level >= depth {
      TidyRoot(parent, []);
      return;
    }
    ghost var width, whole := Power(fanout, depth - parent.level - 1), Power(fanout, depth - parent.level);
    PowerPositive(fanout, depth - parent.level - 1);
    PowerPositive(fanout, depth - parent.level);
    SplitIsSplit(parent.residual, fanout);
    operations, s := SpawnBelow(parent, depth, fanout, width, whole);
  }

  method SpawnBelow(parent: LeaseNode, depth: nat, fanout: nat, ghost width: nat, ghost whole: nat)
    returns (operations: nat, ghost s: Shape)
    requires parent.level < depth && fanout > 0 && parent.children == [] && parent.sequence == 0 && parent.residual > 0
    requires width == Power(fanout, depth - parent.level - 1) && width > 0 && whole == fanout * width && whole > 0
    requires Split(SplitAllocation(parent.residual, fanout), parent.residual, fanout)
    modifies parent
    ensures s.node == parent && Tidy(s) && Held(s) == old(parent.residual)
    ensures forall n :: n in NodeSet(s) && n != parent ==> fresh(n)
    ensures operations == |Nodes(s)| - 1
    ensures Even(s, old(parent.residual), whole, depth) && |Tips(s)| == LeafCount(old(parent.residual), whole)
    decreases depth - parent.level, 3
  {
    ghost var kids, region;
    ghost var units := parent.residual;
    operations, kids, region := SpawnParts(parent, SplitAllocation(parent.residual, fanout), depth, fanout, width);
    s := Shape(parent, kids);
    BroodIsTree(parent, kids, operations, units, whole, depth);
  }

  lemma BroodIsTree(parent: LeaseNode, kids: seq<Shape>, count: nat, units: int, whole: nat, depth: nat)
    requires Brood(parent, kids, count, units) && parent.residual == 0 && units > 0 && whole > 0
    requires EvenAll(kids, units, whole, depth) && |TipsAll(kids)| == LeafCount(units, whole)
    ensures var s := Shape(parent, kids);
      && Tidy(s) && Held(s) == units && |Nodes(s)| == count + 1
      && Even(s, units, whole, depth) && |Tips(s)| == LeafCount(units, whole)
  {
    TidyRoot(parent, kids);
    EvenRoot(parent, kids, units, whole, depth);
  }
}
