/**
 * Lease trees on the heap.  A shape is the tree of references a root lease spans; everything the
 * source computes by recursion over the objects is tied to flat lists of the nodes of the shape.
 */
module DelegationShape {
  import opened Common
  import opened Shares

  class LeaseNode {
    const level: nat
    var residual: int
    var sequence: nat
    var children: seq<LeaseNode>

    constructor (level: nat, residual: int)
      ensures this.level == level && this.residual == residual && sequence == 0 && children == []
    {
      this.level, this.residual := level, residual;
      sequence, children := 0, [];
    }

    method Charge()
      modifies this
      ensures residual == old(residual) - 1 && sequence == old(sequence) + 1 && children == old(children)
    {
      sequence := sequence + 1;
      residual := residual - 1;
    }
  }

  datatype Shape = Shape(node: LeaseNode, kids: seq<Shape>)

  ghost function KidNodes(kids: seq<Shape>): seq<LeaseNode> {
    seq(|kids|, i requires 0 <= i < |kids| => kids[i].node)
  }

  ghost function NodeSet(s: Shape): set<LeaseNode>
    decreases s, 1
  {
    {s.node} + NodeSetAll(s.kids)
  }

  ghost function NodeSetAll(kids: seq<Shape>): set<LeaseNode>
    decreases kids, 0
  {
    if kids == [] then {} else NodeSetAll(kids[..|kids| - 1]) + NodeSet(kids[|kids| - 1])
  }

  /** All nodes, parents before children. */
  ghost function Nodes(s: Shape): (nodes: seq<LeaseNode>)
    ensures forall i :: 0 <= i < |nodes| ==> nodes[i] in NodeSet(s)
    ensures forall n :: n in NodeSet(s) ==> n in nodes
    decreases s, 1
  {
    [s.node] + NodesAll(s.kids)
  }

  ghost function NodesAll(kids: seq<Shape>): (nodes: seq<LeaseNode>)
    ensures forall i :: 0 <= i < |nodes| ==> nodes[i] in NodeSetAll(kids)
    ensures forall n :: n in NodeSetAll(kids) ==> n in nodes
    decreases kids, 0
  {
    if kids == [] then [] else NodesAll(kids[..|kids| - 1]) + Nodes(kids[|kids| - 1])
  }

  /** The nodes without children. */
  ghost function Tips(s: Shape): seq<LeaseNode>
    decreases s, 1
  {
    if s.kids == [] then [s.node] else TipsAll(s.kids)
  }

  ghost function TipsAll(kids: seq<Shape>): seq<LeaseNode>
    decreases kids, 0
  {
    if kids == [] then [] else TipsAll(kids[..|kids| - 1]) + Tips(kids[|kids| - 1])
  }

  /** The objects' child lists are those of the shape. */
  ghost predicate Matches(s: Shape)
    reads NodeSet(s)`children
    decreases s, 1
  {
    s.node.children == KidNodes(s.kids) && MatchesAll(s.kids)
  }

  ghost predicate MatchesAll(kids: seq<Shape>)
    reads NodeSetAll(kids)`children
    decreases kids, 0
  {
    kids != [] ==> MatchesAll(kids[..|kids| - 1]) && Matches(kids[|kids| - 1])
  }

  ghost function ResidualsOf(nodes: seq<LeaseNode>): seq<int>
    reads nodes
  {
    seq(|nodes|, i requires 0 <= i < |nodes| reads nodes => nodes[i].residual)
  }

  ghost function Held(s: Shape): int
    reads NodeSet(s)
  {
    Sum(ResidualsOf(Nodes(s)))
  }

  lemma ResidualsConcat(a: seq<LeaseNode>, b: seq<LeaseNode>)
    ensures Sum(ResidualsOf(a + b)) == Sum(ResidualsOf(a)) + Sum(ResidualsOf(b))
  {
    assert ResidualsOf(a + b) == ResidualsOf(a) + ResidualsOf(b);
    SumConcat(ResidualsOf(a), ResidualsOf(b));
  }

  lemma {:induction false} MatchesKid(kids: seq<Shape>, i: nat)
    requires MatchesAll(kids) && i < |kids|
    ensures Matches(kids[i])
  {
    if i < |kids| - 1 {
      MatchesKid(kids[..|kids| - 1], i);
    }
  }

  // ---- what the source computes by recursion ----

  /** `residual_total`: the recursive sum is the sum over all nodes. */
  function ResidualTotal(n: LeaseNode, ghost s: Shape): (total: int)
    requires Matches(s) && s.node == n
    reads NodeSet(s)
    ensures total == Held(s)
    decreases s, 1
  {
    ghost var rest := ResidualsOf(NodesAll(s.kids));
    assert ResidualsOf(Nodes(s)) == [n.residual] + rest;
    SumConcat([n.residual], rest);
    assert Sum([n.residual]) == n.residual by {
      SumAppend([], n.residual);
      assert [] + [n.residual] == [n.residual];
    }
    n.residual + ResidualTotals(n.children, s.kids)
  }

  function ResidualTotals(ns: seq<LeaseNode>, ghost kids: seq<Shape>): (total: int)
    requires MatchesAll(kids) && ns == KidNodes(kids)
    reads NodeSetAll(kids)
    ensures total == Sum(ResidualsOf(NodesAll(kids)))
    decreases kids, 0
  {
    if ns == [] then 0 else
      ghost var front, last := kids[..|kids| - 1], kids[|kids| - 1];
      ResidualsConcat(NodesAll(front), Nodes(last));
      ResidualTotals(ns[..|ns| - 1], front) + ResidualTotal(ns[|ns| - 1], last)
  }

  /** `leaves`: the very objects at the tips of the tree, not copies. */
  function Leaves(n: LeaseNode, ghost s: Shape): (leaves: seq<LeaseNode>)
    requires Matches(s) && s.node == n
    reads NodeSet(s)
    ensures leaves == Tips(s)
    decreases s, 1
  {
    if n.children == [] then [n] else LeavesAll(n.children, s.kids)
  }

  function LeavesAll(ns: seq<LeaseNode>, ghost kids: seq<Shape>): (leaves: seq<LeaseNode>)
    requires MatchesAll(kids) && ns == KidNodes(kids)
    reads NodeSetAll(kids)
    ensures leaves == TipsAll(kids)
    decreases kids, 0
  {
    if ns == [] then [] else
      LeavesAll(ns[..|ns| - 1], kids[..|kids| - 1]) + Leaves(ns[|ns| - 1], kids[|kids| - 1])
  }

  lemma {:induction false} TipsAreNodes(s: Shape, n: LeaseNode)
    requires n in Tips(s)
    ensures n in Nodes(s)
    decreases s, 1
  {
    if s.kids != [] {
      TipsAllAreNodes(s.kids, n);
    }
  }

  lemma {:induction false} TipsAllAreNodes(kids: seq<Shape>, n: LeaseNode)
    requires n in TipsAll(kids)
    ensures n in NodesAll(kids)
    decreases kids, 0
  {
    var k := |kids| - 1;
    if n in TipsAll(kids[..k]) {
      TipsAllAreNodes(kids[..k], n);
    } else {
      TipsAreNodes(kids[k], n);
    }
  }

  /** A node of the tree without children is one of its tips. */
  lemma {:induction false} ChildlessIsTip(s: Shape, n: LeaseNode)
    requires Matches(s) && n in NodeSet(s) && n.children == []
    ensures n in Tips(s)
    decreases s, 1
  {
    if n == s.node {
      assert |KidNodes(s.kids)| == |s.kids|;
    } else {
      ChildlessIsTipAll(s.kids, n);
    }
  }

  lemma {:induction false} ChildlessIsTipAll(kids: seq<Shape>, n: LeaseNode)
    requires MatchesAll(kids) && n in NodeSetAll(kids) && n.children == []
    ensures n in TipsAll(kids)
    decreases kids, 0
  {
    var k := |kids| - 1;
    if n in NodeSetAll(kids[..k]) {
      ChildlessIsTipAll(kids[..k], n);
    } else {
      ChildlessIsTip(kids[k], n);
    }
  }

  // ---- the leaves, read off the flat list of nodes ----

  /** The nodes of a list that have no children, in the order of the list. */
  ghost function Childless(nodes: seq<LeaseNode>): seq<LeaseNode>
    reads nodes
  {
    if nodes == [] then [] else
      var last := nodes[|nodes| - 1];
      Childless(nodes[..|nodes| - 1]) + if last.children == [] then [last] else []
  }

  lemma {:induction false} ChildlessConcat(a: seq<LeaseNode>, b: seq<LeaseNode>)
    ensures Childless(a + b) == Childless(a) + Childless(b)
  {
    if b == [] {
      assert a + b == a;
    } else {
      ChildlessConcat(a, b[..|b| - 1]);
      assert (a + b)[..|a + b| - 1] == a + b[..|b| - 1];
    }
  }

  lemma {:induction false} ChildlessMembers(nodes: seq<LeaseNode>, n: LeaseNode)
    ensures n in Childless(nodes) <==> n in nodes && n.children == []
  {
    if nodes != [] {
      ChildlessMembers(nodes[..|nodes| - 1], n);
    }
  }

  lemma {:induction false} ChildlessDistinct(nodes: seq<LeaseNode>)
    requires Distinct(nodes)
    ensures Distinct(Childless(nodes))
  {
    if nodes != [] {
      var front, last := nodes[..|nodes| - 1], nodes[|nodes| - 1];
      ChildlessDistinct(front);
      ChildlessMembers(front, last);
    }
  }

  lemma {:induction false} TipsAreChildless(s: Shape)
    requires Matches(s)
    ensures Tips(s) == Childless(Nodes(s))
    decreases s, 1
  {
    ChildlessConcat([s.node], NodesAll(s.kids));
    assert |KidNodes(s.kids)| == |s.kids|;
    assert [s.node][..0] == [];
    TipsAllAreChildless(s.kids);
  }

  lemma {:induction false} TipsAllAreChildless(kids: seq<Shape>)
    requires MatchesAll(kids)
    ensures TipsAll(kids) == Childless(NodesAll(kids))
    decreases kids, 0
  {
    if kids != [] {
      var front, last := kids[..|kids| - 1], kids[|kids| - 1];
      TipsAllAreChildless(front);
      TipsAreChildless(last);
      ChildlessConcat(NodesAll(front), Nodes(last));
    }
  }

  /** `leaves` lists the childless nodes of the tree, each once, parents' order kept. */
  lemma LeavesAreTheChildless(n: LeaseNode, s: Shape)
    requires Matches(s) && s.node == n
    ensures Leaves(n, s) == Childless(Nodes(s))
    ensures forall x :: x in Leaves(n, s) <==> x in NodeSet(s) && x.children == []
    ensures Distinct(Nodes(s)) ==> Distinct(Leaves(n, s))
  {
    TipsAreChildless(s);
    forall x ensures x in Leaves(n, s) <==> x in NodeSet(s) && x.children == [] {
      ChildlessMembers(Nodes(s), x);
    }
    if Distinct(Nodes(s)) {
      ChildlessDistinct(Nodes(s));
    }
  }

  // ---- splitting an allocation ----

  function SplitAllocation(units: int, fanout: nat): seq<int>
    requires fanout > 0
  {
    Parts(units, fanout, fanout)
  }

  /** The parts add up to the whole, never increase, and from the first empty part on all are empty. */
  lemma SplitIsFair(units: nat, fanout: nat)
    requires fanout > 0
    ensures Sum(SplitAllocation(units, fanout)) == units
    ensures forall i, j :: 0 <= i <= j < fanout ==>
      0 <= SplitAllocation(units, fanout)[j] <= SplitAllocation(units, fanout)[i] <= SplitAllocation(units, fanout)[j] + 1
  {
    PartsAddUp(units, fanout);
  }
}
