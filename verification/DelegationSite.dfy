/**
 * One site of the delegation experiment: its local pool, its lease tree with the aliased list of
 * leaves, and the operations that take units, hand them to a peer or receive them.  Whether the
 * warden service authorizes or accepts is an input; its other calls are taken to succeed.
 */
module DelegationSite {
  import opened Common
  import opened DelegationShape
  import opened DelegationTree
  import opened Shares

  /** How taking a unit ends. */
  datatype Decision = StaleStateRefused | ExhaustedLocal | Denied | AuthorizedAndClaimed

  class Site {
    const depth: nat
    const fanout: nat
    const peers: set<string>
    /** Set when a restored state was refused; every operation is then turned away. */
    var failed: bool
    var pool: int
    var root: LeaseNode?
    var leaves: seq<LeaseNode>
    var nextLeaf: nat
    var outstanding: map<string, int>
    ghost var shape: Option<Shape>
    ghost var region: set<LeaseNode>

    /** The leaf list is the tips of the tree: the same objects, in order. */
    ghost predicate Valid()
      reads this, region
    {
      && (depth > 0 ==> fanout > 0) && 0 <= pool
      && (root == null ==> shape == None && leaves == [] && region == {})
      && (root != null ==>
            && shape.Some? && shape.value.node == root && NodeSet(shape.value) == region
            && Tidy(shape.value) && leaves == Tips(shape.value))
    }

    /** `usable_units`: the pool and everything the tree holds. */
    ghost function Usable(): int
      requires Valid()
      reads this, region
    {
      pool + if root == null then 0 else Held(shape.value)
    }

    /** Between operations all units are in the tree. */
    ghost predicate Ready()
      reads this, region
    {
      Valid() && pool == 0
    }

    /** The leaves all lie at the full depth and share `units` evenly, on as many leaves as there are units or room for. */
    ghost predicate Spread(units: nat)
      reads this, leaves
    {
      && |leaves| == LeafCount(units, Power(fanout, depth))
      && forall i :: 0 <= i < |leaves| ==> EvenNode(leaves[i], units, Power(fanout, depth), depth)
    }

    constructor (share: nat, depth: nat, fanout: nat, peers: set<string>)
      requires depth > 0 ==> fanout > 0
      ensures Valid() && root == null && pool == share && region == {}
      ensures this.depth == depth && this.fanout == fanout && this.peers == peers
      ensures outstanding == map[] && !failed
    {
      this.depth, this.fanout, this.peers, failed := depth, fanout, peers, false;
      pool, root, leaves, nextLeaf, outstanding := share, null, [], 0, map[];
      shape, region := None, {};
    }

    method UsableUnits() returns (units: int)
      requires Valid()
      ensures units == Usable()
    {
      units := pool;
      if root != null {
        units := units + ResidualTotal(root, shape.value);
      }
    }

    // ---- building and tearing down ----

    /** Installs a freshly grown tree, with its leaf list, in place of none. */
    method Install(top: LeaseNode, tips: seq<LeaseNode>, ghost s: Shape, ghost nodes: set<LeaseNode>, ghost units: nat)
      requires (depth > 0 ==> fanout > 0) && pool == 0
      requires Tidy(s) && s.node == top && NodeSet(s) == nodes && tips == Tips(s)
      requires Even(s, units, Power(fanout, depth), depth) && |tips| == LeafCount(units, Power(fanout, depth))
      modifies this`root, this`leaves, this`nextLeaf, this`shape, this`region
      ensures Ready() && root == top && region == nodes && Usable() == Held(s) && Spread(units)
    {
      forall i | 0 <= i < |tips| ensures EvenNode(tips[i], units, Power(fanout, depth), depth) {
        TipsAreNodes(s, tips[i]);
      }
      root, leaves, nextLeaf, shape, region := top, tips, 0, Some(s), nodes;
    }

    method BuildTree() returns (operations: nat)
      requires Valid() && root == null
      modifies this`pool, this`root, this`leaves, this`nextLeaf, this`shape, this`region
      ensures Ready() && Usable() == old(pool) && Spread(old(pool))
      ensures fresh(region) && operations == |region|
    {
      if pool <= 0 {
        return 0;
      }
      var units := pool;
      pool := 0;
      var top, tips;
      ghost var s, nodes;
      top, tips, operations, s, nodes := GrowTree(units, depth, fanout);
      Install(top, tips, s, nodes, units);
    }

    /** Returns exactly the tree's residual to the pool. */
    method TeardownTree() returns (operations: nat)
      requires Valid()
      modifies this`pool, this`root, this`leaves, this`nextLeaf, this`shape, this`region, region`residual
      ensures Valid() && root == null && pool == old(Usable())
      ensures operations == |old(region)|
    {
      if root == null {
        return 0;
      }
      NodeCount(shape.value);
      HeldNonneg(shape.value);
      var returned;
      operations, returned := CloseSubtree(root, shape.value, region);
      Uproot(returned);
    }

    /** Puts `returned` in the pool and forgets the tree. */
    method Uproot(returned: nat)
      modifies this`pool, this`root, this`leaves, this`nextLeaf, this`shape, this`region
      ensures pool == old(pool) + returned && root == null && leaves == [] && nextLeaf == 0
      ensures shape == None && region == {}
    {
      pool := pool + returned;
      root, leaves, nextLeaf, shape, region := null, [], 0, None, {};
    }

    /** Close everything and build again: the units stay, all in leaves. */
    method Rebuild() returns (operations: nat)
      requires Valid()
      modifies this`pool, this`root, this`leaves, this`nextLeaf, this`shape, this`region, region`residual
      ensures Ready() && Usable() == old(Usable()) && fresh(region)
      ensures 0 <= Usable() && Spread(Usable())
      ensures operations == |old(region)| + |region|
    {
      var closes := TeardownTree();
      var spawns := BuildTree();
      operations := closes + spawns;
    }

    // ---- taking a unit ----

    /** The first leaf with units in cyclic order from `nextLeaf`, if there is one. */
    method NextLeafWithUnits() returns (leaf: LeaseNode?, ghost k: nat)
      requires Valid()
      modifies this`nextLeaf
      ensures leaf == null ==> nextLeaf == old(nextLeaf) && forall i :: 0 <= i < |leaves| ==> leaves[i].residual <= 0
      ensures leaf != null ==>
        && k < |leaves| && leaf == leaves[k] && leaf.residual > 0
        && IsFirst(ResidualsOf(leaves), old(nextLeaf), k) && nextLeaf == (k + 1) % |leaves|
    {
      var count := |leaves|;
      var step := 0;
      k := 0;
      while step < count
        invariant 0 <= step <= count == |leaves| && nextLeaf == old(nextLeaf)
        invariant forall j :: 0 <= j < step ==> leaves[Cyclic(nextLeaf, j, count)].residual <= 0
      {
        var index := Cyclic(nextLeaf, step, count);
        leaf := leaves[index];
        if leaf.residual > 0 {
          k := index;
          assert FirstAfter(ResidualsOf(leaves), nextLeaf, step, k);
          nextLeaf := (index + 1) % count;
          return;
        }
        step := step + 1;
      }
      leaf := null;
      forall i | 0 <= i < |leaves| ensures leaves[i].residual <= 0 {
        var j := CyclicOffset(nextLeaf, i, count);
      }
    }

    /**
     * Takes one unit if any leaf has one and the warden and executor agree.  It is refused for want
     * of units only when there are none at all; otherwise the first leaf with units pays, in cyclic
     * order from where the last scan stopped, and no other leaf does.
     */
    method Take(authorized: bool) returns (decision: Decision)
      requires Ready()
      modifies this`nextLeaf, region
      ensures Ready() && Usable() == old(Usable()) - if decision.AuthorizedAndClaimed? then 1 else 0
      ensures decision ==
        if failed then StaleStateRefused
        else if old(Usable()) == 0 then ExhaustedLocal
        else if authorized then AuthorizedAndClaimed else Denied
      ensures failed || old(Usable()) == 0 ==> nextLeaf == old(nextLeaf)
      ensures decision.AuthorizedAndClaimed? ==> PaidFirst(old(ResidualsOf(leaves)), old(nextLeaf), ResidualsOf(leaves), nextLeaf)
      ensures !decision.AuthorizedAndClaimed? ==> ResidualsOf(leaves) == old(ResidualsOf(leaves))
    {
      if failed {
        return StaleStateRefused;
      }
      var leaf;
      ghost var k;
      leaf, k := Scan();
      if leaf == null {
        return ExhaustedLocal;
      }
      if !authorized {
        return Denied;
      }
      Claim(leaf, k, old(nextLeaf));
      return AuthorizedAndClaimed;
    }

    /** The scan finds a leaf exactly when the site has units, and moves none. */
    method Scan() returns (leaf: LeaseNode?, ghost k: nat)
      requires Ready()
      modifies this`nextLeaf
      ensures Ready() && Usable() == old(Usable())
      ensures leaf == null ==> Usable() == 0 && nextLeaf == old(nextLeaf)
      ensures leaf != null ==>
        && Usable() > 0 && root != null && leaf in region && Distinct(leaves)
        && k < |leaves| && leaf == leaves[k] && leaf.residual > 0
        && IsFirst(ResidualsOf(leaves), old(nextLeaf), k) && nextLeaf == (k + 1) % |leaves|
    {
      ghost var held := if root == null then 0 else Held(shape.value);
      leaf, k := NextLeafWithUnits();
      assert root != null ==> Tidy(shape.value) && Held(shape.value) == held;
      if leaf == null {
        NothingLeft();
      } else {
        FoundHolds(leaf);
      }
    }

    /** The leaf found pays. */
    method Claim(leaf: LeaseNode, ghost k: nat, ghost start: nat)
      requires Ready() && root != null && leaf in region && leaf.residual > 0
      requires k < |leaves| && leaf == leaves[k] && Distinct(leaves)
      requires IsFirst(ResidualsOf(leaves), start, k) && nextLeaf == (k + 1) % |leaves|
      modifies leaf
      ensures Ready() && Usable() == old(Usable()) - 1
      ensures PaidFirst(old(ResidualsOf(leaves)), start, ResidualsOf(leaves), nextLeaf)
    {
      ghost var before := ResidualsOf(leaves);
      Spend(leaf, k);
      assert ResidualsOf(leaves) == before[k := before[k] - 1];
    }

    lemma NothingLeft()
      requires Ready() && forall i :: 0 <= i < |leaves| ==> leaves[i].residual <= 0
      ensures Usable() == 0
    {
      if root != null {
        EmptyTips(shape.value);
      }
    }

    lemma FoundHolds(leaf: LeaseNode)
      requires Ready() && leaf in leaves && leaf.residual > 0
      ensures root != null && leaf in region && Usable() > 0 && Distinct(leaves)
    {
      TipsAreNodes(shape.value, leaf);
      TipHeld(shape.value, leaf);
      TipsAreChildless(shape.value);
      ChildlessDistinct(Nodes(shape.value));
    }

    /** The leaf list is aliased to the tree: spending at a leaf is spending from the tree. */
    method Spend(leaf: LeaseNode, ghost k: nat)
      requires Ready() && root != null && leaf in region && leaf.residual > 0
      requires k < |leaves| && leaf == leaves[k] && Distinct(leaves)
      modifies leaf
      ensures Ready() && Usable() == old(Usable()) - 1
      ensures ResidualsOf(leaves) == old(ResidualsOf(leaves))[k := old(leaf.residual) - 1]
    {
      ghost var s := shape.value;
      ChargeNode(leaf, s, region);
    }

    // ---- transfers ----

    /**
     * Serves a peer's request: the outstanding voucher again if there is one, otherwise at most half
     * of the usable units, rounded up.  Granting rebuilds the tree with exactly the rest.
     */
    method ServeRequestTransfer(target: string, requested: int) returns (granted: Option<int>)
      requires Ready()
      modifies this, region`residual
      ensures Ready() && failed == old(failed)
      ensures granted == Answer(target, requested, peers, failed, old(outstanding), old(Usable()))
      ensures !Fresh(target, peers, failed, old(outstanding)) ==>
        Usable() == old(Usable()) && outstanding == old(outstanding)
      ensures Fresh(target, peers, failed, old(outstanding)) ==>
        && Usable() == old(Usable()) - granted.value
        && outstanding == if granted.value > 0 then old(outstanding)[target := granted.value] else old(outstanding)
    {
      if target !in peers {
        return None;
      }
      if failed {
        return Some(0);
      }
      if target in outstanding {
        return Some(outstanding[target]);
      }
      var grant := ServeFresh(target, requested);
      return Some(grant);
    }

    /** Nothing is outstanding: the grant leaves the site and is kept as a voucher. */
    method ServeFresh(target: string, requested: int) returns (grant: int)
      requires Ready()
      modifies this`pool, this`root, this`leaves, this`nextLeaf, this`shape, this`region, this`outstanding, region`residual
      ensures Ready() && grant == Grant(requested, old(Usable())) && Usable() == old(Usable()) - grant
      ensures outstanding == if grant > 0 then old(outstanding)[target := grant] else old(outstanding)
      ensures grant > 0 ==> 0 <= Usable() && Spread(Usable())
    {
      var available := UsableUnits();
      UsableNonneg();
      grant := Grant(requested, available);
      if grant > 0 {
        GiveAway(grant);
        KeepVoucher(target, grant);
      }
    }

    /** A peer's acknowledgement: its voucher is no longer outstanding. */
    method ServeFinalize(source: string) returns (finalized: bool)
      requires Ready()
      modifies this`outstanding
      ensures Ready() && Usable() == old(Usable()) && finalized == !failed
      ensures outstanding == if failed then old(outstanding) else old(outstanding) - {source}
    {
      if failed {
        return false;
      }
      assert forall n :: n in region ==> (n as object) != this;
      ghost var held := if root == null then 0 else Held(shape.value);
      outstanding := outstanding - {source};
      assert root != null ==> Tidy(shape.value) && Held(shape.value) == held;
      return true;
    }

    /** Closes the tree, debits the pool and builds again with the rest. */
    method GiveAway(granted: nat)
      requires Ready() && granted <= Usable()
      modifies this`pool, this`root, this`leaves, this`nextLeaf, this`shape, this`region, region`residual
      ensures Ready() && Usable() == old(Usable()) - granted && fresh(region) && Spread(old(Usable()) - granted)
    {
      var closes := TeardownTree();
      pool := pool - granted;
      var spawns := BuildTree();
    }

    method KeepVoucher(target: string, granted: int)
      requires Ready()
      modifies this`outstanding
      ensures Ready() && Usable() == old(Usable()) && outstanding == old(outstanding)[target := granted]
      ensures forall units: nat :: old(Spread(units)) ==> Spread(units)
    {
      assert forall n :: n in region ==> (n as object) != this;
      ghost var held := if root == null then 0 else Held(shape.value);
      outstanding := outstanding[target := granted];
      assert root != null ==> Tidy(shape.value) && Held(shape.value) == held;
    }

    lemma UsableNonneg()
      requires Valid()
      ensures 0 <= Usable()
    {
      if root != null {
        HeldNonneg(shape.value);
      }
    }

    method AddToPool(amount: nat)
      requires Valid()
      modifies this`pool
      ensures Valid() && Usable() == old(Usable()) + amount && region == old(region)
    {
      assert forall n :: n in region ==> (n as object) != this;
      ghost var held := if root == null then 0 else Held(shape.value);
      pool := pool + amount;
      assert root != null ==> Tidy(shape.value) && Held(shape.value) == held;
    }

    /** A voucher the warden accepts adds exactly its amount; lost or rejected it adds nothing. */
    method AcceptVoucher(amount: nat, accepted: bool)
      requires Ready()
      modifies this`pool, this`root, this`leaves, this`nextLeaf, this`shape, this`region, region`residual
      ensures Ready() && Usable() == old(Usable()) + if !failed && accepted then amount else 0
      ensures !failed && accepted ==> 0 <= Usable() && Spread(Usable())
    {
      if failed || !accepted {
        return;
      }
      TakeIn(amount);
    }

    method TakeIn(amount: nat)
      requires Ready()
      modifies this`pool, this`root, this`leaves, this`nextLeaf, this`shape, this`region, region`residual
      ensures Ready() && Usable() == old(Usable()) + amount && 0 <= Usable() && Spread(Usable())
    {
      AddToPool(amount);
      var operations := Rebuild();
    }
  }

  /** A new site builds its first tree out of its share at once. */
  method OpenSite(share: nat, depth: nat, fanout: nat, peers: set<string>) returns (site: Site)
    requires depth > 0 ==> fanout > 0
    ensures fresh(site) && fresh(site.region) && site.Ready() && site.Usable() == share && site.Spread(share)
    ensures site.peers == peers && site.outstanding == map[] && !site.failed
  {
    site := new Site(share, depth, fanout, peers);
    var spawns := site.BuildTree();
  }

  /** A request that is looked at afresh: from a known peer, to a working site, with nothing outstanding. */
  predicate Fresh(target: string, peers: set<string>, failed: bool, outstanding: map<string, int>) {
    target in peers && !failed && target !in outstanding
  }

  /** What a request for units is answered; `None` is the error for an unknown peer. */
  function Answer(
    target: string, requested: int, peers: set<string>, failed: bool, outstanding: map<string, int>, usable: int)
    : Option<int>
  {
    if target !in peers then None
    else if failed then Some(0)
    else if target in outstanding then Some(outstanding[target])
    else Some(Grant(requested, usable))
  }

  function Grant(requested: int, available: int): int {
    var half := (available + 1) / 2;
    var grant := if requested < half then requested else half;
    if grant <= 0 then 0 else grant
  }

  /** The grant is the most that is not above what is asked for and takes no more than half, rounded up. */
  lemma GrantIsLargest(requested: int, available: nat, other: int)
    ensures 0 <= Grant(requested, available) <= available && 2 * Grant(requested, available) <= available + 1
    ensures 0 < Grant(requested, available) ==> Grant(requested, available) <= requested
    ensures other <= requested && 2 * other <= available + 1 ==> other <= Grant(requested, available)
  {
  }

  /** The position `k` steps after `start` in a cycle of `count`. */
  function Cyclic(start: nat, k: nat, count: nat): (i: nat)
    requires count > 0
    ensures i < count
  {
    (start + k) % count
  }

  /** Position `k` is met after `step` steps from `start`, has units, and none before it has. */
  predicate FirstAfter(units: seq<int>, start: nat, step: nat, k: nat) {
    && step < |units| && k == Cyclic(start, step, |units|) && units[k] > 0
    && forall j :: 0 <= j < step ==> units[Cyclic(start, j, |units|)] <= 0
  }

  predicate IsFirst(units: seq<int>, start: nat, k: nat) {
    exists step :: 0 <= step < |units| && FirstAfter(units, start, step, k)
  }

  /** Exactly the first position with units has paid one, and the next scan starts after it. */
  ghost predicate PaidFirst(before: seq<int>, start: nat, after: seq<int>, next: nat) {
    exists k: nat :: k < |before| && IsFirst(before, start, k) && after == before[k := before[k] - 1] && next == (k + 1) % |before|
  }

  /** The cycle begins at its start and goes on one by one, from the last position to the first. */
  lemma CycleGoesRound(start: nat, k: nat, count: nat)
    requires start < count
    ensures Cyclic(start, 0, count) == start
    ensures Cyclic(start, k + 1, count) == if Cyclic(start, k, count) + 1 == count then 0 else Cyclic(start, k, count) + 1
  {
    RemainderIs(start, 0, count, start);
    var q, r := (start + k) / count, (start + k) % count;
    assert start + k == q * count + r;
    if r + 1 == count {
      assert start + k + 1 == (q + 1) * count + 0;
      RemainderIs(start + k + 1, q + 1, count, 0);
    } else {
      RemainderIs(start + k + 1, q, count, r + 1);
    }
  }

  /** Every position of the cycle is met within one round. */
  lemma CyclicOffset(start: nat, i: nat, count: nat) returns (k: nat)
    requires i < count
    ensures k < count && Cyclic(start, k, count) == i
  {
    var s, q := start % count, start / count;
    if s <= i {
      k := i - s;
      RemainderIs(start + k, q, count, i);
    } else {
      k := i + count - s;
      assert start + k == q * count + count + i == (q + 1) * count + i;
      RemainderIs(start + k, q + 1, count, i);
    }
  }

  lemma RemainderIs(x: nat, q: nat, count: nat, i: nat)
    requires i < count && x == q * count + i
    ensures x % count == i
  {
    var d := x / count - q;
    assert d * count == i - x % count by {
      assert (x / count) * count == d * count + q * count;
    }
    assert d > 0 ==> d * count >= count;
    assert d < 0 ==> d * count <= -1 * count;
  }

  lemma EmptyTips(s: Shape)
    requires Tidy(s) && forall i :: 0 <= i < |Tips(s)| ==> Tips(s)[i].residual <= 0
    ensures Held(s) == 0
  {
    var nodes := Nodes(s);
    forall i | 0 <= i < |nodes| ensures ResidualsOf(nodes)[i] == 0 {
      var n := nodes[i];
      assert TidyNode(n);
      if n.children == [] {
        ChildlessIsTip(s, n);
      }
    }
    SumZeros(ResidualsOf(nodes));
  }

  lemma TipHeld(s: Shape, leaf: LeaseNode)
    requires Tidy(s) && leaf in NodeSet(s) && leaf.residual > 0
    ensures Held(s) > 0
  {
    var nodes := Nodes(s);
    var k :| 0 <= k < |nodes| && nodes[k] == leaf;
    forall i | 0 <= i < |nodes| ensures 0 <= ResidualsOf(nodes)[i] {
      assert TidyNode(nodes[i]);
    }
    SumNonneg(ResidualsOf(nodes));
    assert ResidualsOf(nodes)[k] == leaf.residual;
  }

  /** Charging one node of a tidy tree lowers what the tree holds by one and leaves it tidy. */
  method ChargeNode(leaf: LeaseNode, ghost s: Shape, ghost nodes: set<LeaseNode>)
    requires Tidy(s) && NodeSet(s) == nodes && leaf in nodes && leaf.residual > 0
    modifies leaf
    ensures Tidy(s) && Held(s) == old(Held(s)) - 1 && leaf.residual == old(leaf.residual) - 1
    ensures leaf.children == old(leaf.children)
  {
    assert TidyNode(leaf);
    ghost var others := nodes - {leaf};
    assert forall n :: n in others ==> TidyNode(n);
    ChargeListed(leaf, Nodes(s));
    assert TidyNode(leaf) && forall n :: n in others ==> TidyNode(n);
    assert nodes == others + {leaf};
  }

  method ChargeListed(leaf: LeaseNode, ghost list: seq<LeaseNode>)
    requires leaf in list && Distinct(list)
    modifies leaf
    ensures Sum(ResidualsOf(list)) == old(Sum(ResidualsOf(list))) - 1
    ensures leaf.residual == old(leaf.residual) - 1 && leaf.children == old(leaf.children)
  {
    ghost var k :| 0 <= k < |list| && list[k] == leaf;
    ghost var was := ResidualsOf(list);
    leaf.Charge();
    assert ResidualsOf(list) == was[k := was[k] - 1];
    SumUpdate(was, k, was[k] - 1);
  }

  /** Closes children first, then the node, emptying each; `returned` is what goes to the pool. */
  method CloseSubtree(n: LeaseNode, ghost s: Shape, ghost nodes: set<LeaseNode>) returns (operations: nat, returned: int)
    requires Matches(s) && s.node == n && Distinct(Nodes(s)) && NodeSet(s) == nodes
    modifies nodes`residual
    ensures returned == old(Held(s)) && operations == |Nodes(s)|
    ensures forall x :: x in nodes ==> x.residual == 0
    decreases |Nodes(s)|, 0
  {
    HeadApart(s);
    HeadHolds(s);
    operations, returned := CloseAll(n.children, s.kids, NodeSetAll(s.kids));
    returned := returned + n.residual;
    n.residual := 0;
    operations := operations + 1;
  }

  method CloseAll(ns: seq<LeaseNode>, ghost kids: seq<Shape>, ghost nodes: set<LeaseNode>)
    returns (operations: nat, returned: int)
    requires MatchesAll(kids) && ns == KidNodes(kids) && Distinct(NodesAll(kids)) && NodeSetAll(kids) == nodes
    modifies nodes`residual
    ensures returned == old(Sum(ResidualsOf(NodesAll(kids)))) && operations == |NodesAll(kids)|
    ensures forall x :: x in nodes ==> x.residual == 0
    decreases |NodesAll(kids)|, 2
  {
    operations, returned := 0, 0;
    if ns != [] {
      ghost var front, last := kids[..|kids| - 1], kids[|kids| - 1];
      LastApart(kids);
      LastHolds(kids);
      operations, returned := CloseBoth(ns[..|ns| - 1], ns[|ns| - 1], front, last, NodeSetAll(front), NodeSet(last));
    }
  }

  method CloseBoth(ns: seq<LeaseNode>, n: LeaseNode, ghost kids: seq<Shape>, ghost s: Shape,
                   ghost before: set<LeaseNode>, ghost after: set<LeaseNode>)
    returns (operations: nat, returned: int)
    requires MatchesAll(kids) && ns == KidNodes(kids) && Distinct(NodesAll(kids)) && NodeSetAll(kids) == before
    requires Matches(s) && s.node == n && Distinct(Nodes(s)) && NodeSet(s) == after && before !! after
    modifies before`residual, after`residual
    ensures returned == old(Sum(ResidualsOf(NodesAll(kids)))) + old(Held(s))
    ensures operations == |NodesAll(kids)| + |Nodes(s)|
    ensures forall x :: x in before + after ==> x.residual == 0
    decreases |NodesAll(kids)| + |Nodes(s)|, 1
  {
    operations, returned := CloseAll(ns, kids, before);
    var more, rest := CloseSubtree(n, s, after);
    operations, returned := operations + more, returned + rest;
  }

  lemma DistinctParts(a: seq<LeaseNode>, b: seq<LeaseNode>)
    requires Distinct(a + b)
    ensures Distinct(a) && Distinct(b) && forall i :: 0 <= i < |b| ==> b[i] !in a
  {
    var all := a + b;
    forall i, j | 0 <= i < j < |a| ensures a[i] != a[j] {
      assert all[i] != all[j];
    }
    forall i, j | 0 <= i < j < |b| ensures b[i] != b[j] {
      assert all[|a| + i] != all[|a| + j];
    }
    forall i, k | 0 <= i < |b| && 0 <= k < |a| ensures a[k] != b[i] {
      assert all[k] != all[|a| + i];
    }
  }

  /** A node is apart from its children's trees. */
  lemma HeadApart(s: Shape)
    requires Distinct(Nodes(s))
    ensures s.node !in NodeSetAll(s.kids) && Distinct(NodesAll(s.kids))
  {
    DistinctParts([s.node], NodesAll(s.kids));
  }

  lemma HeadHolds(s: Shape)
    ensures Held(s) == s.node.residual + Sum(ResidualsOf(NodesAll(s.kids)))
  {
    ResidualsConcat([s.node], NodesAll(s.kids));
    assert ResidualsOf([s.node]) == [] + [s.node.residual];
    SumAppend([], s.node.residual);
  }

  /** The last child's tree is apart from the trees before it. */
  lemma LastApart(kids: seq<Shape>)
    requires Distinct(NodesAll(kids)) && kids != []
    ensures var front, last := kids[..|kids| - 1], kids[|kids| - 1];
      Distinct(NodesAll(front)) && Distinct(Nodes(last)) && NodeSetAll(front) !! NodeSet(last)
  {
    DistinctParts(NodesAll(kids[..|kids| - 1]), Nodes(kids[|kids| - 1]));
  }

  lemma LastHolds(kids: seq<Shape>)
    requires kids != []
    ensures var front, last := kids[..|kids| - 1], kids[|kids| - 1];
      Sum(ResidualsOf(NodesAll(kids))) == Sum(ResidualsOf(NodesAll(front))) + Held(last)
  {
    ResidualsConcat(NodesAll(kids[..|kids| - 1]), Nodes(kids[|kids| - 1]));
  }

  lemma HeldNonneg(s: Shape)
    requires Tidy(s)
    ensures 0 <= Held(s)
  {
    var nodes := Nodes(s);
    forall i | 0 <= i < |nodes| ensures 0 <= ResidualsOf(nodes)[i] {
      assert TidyNode(nodes[i]);
    }
    SumNonneg(ResidualsOf(nodes));
  }

  /** A root with all `units`, delegated down. */
  method GrowRoot(units: int, depth: nat, fanout: nat) returns (top: LeaseNode, spawned: nat, ghost s: Shape)
    requires units > 0 && (depth > 0 ==> fanout > 0)
    ensures Tidy(s) && s.node == top && Held(s) == units && spawned == |Nodes(s)| - 1
    ensures Even(s, units, Power(fanout, depth), depth) && |Tips(s)| == LeafCount(units, Power(fanout, depth))
    ensures forall n :: n in NodeSet(s) ==> fresh(n)
  {
    top := new LeaseNode(0, units);
    assert top.level == 0 && depth - top.level == depth;
    spawned, s := SpawnChildren(top, depth, fanout);
    assert Even(s, units, Power(fanout, depth), depth);
    assert |Tips(s)| == LeafCount(units, Power(fanout, depth));
  }

  /** The tree with its list of leaves, which are the objects at its tips. */
  method GrowTree(units: int, depth: nat, fanout: nat)
    returns (top: LeaseNode, tips: seq<LeaseNode>, operations: nat, ghost s: Shape, ghost nodes: set<LeaseNode>)
    requires units > 0 && (depth > 0 ==> fanout > 0)
    ensures Tidy(s) && s.node == top && Held(s) == units && tips == Tips(s)
    ensures Even(s, units, Power(fanout, depth), depth) && |tips| == LeafCount(units, Power(fanout, depth))
    ensures NodeSet(s) == nodes && fresh(nodes) && operations == |nodes|
  {
    var spawned;
    top, spawned, s := GrowRoot(units, depth, fanout);
    tips := Leaves(top, s);
    nodes := NodeSet(s);
    operations := 1 + spawned;
    NodeCount(s);
  }

  lemma NodeCount(s: Shape)
    requires Distinct(Nodes(s))
    ensures |NodeSet(s)| == |Nodes(s)|
  {
    DistinctCardinality(Nodes(s));
    assert ElementSet(Nodes(s)) == NodeSet(s);
  }
}
