/**
 * Liveness of lineages: the loop that walks from every active lease towards its root, and the
 * proof that in every run it meets only active ancestors and never its cycle guard.
 */
module EscrowLineage {
  import opened Common
  import opened Escrow
  import opened EscrowInvariant
  import opened EscrowValidate

  /** The identifier met after `n` steps from `start` along parent links, if the walk gets that far. */
  function Climb(known: map<int, Lease>, start: Option<int>, n: nat): Option<int> {
    if n == 0 then start else
      var here := Climb(known, start, n - 1);
      if here.None? || here.value !in known then None else known[here.value].parent
  }

  predicate ActiveAt(known: map<int, Lease>, id: Option<int>) {
    id.Some? ==> id.value in known && known[id.value].active
  }

  /** However far one climbs from `l`, the lease met is known and active. */
  ghost predicate AncestorsActive(known: map<int, Lease>, l: Lease) {
    forall n: nat :: ActiveAt(known, Climb(known, l.parent, n))
  }

  /** Every parent link leads to a smaller identifier. */
  predicate Descending(known: map<int, Lease>) {
    forall id :: id in known && known[id].parent.Some? ==> known[id].parent.value < id
  }

  lemma {:induction false} ClimbEnds(known: map<int, Lease>, start: Option<int>, k: nat, n: nat)
    requires Climb(known, start, k).None? && k <= n
    ensures Climb(known, start, n).None?
  {
    if k < n {
      ClimbEnds(known, start, k, n - 1);
    }
  }

  /** A set of active leases closed under parent links holds the whole walk. */
  lemma {:induction false} ClimbStaysIn(known: map<int, Lease>, start: Option<int>, closed: set<int>, n: nat)
    requires start.Some? && start.value in closed
    requires forall v :: v in closed ==> ClosedAt(known, closed, v)
    ensures Climb(known, start, n).Some? && Climb(known, start, n).value in closed
  {
    if n > 0 {
      ClimbStaysIn(known, start, closed, n - 1);
      assert ClosedAt(known, closed, Climb(known, start, n - 1).value);
    }
  }

  predicate ClosedAt(known: map<int, Lease>, closed: set<int>, v: int) {
    v in known && known[v].active && known[v].parent.Some? && known[v].parent.value in closed
  }

  predicate WalkedAt(known: map<int, Lease>, visited: set<int>, cursor: Option<int>, v: int) {
    && v in known && known[v].active
    && (known[v].parent == cursor || (known[v].parent.Some? && known[v].parent.value in visited))
  }

  predicate BelowAll(cursor: Option<int>, visited: set<int>) {
    cursor.Some? ==> forall v :: v in visited ==> cursor.value < v
  }

  /** The walk from one lease; it terminates on every table, cyclic or not. */
  method WalkAncestors(known: map<int, Lease>, l: Lease) returns (ok: bool, guard: bool)
    ensures ok <==> AncestorsActive(known, l)
    ensures Descending(known) ==> !guard
  {
    var cursor, visited := l.parent, {};
    ghost var k := 0;
    while cursor.Some?
      invariant cursor == Climb(known, l.parent, k)
      invariant k > 0 ==> l.parent.Some? && l.parent.value in visited
      invariant k == 0 ==> visited == {}
      invariant forall v :: v in visited ==> WalkedAt(known, visited, cursor, v)
      invariant forall i :: 0 <= i < k ==> ActiveAt(known, Climb(known, l.parent, i))
      invariant Descending(known) ==> BelowAll(cursor, visited)
      decreases known.Keys - visited
    {
      if cursor.value in visited {
        forall v | v in visited ensures ClosedAt(known, visited, v) {
          assert WalkedAt(known, visited, cursor, v);
        }
        forall n: nat ensures ActiveAt(known, Climb(known, l.parent, n)) {
          ClimbStaysIn(known, l.parent, visited, n);
          assert ClosedAt(known, visited, Climb(known, l.parent, n).value);
        }
        return true, true;
      }
      ghost var before := visited;
      visited := visited + {cursor.value};
      if cursor.value !in known || !known[cursor.value].active {
        assert !ActiveAt(known, Climb(known, l.parent, k));
        return false, false;
      }
      forall v | v in visited ensures WalkedAt(known, visited, known[cursor.value].parent, v) {
        if v in before {
          assert WalkedAt(known, before, cursor, v);
        }
      }
      cursor := known[cursor.value].parent;
      k := k + 1;
    }
    forall n: nat ensures ActiveAt(known, Climb(known, l.parent, n)) {
      if k <= n {
        ClimbEnds(known, l.parent, k, n);
      }
    }
    return true, false;
  }

  /** The source's check over all active leases; `guard` tells whether the cycle guard was ever met. */
  method CheckActiveAncestors(leases: seq<Lease>) returns (ok: bool, guard: bool)
    ensures ok <==> forall i :: 0 <= i < |leases| && leases[i].active ==>
                      AncestorsActive(KnownLeases(leases), leases[i])
    ensures Descending(KnownLeases(leases)) ==> !guard
  {
    var known := KnownLeases(leases);
    guard := false;
    for n := 0 to |leases|
      invariant forall i :: 0 <= i < n && leases[i].active ==> AncestorsActive(known, leases[i])
      invariant Descending(known) ==> !guard
    {
      if leases[n].active {
        var good, met := WalkAncestors(known, leases[n]);
        guard := guard || met;
        if !good {
          return false, guard;
        }
      }
    }
    ok := true;
  }

  // ---- reachable states ----

  lemma {:induction false} NumberedEntry(leases: seq<Lease>, id: int)
    requires forall i :: 0 <= i < |leases| ==> leases[i].id == i + 1
    ensures id in KnownLeases(leases) <==> 1 <= id <= |leases|
    ensures 1 <= id <= |leases| ==> KnownLeases(leases)[id] == leases[id - 1]
  {
    if leases != [] {
      NumberedEntry(leases[..|leases| - 1], id);
    }
  }

  lemma NumberedTable(leases: seq<Lease>)
    requires forall i :: 0 <= i < |leases| ==> leases[i].id == i + 1
    ensures forall id :: id in KnownLeases(leases) <==> 1 <= id <= |leases|
    ensures forall i :: 0 <= i < |leases| ==> KnownLeases(leases)[i + 1] == leases[i]
  {
    forall id ensures id in KnownLeases(leases) <==> 1 <= id <= |leases| {
      NumberedEntry(leases, id);
    }
    forall i | 0 <= i < |leases| ensures KnownLeases(leases)[i + 1] == leases[i] {
      NumberedEntry(leases, i + 1);
    }
  }

  lemma LineageDescends(s: State)
    requires Identified(s) && Lineage(s.leases, |s.pools|)
    ensures Descending(KnownLeases(s.leases))
  {
    NumberedTable(s.leases);
    var known := KnownLeases(s.leases);
    forall id | id in known && known[id].parent.Some? ensures known[id].parent.value < id {
      assert known[id] == s.leases[id - 1] && LineageAt(s.leases, id - 1);
    }
  }

  lemma {:induction false} ClimbIsActive(s: State, i: nat, n: nat)
    requires Identified(s) && Lineage(s.leases, |s.pools|) && i < |s.leases| && s.leases[i].active
    ensures ActiveAt(KnownLeases(s.leases), Climb(KnownLeases(s.leases), s.leases[i].parent, n))
  {
    NumberedTable(s.leases);
    var known := KnownLeases(s.leases);
    if n == 0 {
      assert AliveAt(s.leases, i);
      if s.leases[i].parent.Some? {
        assert known[s.leases[i].parent.value] == s.leases[s.leases[i].parent.value - 1];
      }
    } else {
      ClimbIsActive(s, i, n - 1);
      var here := Climb(known, s.leases[i].parent, n - 1);
      if here.Some? {
        assert known[here.value] == s.leases[here.value - 1] && AliveAt(s.leases, here.value - 1);
        if known[here.value].parent.Some? {
          assert known[known[here.value].parent.value] == s.leases[known[here.value].parent.value - 1];
        }
      }
    }
  }

  lemma {:induction false} ClimbGetsLower(known: map<int, Lease>, l: Lease, n: nat)
    requires Descending(known) && l.id in known && known[l.id] == l
    requires Climb(known, l.parent, n).Some?
    ensures Climb(known, l.parent, n).value < l.id - n
  {
    if n > 0 {
      ClimbGetsLower(known, l, n - 1);
    }
  }

  /**
   * In every run every active lease has only active ancestors, all the way to a root that is
   * reached in fewer steps than its identifier, and the checking loop needs no cycle guard.
   */
  lemma ActiveLeasesHaveActiveAncestors(shares: seq<int>, actions: seq<Action>, i: nat)
    requires forall w :: 0 <= w < |shares| ==> 0 <= shares[w]
    requires i < |Run(InitialState(shares), actions).leases|
    requires Run(InitialState(shares), actions).leases[i].active
    ensures var leases := Run(InitialState(shares), actions).leases;
      && AncestorsActive(KnownLeases(leases), leases[i])
      && Climb(KnownLeases(leases), leases[i].parent, i).None?
      && Descending(KnownLeases(leases))
  {
    RunInv(shares, actions);
    var s := Run(InitialState(shares), actions);
    LineageDescends(s);
    NumberedTable(s.leases);
    var known := KnownLeases(s.leases);
    forall n: nat ensures ActiveAt(known, Climb(known, s.leases[i].parent, n)) {
      ClimbIsActive(s, i, n);
    }
    var top := Climb(known, s.leases[i].parent, i);
    if top.Some? {
      ClimbGetsLower(known, s.leases[i], i);
    }
  }
}
