/**
 * Delivery over a network that reorders and duplicates: the outcome depends only on which vouchers
 * arrive and on the order of the leases they create, and it is known exactly when that matters.
 */
module EscrowDelivery {
  import opened Common
  import opened Escrow
  import opened EscrowInvariant

  /** The state after a list of arrivals. */
  function Deliver(s: State, ids: seq<int>): State {
    if ids == [] then s
    else After(Deliver(s, ids[..|ids| - 1]), AcceptAction(ids[|ids| - 1]))
  }

  predicate Known(s: State, id: int) {
    1 <= id <= |s.transfers|
  }

  // ---- the outcome as a function of the arrivals ----

  /** A voucher that arrives is taken in if it is prepared and, for a pool voucher, its target exists. */
  predicate Lands(s: State, arrived: set<int>, k: int)
    requires 0 <= k < |s.transfers|
  {
    var t := s.transfers[k];
    k + 1 in arrived && t.status.Prepared? && (t.kind.LeaseKind? || t.target < |s.pools|)
  }

  function Credits(s: State, arrived: set<int>, warden: nat): seq<int> {
    seq(|s.transfers|, k requires 0 <= k < |s.transfers| =>
      if Lands(s, arrived, k) && s.transfers[k].kind.PoolKind? && s.transfers[k].target == warden
      then s.transfers[k].amount else 0)
  }

  function Landed(s: State, arrived: set<int>): seq<Transfer> {
    seq(|s.transfers|, k requires 0 <= k < |s.transfers| =>
      if Lands(s, arrived, k) then s.transfers[k].(status := Accepted) else s.transfers[k])
  }

  function Credited(s: State, arrived: set<int>): seq<int> {
    seq(|s.pools|, w requires 0 <= w < |s.pools| => s.pools[w] + Sum(Credits(s, arrived, w)))
  }

  /** The lease vouchers among the arrivals, in the order they first arrive. */
  function Born(s: State, ids: seq<int>): (born: seq<int>)
    ensures forall i :: 0 <= i < |born| ==> Known(s, born[i]) && born[i] in ids
  {
    if ids == [] then [] else
      var front, id := ids[..|ids| - 1], ids[|ids| - 1];
      if Known(s, id) && s.transfers[id - 1].kind.LeaseKind? && s.transfers[id - 1].status.Prepared? && id !in front
      then Born(s, front) + [id] else Born(s, front)
  }

  function ChildOf(t: Transfer, id: int): Lease {
    Lease(id, t.target, t.parent, t.amount, true, 0, true)
  }

  /** The leases the vouchers create, numbered as they come. */
  function Children(s: State, born: seq<int>): seq<Lease>
    requires forall i :: 0 <= i < |born| ==> Known(s, born[i])
  {
    seq(|born|, i requires 0 <= i < |born| && Known(s, born[i]) => ChildOf(s.transfers[born[i] - 1], s.nextLease + i))
  }

  function Settled(s: State, ids: seq<int>): State {
    var arrived, born := ElementSet(ids), Born(s, ids);
    s.(pools := Credited(s, arrived), transfers := Landed(s, arrived),
       leases := s.leases + Children(s, born), nextLease := s.nextLease + |born|)
  }

  lemma SettledIdentified(s: State, ids: seq<int>)
    requires Identified(s)
    ensures Identified(Settled(s, ids))
  {
  }

  lemma NothingArrived(s: State)
    ensures Settled(s, []) == s
  {
    assert ElementSet<int>([]) == {};
    assert Landed(s, {}) == s.transfers;
    forall w | 0 <= w < |s.pools| ensures Credited(s, {})[w] == s.pools[w] {
      SumZeros(Credits(s, {}, w));
    }
    assert Credited(s, {}) == s.pools;
  }

  /** An arrival that takes nothing in: unknown, repeated, settled before, or for a pool that is not there. */
  predicate Idle(s: State, front: seq<int>, id: int) {
    !Known(s, id) || id in front || !s.transfers[id - 1].status.Prepared? ||
    (s.transfers[id - 1].kind.PoolKind? && s.transfers[id - 1].target >= |s.pools|)
  }

  lemma IdleArrival(s: State, front: seq<int>, id: int)
    requires Identified(s) && Idle(s, front, id)
    ensures After(Settled(s, front), AcceptAction(id)) == Settled(s, front)
    ensures Credited(s, ElementSet(front) + {id}) == Credited(s, ElementSet(front))
    ensures Landed(s, ElementSet(front) + {id}) == Landed(s, ElementSet(front))
  {
    SettledIdentified(s, front);
    LookupTransfer(Settled(s, front), id);
    forall w | 0 <= w < |s.pools|
      ensures Credits(s, ElementSet(front) + {id}, w) == Credits(s, ElementSet(front), w)
    {
    }
  }

  lemma FirstArrivalCredit(s: State, arrived: set<int>, id: int, w: nat)
    requires Known(s, id) && id !in arrived && Lands(s, {id}, id - 1)
    ensures var t := s.transfers[id - 1];
      Sum(Credits(s, arrived + {id}, w)) ==
      Sum(Credits(s, arrived, w)) + if t.kind.PoolKind? && t.target == w then t.amount else 0
  {
    var k, t := id - 1, s.transfers[id - 1];
    var gain := if t.kind.PoolKind? && t.target == w then t.amount else 0;
    assert Credits(s, arrived + {id}, w) == Credits(s, arrived, w)[k := gain];
    SumUpdate(Credits(s, arrived, w), k, gain);
  }

  lemma FirstLanding(s: State, arrived: set<int>, id: int)
    requires Known(s, id) && id !in arrived && Lands(s, {id}, id - 1)
    ensures Landed(s, arrived + {id}) == Landed(s, arrived)[id - 1 := s.transfers[id - 1].(status := Accepted)]
    ensures Landed(s, arrived)[id - 1] == s.transfers[id - 1]
  {
  }

  lemma FirstPoolArrival(s: State, front: seq<int>, id: int)
    requires Identified(s) && !Idle(s, front, id) && s.transfers[id - 1].kind.PoolKind?
    ensures var here, arrived := Settled(s, front), ElementSet(front) + {id};
      After(here, AcceptAction(id)) == here.(pools := Credited(s, arrived), transfers := Landed(s, arrived))
  {
    var here, arrived, t := Settled(s, front), ElementSet(front), s.transfers[id - 1];
    SettledIdentified(s, front);
    LookupTransfer(here, id);
    FirstLanding(s, arrived, id);
    ReplaceTransferAt(here, id - 1, t.(status := Accepted));
    var after := After(here, AcceptAction(id));
    forall w | 0 <= w < |s.pools| ensures after.pools[w] == Credited(s, arrived + {id})[w] {
      FirstArrivalCredit(s, arrived, id, w);
    }
    assert after.pools == Credited(s, arrived + {id});
  }

  lemma FirstLeaseArrival(s: State, front: seq<int>, id: int)
    requires Identified(s) && !Idle(s, front, id) && s.transfers[id - 1].kind.LeaseKind?
    ensures var here, arrived, t := Settled(s, front), ElementSet(front) + {id}, s.transfers[id - 1];
      After(here, AcceptAction(id)) ==
      here.(pools := Credited(s, arrived), transfers := Landed(s, arrived),
            leases := here.leases + [ChildOf(t, here.nextLease)], nextLease := here.nextLease + 1)
  {
    var here, arrived, t := Settled(s, front), ElementSet(front), s.transfers[id - 1];
    SettledIdentified(s, front);
    LookupTransfer(here, id);
    FirstLanding(s, arrived, id);
    ReplaceTransferAt(here, id - 1, t.(status := Accepted));
    forall w | 0 <= w < |s.pools| ensures Credited(s, arrived)[w] == Credited(s, arrived + {id})[w] {
      FirstArrivalCredit(s, arrived, id, w);
    }
    assert Credited(s, arrived) == Credited(s, arrived + {id});
  }

  lemma ElementsGrow(ids: seq<int>)
    requires ids != []
    ensures ElementSet(ids) == ElementSet(ids[..|ids| - 1]) + {ids[|ids| - 1]}
  {
    var n := |ids| - 1;
    assert ids == ids[..n] + [ids[n]];
    assert forall i :: 0 <= i < n ==> ids[..n][i] == ids[i];
  }

  lemma ArrivalSettles(s: State, ids: seq<int>)
    requires Identified(s) && ids != []
    ensures After(Settled(s, ids[..|ids| - 1]), AcceptAction(ids[|ids| - 1])) == Settled(s, ids)
  {
    var front, id := ids[..|ids| - 1], ids[|ids| - 1];
    ElementsGrow(ids);
    if Idle(s, front, id) {
      IdleArrival(s, front, id);
    } else if s.transfers[id - 1].kind.PoolKind? {
      FirstPoolArrival(s, front, id);
    } else {
      FirstLeaseArrival(s, front, id);
      assert Children(s, Born(s, ids)) ==
        Children(s, Born(s, front)) + [ChildOf(s.transfers[id - 1], Settled(s, front).nextLease)];
    }
  }

  /** What any list of arrivals leaves depends on which arrive, and on the order of the lease vouchers alone. */
  lemma {:induction false} DeliverySettles(s: State, ids: seq<int>)
    requires Identified(s)
    ensures Deliver(s, ids) == Settled(s, ids)
  {
    if ids == [] {
      NothingArrived(s);
    } else {
      DeliverySettles(s, ids[..|ids| - 1]);
      ArrivalSettles(s, ids);
    }
  }

  /** What tells one voucher's child from another's, whatever number it gets. */
  function Kin(s: State, born: seq<int>): seq<(nat, Option<int>, int)>
    requires forall i :: 0 <= i < |born| ==> Known(s, born[i])
  {
    seq(|born|, i requires 0 <= i < |born| && Known(s, born[i]) =>
      var t := s.transfers[born[i] - 1]; (t.target, t.parent, t.amount))
  }

  lemma KinIsChildren(s: State, a: seq<int>, b: seq<int>)
    requires forall i :: 0 <= i < |a| ==> Known(s, a[i])
    requires forall i :: 0 <= i < |b| ==> Known(s, b[i])
    ensures Children(s, a) == Children(s, b) <==> Kin(s, a) == Kin(s, b)
  {
    if Children(s, a) == Children(s, b) {
      assert |a| == |Children(s, a)| == |b|;
      forall i | 0 <= i < |a| ensures Kin(s, a)[i] == Kin(s, b)[i] {
        assert Children(s, a)[i] == Children(s, b)[i];
      }
    }
    if Kin(s, a) == Kin(s, b) {
      assert |a| == |Kin(s, a)| == |b|;
      forall i | 0 <= i < |a| ensures Children(s, a)[i] == Children(s, b)[i] {
        assert Kin(s, a)[i] == Kin(s, b)[i];
      }
    }
  }

  /**
   * Two deliveries of the same vouchers -- in any order, with any repeats, prepared or not, known or
   * not -- end in the same state if and only if the children they create come in the same order, as
   * far as they can be told apart.
   */
  lemma ConfluentExactlyWhen(shares: seq<int>, actions: seq<Action>, xs: seq<int>, ys: seq<int>)
    requires forall w :: 0 <= w < |shares| ==> 0 <= shares[w]
    requires ElementSet(xs) == ElementSet(ys)
    ensures var s := Run(InitialState(shares), actions);
      Deliver(s, xs) == Deliver(s, ys) <==> Kin(s, Born(s, xs)) == Kin(s, Born(s, ys))
  {
    RunInv(shares, actions);
    var s := Run(InitialState(shares), actions);
    DeliverySettles(s, xs);
    DeliverySettles(s, ys);
    KinIsChildren(s, Born(s, xs), Born(s, ys));
    var a, b := Children(s, Born(s, xs)), Children(s, Born(s, ys));
    if Deliver(s, xs) == Deliver(s, ys) {
      assert a == (s.leases + a)[|s.leases|..] && b == (s.leases + b)[|s.leases|..];
    }
    if a == b {
      assert |Born(s, xs)| == |a| == |Born(s, ys)|;
    }
  }

  lemma {:induction false} NothingBorn(s: State, ids: seq<int>)
    requires forall i :: 0 <= i < |ids| && Known(s, ids[i]) ==> s.transfers[ids[i] - 1].kind.PoolKind?
    ensures Born(s, ids) == []
  {
    if ids != [] {
      NothingBorn(s, ids[..|ids| - 1]);
    }
  }

  /** Without lease vouchers the order never matters. */
  lemma DeliveryIsConfluent(shares: seq<int>, actions: seq<Action>, xs: seq<int>, ys: seq<int>)
    requires forall w :: 0 <= w < |shares| ==> 0 <= shares[w]
    requires ElementSet(xs) == ElementSet(ys)
    requires var s := Run(InitialState(shares), actions);
      forall i :: 0 <= i < |xs| && Known(s, xs[i]) ==> s.transfers[xs[i] - 1].kind.PoolKind?
    ensures var s := Run(InitialState(shares), actions); Deliver(s, xs) == Deliver(s, ys)
  {
    var s := Run(InitialState(shares), actions);
    forall i | 0 <= i < |ys| && Known(s, ys[i]) ensures s.transfers[ys[i] - 1].kind.PoolKind? {
      assert ys[i] in ElementSet(xs);
    }
    NothingBorn(s, xs);
    NothingBorn(s, ys);
    ConfluentExactlyWhen(shares, actions, xs, ys);
  }

  // ---- exactly when two arrivals commute ----

  predicate Deliverable(s: State, id: int) {
    && 1 <= id <= |s.transfers| && s.transfers[id - 1].status.Prepared?
    && (s.transfers[id - 1].kind.PoolKind? ==> s.transfers[id - 1].target < |s.pools|)
  }

  function Credit(pools: seq<int>, t: Transfer): seq<int>
    requires t.target < |pools|
  {
    pools[t.target := pools[t.target] + t.amount]
  }

  function Arrived(s: State, id: int): State
    requires Deliverable(s, id)
  {
    var t := s.transfers[id - 1];
    var transfers := s.transfers[id - 1 := t.(status := Accepted)];
    if t.kind.LeaseKind? then
      s.(leases := s.leases + [ChildOf(t, s.nextLease)], transfers := transfers, nextLease := s.nextLease + 1)
    else s.(pools := Credit(s.pools, t), transfers := transfers)
  }

  lemma ArrivalIs(s: State, id: int)
    requires Identified(s) && Deliverable(s, id)
    ensures After(s, AcceptAction(id)) == Arrived(s, id) && Identified(Arrived(s, id))
  {
    LookupTransfer(s, id);
    ReplaceTransferAt(s, id - 1, s.transfers[id - 1].(status := Accepted));
  }

  lemma TwoArrivals(s: State, i: int, j: int)
    requires Identified(s) && Deliverable(s, i) && Deliverable(s, j) && i != j
    ensures Deliverable(Arrived(s, i), j)
    ensures Deliver(s, [i, j]) == Arrived(Arrived(s, i), j)
  {
    ArrivalIs(s, i);
    ArrivalIs(Arrived(s, i), j);
    assert [i, j][..1] == [i] && [i][..0] == [];
    assert Deliver(s, [i]) == After(Deliver(s, []), AcceptAction(i));
  }

  /** Neither order can tell the two vouchers apart, or at most one of them creates a lease. */
  predicate Commuting(t: Transfer, u: Transfer) {
    t.kind.PoolKind? || u.kind.PoolKind?
    || (t.target == u.target && t.parent == u.parent && t.amount == u.amount)
  }

  /**
   * For lease vouchers confluence fails, because a child's identifier is the next free one at its
   * arrival.  Two different vouchers in flight commute if and only if one of them is a pool
   * voucher or they create indistinguishable children.
   */
  lemma ArrivalsCommuteExactlyWhen(s: State, i: int, j: int)
    requires Identified(s) && Deliverable(s, i) && Deliverable(s, j) && i != j
    ensures Deliver(s, [i, j]) == Deliver(s, [j, i]) <==> Commuting(s.transfers[i - 1], s.transfers[j - 1])
  {
    TwoArrivals(s, i, j);
    TwoArrivals(s, j, i);
    if s.transfers[i - 1].kind.LeaseKind? && s.transfers[j - 1].kind.LeaseKind? {
      ChildrenSwap(s, i, j);
    } else {
      PoolsSwap(s, i, j);
    }
  }

  const ROOT := IssueRootAction(0, 3)
  const ONE := SpawnRemoteAction(1, 1, 1)
  const TWO := SpawnRemoteAction(1, 1, 2)

  lemma RunGrows(s: State, actions: seq<Action>, a: Action)
    ensures Run(s, actions + [a]) == After(Run(s, actions), a)
  {
    assert (actions + [a])[..|actions|] == actions;
  }

  lemma RootIssued()
    ensures Run(InitialState([3, 0]), [ROOT]) ==
      InitialState([3, 0]).(pools := [0, 0], leases := [Lease(1, 0, None, 3, true, 0, false)], nextLease := 2)
  {
    RunGrows(InitialState([3, 0]), [], ROOT);
    assert [] + [ROOT] == [ROOT];
  }

  lemma OneSpawned()
    ensures var s := Run(InitialState([3, 0]), [ROOT, ONE]);
      && Identified(s) && |s.pools| == 2 && |s.transfers| == 1
      && s.leases == [Lease(1, 0, None, 2, true, 1, false)]
      && s.transfers[0].kind.LeaseKind? && s.transfers[0].status.Prepared? && s.transfers[0].amount == 1
  {
    RootIssued();
    RunGrows(InitialState([3, 0]), [ROOT], ONE);
    assert [ROOT] + [ONE] == [ROOT, ONE];
    var s := Run(InitialState([3, 0]), [ROOT]);
    LookupLease(s, 1);
    RemoteVoucher(s, 1, 1, 1);
    RunInv([3, 0], [ROOT, ONE]);
  }

  lemma TwoSpawned()
    ensures var s := Run(InitialState([3, 0]), [ROOT, ONE, TWO]);
      && Identified(s) && Deliverable(s, 1) && Deliverable(s, 2)
      && !Commuting(s.transfers[0], s.transfers[1])
  {
    OneSpawned();
    RunGrows(InitialState([3, 0]), [ROOT, ONE], TWO);
    assert [ROOT, ONE] + [TWO] == [ROOT, ONE, TWO];
    var s := Run(InitialState([3, 0]), [ROOT, ONE]);
    LookupLease(s, 1);
    RemoteVoucher(s, 1, 1, 2);
    RunInv([3, 0], [ROOT, ONE, TWO]);
    var after := Run(InitialState([3, 0]), [ROOT, ONE, TWO]);
    assert after.transfers[0] == after.transfers[..1][0];
  }

  /** One right and two, spawned from one root to another warden: which child gets which id depends on the order. */
  lemma LeaseArrivalsNeedNotCommute()
    ensures var s := Run(InitialState([3, 0]), [ROOT, ONE, TWO]); Deliver(s, [1, 2]) != Deliver(s, [2, 1])
  {
    TwoSpawned();
    ArrivalsCommuteExactlyWhen(Run(InitialState([3, 0]), [ROOT, ONE, TWO]), 1, 2);
  }

  lemma RemoteVoucher(s: State, parent: int, target: nat, amount: int)
    requires Identified(s) && SpawnRemote(s, parent, target, amount).Some?
    ensures var after := SpawnRemote(s, parent, target, amount).value;
      && 1 <= parent <= |s.leases|
      && after.leases == s.leases[parent - 1 := Debited(s.leases[parent - 1], amount)]
      && |after.transfers| == |s.transfers| + 1 && after.transfers[..|s.transfers|] == s.transfers
      && var t := after.transfers[|s.transfers|];
         t.kind.LeaseKind? && t.status.Prepared? && t.amount == amount && t.target == target && t.parent == Some(parent)
  {
    LookupLease(s, parent);
    ReplaceLeaseAt(s, parent - 1, Debited(s.leases[parent - 1], amount));
  }

  lemma ChildrenSwap(s: State, i: int, j: int)
    requires Identified(s) && Deliverable(s, i) && Deliverable(s, j) && i != j
    requires s.transfers[i - 1].kind.LeaseKind? && s.transfers[j - 1].kind.LeaseKind?
    requires Deliverable(Arrived(s, i), j) && Deliverable(Arrived(s, j), i)
    ensures Arrived(Arrived(s, i), j) == Arrived(Arrived(s, j), i) <==>
            Commuting(s.transfers[i - 1], s.transfers[j - 1])
  {
    var t, u, n := s.transfers[i - 1], s.transfers[j - 1], |s.leases|;
    var one, other := Arrived(Arrived(s, i), j), Arrived(Arrived(s, j), i);
    assert one.leases == s.leases + [ChildOf(t, n + 1), ChildOf(u, n + 2)];
    assert other.leases == s.leases + [ChildOf(u, n + 1), ChildOf(t, n + 2)];
    assert one.transfers == other.transfers;
    if one == other {
      assert one.leases[n] == ChildOf(t, n + 1) && other.leases[n] == ChildOf(u, n + 1);
    }
  }

  lemma PoolsSwap(s: State, i: int, j: int)
    requires Deliverable(s, i) && Deliverable(s, j) && i != j
    requires s.transfers[i - 1].kind.PoolKind? || s.transfers[j - 1].kind.PoolKind?
    requires Deliverable(Arrived(s, i), j) && Deliverable(Arrived(s, j), i)
    ensures Arrived(Arrived(s, i), j) == Arrived(Arrived(s, j), i)
  {
    var one, other := Arrived(Arrived(s, i), j), Arrived(Arrived(s, j), i);
    assert one.transfers == other.transfers;
    assert one.pools == other.pools;
  }
}
