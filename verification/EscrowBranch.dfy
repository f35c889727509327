/**
 * The branch bound.  A ledger kept beside each run records, lease by lease, what the lease
 * was created with, what was consumed on it and what it returned to a pool.  For every lease,
 * the whole branch below it -- spread over any number of wardens, with children still in
 * flight -- accounts for exactly the amount that lease was created with.
 */
module EscrowBranch {
  import opened Common
  import opened Escrow
  import opened EscrowInvariant

  datatype Books = Books(core: State, granted: seq<int>, spent: seq<int>, returned: seq<int>)

  function InitialBooks(shares: seq<int>): Books {
    Books(InitialState(shares), [], [], [])
  }

  predicate SameSize(b: Books) {
    |b.granted| == |b.spent| == |b.returned| == |b.core.leases|
  }

  /** New leases are entered with the residual they appear with; consumption and refunds are posted. */
  function Post(b: Books, a: Action): Books {
    var after := After(b.core, a);
    var created := if |b.core.leases| <= |after.leases| then after.leases[|b.core.leases|..] else [];
    var entered := Books(after, b.granted + Residuals(created),
                        b.spent + Zeros(|created|), b.returned + Zeros(|created|));
    match a
    case AuthorizeAction(lease, cost) =>
      var index := LeaseIndex(b.core.leases, lease);
      if Step(b.core, a).Some? && index.value < |entered.spent| then
        entered.(spent := entered.spent[index.value := entered.spent[index.value] + cost])
      else entered
    case CloseAction(lease) =>
      var index := LeaseIndex(b.core.leases, lease);
      if Step(b.core, a).Some? && index.value < |entered.returned| then
        var refund := b.core.leases[index.value].residual;
        entered.(returned := entered.returned[index.value := entered.returned[index.value] + refund])
      else entered
    case _ => entered
  }

  function KeepBooks(shares: seq<int>, actions: seq<Action>): Books
    decreases |actions|
  {
    if actions == [] then InitialBooks(shares)
    else Post(KeepBooks(shares, actions[..|actions| - 1]), actions[|actions| - 1])
  }

  // ---- branches ----

  /** Lease `x` is lease `b` or is reached from it through parent links. */
  predicate InBranch(leases: seq<Lease>, x: int, b: int)
    decreases x
  {
    x == b ||
    (1 <= x <= |leases| && leases[x - 1].parent.Some? && 1 <= leases[x - 1].parent.value < x
     && InBranch(leases, leases[x - 1].parent.value, b))
  }

  function Worth(b: Books, i: nat): int
    requires SameSize(b) && i < |b.granted|
  {
    b.core.leases[i].residual + b.spent[i] + b.returned[i]
  }

  function HeldIn(b: Books, branch: int): seq<int>
    requires SameSize(b)
  {
    seq(|b.granted|, i requires 0 <= i < |b.granted| =>
      if InBranch(b.core.leases, i + 1, branch) then Worth(b, i) else 0)
  }

  predicate InFlightUnder(leases: seq<Lease>, t: Transfer, branch: int) {
    t.kind.LeaseKind? && t.status.Prepared? && t.parent.Some? && InBranch(leases, t.parent.value, branch)
  }

  function FlyingIn(s: State, branch: int): seq<int> {
    seq(|s.transfers|, k requires 0 <= k < |s.transfers| =>
      if InFlightUnder(s.leases, s.transfers[k], branch) then s.transfers[k].amount else 0)
  }

  function SpentIn(b: Books, branch: int): seq<int>
    requires SameSize(b)
  {
    seq(|b.granted|, i requires 0 <= i < |b.granted| =>
      if InBranch(b.core.leases, i + 1, branch) then b.spent[i] else 0)
  }

  predicate BalancedAt(b: Books, branch: int)
    requires SameSize(b) && 1 <= branch <= |b.granted|
  {
    Sum(HeldIn(b, branch)) + Sum(FlyingIn(b.core, branch)) == b.granted[branch - 1]
  }

  ghost predicate Balanced(b: Books) {
    && SameSize(b)
    && (forall i :: 0 <= i < |b.spent| ==> 0 <= b.spent[i] && 0 <= b.returned[i])
    && Sum(b.spent) == b.core.consumed
    && (forall branch :: 1 <= branch <= |b.granted| ==> BalancedAt(b, branch))
  }

  // ---- branches do not move ----

  predicate SameParents(before: seq<Lease>, after: seq<Lease>) {
    |before| <= |after| && forall i :: 0 <= i < |before| ==> after[i].parent == before[i].parent
  }

  lemma {:induction false} BranchStable(before: seq<Lease>, after: seq<Lease>, x: int, b: int)
    requires SameParents(before, after) && x <= |before|
    ensures InBranch(after, x, b) == InBranch(before, x, b)
    decreases x
  {
    if x != b && 1 <= x && before[x - 1].parent.Some? && 1 <= before[x - 1].parent.value < x {
      BranchStable(before, after, before[x - 1].parent.value, b);
    }
  }

  lemma {:induction false} BranchOlder(leases: seq<Lease>, x: int, b: int)
    requires InBranch(leases, x, b)
    ensures b <= x
    decreases x
  {
    if x != b {
      BranchOlder(leases, leases[x - 1].parent.value, b);
    }
  }

  lemma {:induction false} BranchTransitive(leases: seq<Lease>, x: int, c: int, b: int)
    requires InBranch(leases, x, c) && InBranch(leases, c, b)
    ensures InBranch(leases, x, b)
    decreases x
  {
    if x != c {
      BranchTransitive(leases, leases[x - 1].parent.value, c, b);
    }
  }

  lemma HeldStable(b: Books, after: Books, branch: int)
    requires SameSize(b) && SameSize(after) && SameParents(b.core.leases, after.core.leases)
    requires forall i :: 0 <= i < |b.granted| ==> Worth(after, i) == Worth(b, i)
    ensures HeldIn(after, branch)[..|b.granted|] == HeldIn(b, branch)
  {
    var was, now := HeldIn(b, branch), HeldIn(after, branch);
    forall i | 0 <= i < |b.granted| ensures now[i] == was[i] {
      BranchStable(b.core.leases, after.core.leases, i + 1, branch);
    }
  }

  /** The same vouchers, over a lease table with the same parents, fly in the same branches. */
  lemma FlyingStable(s: State, after: State, branch: int)
    requires Vouchers(s) && SameParents(s.leases, after.leases) && after.transfers == s.transfers
    ensures FlyingIn(after, branch) == FlyingIn(s, branch)
  {
    var was, now := FlyingIn(s, branch), FlyingIn(after, branch);
    forall k | 0 <= k < |was| ensures now[k] == was[k] {
      FlightStable(s, after, branch, k);
    }
  }

  lemma FlightStable(s: State, after: State, branch: int, k: nat)
    requires Vouchers(s) && SameParents(s.leases, after.leases) && k < |s.transfers|
    ensures InFlightUnder(after.leases, s.transfers[k], branch) == InFlightUnder(s.leases, s.transfers[k], branch)
  {
    assert VoucherAt(s.leases, s.transfers, |s.pools|, k);
    if s.transfers[k].parent.Some? {
      BranchStable(s.leases, after.leases, s.transfers[k].parent.value, branch);
    }
  }

  lemma HeldUnchanged(b: Books, after: Books, branch: int)
    requires SameSize(b) && SameSize(after) && |after.granted| == |b.granted|
    requires SameParents(b.core.leases, after.core.leases)
    requires forall i :: 0 <= i < |b.granted| ==> Worth(after, i) == Worth(b, i)
    ensures HeldIn(after, branch) == HeldIn(b, branch)
  {
    HeldStable(b, after, branch);
    assert HeldIn(after, branch)[..|b.granted|] == HeldIn(after, branch);
  }

  /** Debiting `amount` from lease `p` lowers exactly the branches that contain `p`. */
  lemma HeldDebited(b: Books, after: Books, branch: int, p: nat, amount: int)
    requires SameSize(b) && SameSize(after) && |after.granted| == |b.granted| && p < |b.granted|
    requires SameParents(b.core.leases, after.core.leases)
    requires forall i :: 0 <= i < |b.granted| ==>
      Worth(after, i) == Worth(b, i) - if i == p then amount else 0
    ensures Sum(HeldIn(after, branch)) ==
            Sum(HeldIn(b, branch)) - if InBranch(b.core.leases, p + 1, branch) then amount else 0
  {
    var was, now := HeldIn(b, branch), HeldIn(after, branch);
    forall i | 0 <= i < |b.granted| ensures i != p ==> now[i] == was[i] {
      BranchStable(b.core.leases, after.core.leases, i + 1, branch);
    }
    BranchStable(b.core.leases, after.core.leases, p + 1, branch);
    assert now == was[p := now[p]];
    SumUpdate(was, p, now[p]);
  }

  /** A new lease is worth its grant to itself and to every branch its parent lies in. */
  lemma HeldCreated(b: Books, after: Books, branch: int)
    requires SameSize(b) && SameSize(after) && |after.granted| == |b.granted| + 1
    requires SameParents(b.core.leases, after.core.leases)
    requires forall i :: 0 <= i < |b.granted| ==> Worth(after, i) == Worth(b, i)
    requires 1 <= branch <= |after.granted|
    requires after.core.leases[|b.granted|].parent.Some? ==>
      1 <= after.core.leases[|b.granted|].parent.value <= |b.granted|
    ensures branch <= |b.granted| ==>
      var parent := after.core.leases[|b.granted|].parent;
      Sum(HeldIn(after, branch)) == Sum(HeldIn(b, branch)) +
        if parent.Some? && InBranch(b.core.leases, parent.value, branch) then Worth(after, |b.granted|) else 0
    ensures branch == |after.granted| ==> Sum(HeldIn(after, branch)) == Worth(after, |b.granted|)
  {
    var n := |b.granted|;
    HeldStable(b, after, branch);
    var last := HeldIn(after, branch)[n];
    assert HeldIn(after, branch) == HeldIn(b, branch) + [last];
    SumAppend(HeldIn(b, branch), last);
    if branch <= n {
      var parent := after.core.leases[n].parent;
      if parent.Some? {
        BranchStable(b.core.leases, after.core.leases, parent.value, branch);
      }
    } else {
      forall i | 0 <= i < n ensures HeldIn(b, branch)[i] == 0 {
        if InBranch(b.core.leases, i + 1, branch) {
          BranchOlder(b.core.leases, i + 1, branch);
        }
      }
      SumZeros(HeldIn(b, branch));
    }
  }

  lemma NothingFlyingYet(s: State, branch: int)
    requires Vouchers(s) && |s.leases| < branch
    ensures Sum(FlyingIn(s, branch)) == 0
  {
    forall k | 0 <= k < |s.transfers| ensures FlyingIn(s, branch)[k] == 0 {
      assert VoucherAt(s.leases, s.transfers, |s.pools|, k);
      if InFlightUnder(s.leases, s.transfers[k], branch) {
        BranchOlder(s.leases, s.transfers[k].parent.value, branch);
      }
    }
    SumZeros(FlyingIn(s, branch));
  }

  // ---- each action keeps the ledger balanced ----

  lemma BalancedFrame(b: Books, after: Books)
    requires Balanced(b)
    requires SameSize(after) && after.granted == b.granted
    requires SameParents(b.core.leases, after.core.leases)
    requires forall i :: 0 <= i < |b.granted| ==> Worth(after, i) == Worth(b, i)
    requires forall branch :: Sum(FlyingIn(after.core, branch)) == Sum(FlyingIn(b.core, branch))
    ensures forall branch :: 1 <= branch <= |after.granted| ==> BalancedAt(after, branch)
  {
    forall branch | 1 <= branch <= |after.granted| ensures BalancedAt(after, branch) {
      assert BalancedAt(b, branch);
      HeldUnchanged(b, after, branch);
    }
  }

  lemma IssueRootBalances(b: Books, budget: int, warden: nat, amount: int)
    requires Balanced(b) && Inv(b.core, budget) && IssueRoot(b.core, warden, amount).Some?
    ensures Balanced(Post(b, IssueRootAction(warden, amount)))
  {
    var after := Post(b, IssueRootAction(warden, amount));
    var n := |b.granted|;
    CreatedEntry(b, IssueRootAction(warden, amount));
    forall branch | 1 <= branch <= |after.granted| ensures BalancedAt(after, branch) {
      HeldCreated(b, after, branch);
      FlyingStable(b.core, after.core, branch);
      if branch <= n {
        assert BalancedAt(b, branch);
      } else {
        NothingFlyingYet(b.core, branch);
      }
    }
  }

  /** What `Post` enters when an action creates one lease and posts nothing else. */
  lemma CreatedEntry(b: Books, a: Action)
    requires SameSize(b) && !a.AuthorizeAction? && !a.CloseAction?
    requires |After(b.core, a).leases| == |b.core.leases| + 1
    ensures var after := Post(b, a); var n := |b.granted|;
      && SameSize(after)
      && after.granted == b.granted + [after.core.leases[n].residual]
      && after.spent == b.spent + [0] && after.returned == b.returned + [0]
      && Sum(after.spent) == Sum(b.spent)
  {
    var created := After(b.core, a).leases[|b.core.leases|..];
    assert Residuals(created) == [created[0].residual];
    assert Zeros(1) == [0];
    SumAppend(b.spent, 0);
  }

  lemma NoEntry(b: Books, a: Action)
    requires SameSize(b) && !a.AuthorizeAction? && !a.CloseAction?
    requires |After(b.core, a).leases| == |b.core.leases|
    ensures Post(b, a) == b.(core := After(b.core, a))
  {
    assert After(b.core, a).leases[|b.core.leases|..] == [];
    assert Residuals([]) == [] && Zeros(0) == [];
  }

  lemma SpawnBalances(b: Books, budget: int, parentId: int, amount: int)
    requires Balanced(b) && Inv(b.core, budget) && Spawn(b.core, parentId, amount).Some?
    ensures Balanced(Post(b, SpawnAction(parentId, amount)))
  {
    var after := Post(b, SpawnAction(parentId, amount));
    LookupLease(b.core, parentId);
    var p, n := parentId - 1, |b.granted|;
    DebitKeeps(b.core, budget, p, amount);
    CreatedEntry(b, SpawnAction(parentId, amount));
    var mid := b.(core := b.core.(leases := b.core.leases[p := Debited(b.core.leases[p], amount)]));
    assert after.core.leases == mid.core.leases + [after.core.leases[n]];
    forall branch | 1 <= branch <= |after.granted| ensures BalancedAt(after, branch) {
      ChildBalances(b, mid, after, p, amount, branch);
    }
  }

  /** Moving `amount` from lease `p` to a new child of it leaves every branch in balance. */
  lemma ChildBalances(b: Books, mid: Books, after: Books, p: nat, amount: int, branch: int)
    requires Balanced(b) && Vouchers(b.core) && SameSize(after) && p < |b.granted| == |after.granted| - 1
    requires mid == b.(core := b.core.(leases := b.core.leases[p := Debited(b.core.leases[p], amount)]))
    requires after.core.leases[..|b.granted|] == mid.core.leases && after.core.transfers == b.core.transfers
    requires after.core.leases[|b.granted|].parent == Some(p + 1) && after.core.leases[|b.granted|].residual == amount
    requires after.granted == b.granted + [amount]
    requires after.spent == b.spent + [0] && after.returned == b.returned + [0]
    requires 1 <= branch <= |after.granted|
    ensures BalancedAt(after, branch)
  {
    assert forall i :: 0 <= i < |b.granted| ==> after.core.leases[i] == mid.core.leases[i];
    HeldCreated(mid, after, branch);
    FlyingStable(b.core, after.core, branch);
    if branch <= |b.granted| {
      HeldDebited(b, mid, branch, p, amount);
      BranchStable(b.core.leases, mid.core.leases, p + 1, branch);
      assert BalancedAt(b, branch);
    } else {
      NothingFlyingYet(b.core, branch);
    }
  }

  lemma SpawnRemoteBalances(b: Books, budget: int, parentId: int, target: nat, amount: int)
    requires Balanced(b) && Inv(b.core, budget) && SpawnRemote(b.core, parentId, target, amount).Some?
    ensures Balanced(Post(b, SpawnRemoteAction(parentId, target, amount)))
  {
    var after := Post(b, SpawnRemoteAction(parentId, target, amount));
    LookupLease(b.core, parentId);
    var p := parentId - 1;
    DebitKeeps(b.core, budget, p, amount);
    NoEntry(b, SpawnRemoteAction(parentId, target, amount));
    var t := after.core.transfers[|b.core.transfers|];
    forall branch | 1 <= branch <= |after.granted| ensures BalancedAt(after, branch) {
      assert BalancedAt(b, branch);
      HeldDebited(b, after, branch, p, amount);
      var flying := if InBranch(b.core.leases, p + 1, branch) then amount else 0;
      FlyingAdded(b.core, after.core, t, branch, flying);
    }
  }

  lemma FlyingAdded(s: State, after: State, t: Transfer, branch: int, flying: int)
    requires Vouchers(s) && SameParents(s.leases, after.leases) && after.transfers == s.transfers + [t]
    requires t.kind.LeaseKind? && t.status.Prepared? && t.parent.Some? && t.parent.value <= |s.leases|
    requires flying == if InBranch(s.leases, t.parent.value, branch) then t.amount else 0
    ensures Sum(FlyingIn(after, branch)) == Sum(FlyingIn(s, branch)) + flying
  {
    var was, now := FlyingIn(s, branch), FlyingIn(after, branch);
    forall k | 0 <= k < |was| ensures now[k] == was[k] {
      FlightStable(s, after, branch, k);
    }
    BranchStable(s.leases, after.leases, t.parent.value, branch);
    assert now == was + [flying];
    SumAppend(was, flying);
  }

  lemma AuthorizeEntry(b: Books, leaseId: int, cost: int)
    requires SameSize(b) && Identified(b.core) && Authorize(b.core, leaseId, cost).Some?
    ensures 1 <= leaseId <= |b.spent|
    ensures Post(b, AuthorizeAction(leaseId, cost)) ==
      b.(core := Authorize(b.core, leaseId, cost).value,
         spent := b.spent[leaseId - 1 := b.spent[leaseId - 1] + cost])
    ensures var after := Authorize(b.core, leaseId, cost).value;
      && after.leases == b.core.leases[leaseId - 1 := Debited(b.core.leases[leaseId - 1], cost)]
      && after.transfers == b.core.transfers && after.consumed == b.core.consumed + cost && 0 <= cost
  {
    var a := AuthorizeAction(leaseId, cost);
    LookupLease(b.core, leaseId);
    var l := b.core.leases[leaseId - 1];
    ReplaceLeaseAt(b.core, leaseId - 1, Debited(l, cost));
    assert After(b.core, a).leases[|b.core.leases|..] == [];
    assert Residuals([]) == [] && Zeros(0) == [];
  }

  lemma AuthorizeBalances(b: Books, budget: int, leaseId: int, cost: int)
    requires Balanced(b) && Inv(b.core, budget) && Authorize(b.core, leaseId, cost).Some?
    ensures Balanced(Post(b, AuthorizeAction(leaseId, cost)))
  {
    var after := Post(b, AuthorizeAction(leaseId, cost));
    var p := leaseId - 1;
    AuthorizeEntry(b, leaseId, cost);
    SumUpdate(b.spent, p, b.spent[p] + cost);
    FlyingAlike(b.core, after.core);
    BalancedFrame(b, after);
  }

  lemma FlyingAlike(s: State, after: State)
    requires Vouchers(s) && SameParents(s.leases, after.leases) && after.transfers == s.transfers
    ensures forall branch :: Sum(FlyingIn(after, branch)) == Sum(FlyingIn(s, branch))
  {
    forall branch ensures Sum(FlyingIn(after, branch)) == Sum(FlyingIn(s, branch)) {
      FlyingStable(s, after, branch);
    }
  }

  lemma CloseBalances(b: Books, budget: int, leaseId: int)
    requires Balanced(b) && Inv(b.core, budget) && CloseLease(b.core, leaseId).Some?
    ensures Balanced(Post(b, CloseAction(leaseId)))
  {
    var a := CloseAction(leaseId);
    var after := Post(b, a);
    LookupLease(b.core, leaseId);
    var p := leaseId - 1;
    var l := b.core.leases[p];
    ReplaceLeaseAt(b.core, p, l.(residual := 0, active := false, sequence := l.sequence + 1));
    assert After(b.core, a).leases[|b.core.leases|..] == [];
    assert Residuals([]) == [] && Zeros(0) == [];
    assert after.returned == b.returned[p := b.returned[p] + l.residual];
    assert after.granted == b.granted && after.spent == b.spent;
    FlyingAlike(b.core, after.core);
    BalancedFrame(b, after);
  }

  /** Vouchers that are not lease vouchers in flight weigh nothing in any branch. */
  lemma FlyingIgnores(s: State, after: State, k: nat, t: Transfer)
    requires after.leases == s.leases && k < |s.transfers| && after.transfers == s.transfers[k := t]
    requires !(t.kind.LeaseKind? && t.status.Prepared?)
    requires !(s.transfers[k].kind.LeaseKind? && s.transfers[k].status.Prepared?)
    ensures forall branch :: Sum(FlyingIn(after, branch)) == Sum(FlyingIn(s, branch))
  {
    forall branch ensures Sum(FlyingIn(after, branch)) == Sum(FlyingIn(s, branch)) {
      assert FlyingIn(after, branch) == FlyingIn(s, branch);
    }
  }

  lemma PrepareBalances(b: Books, budget: int, source: nat, target: nat, amount: int)
    requires Balanced(b) && Inv(b.core, budget) && PrepareTransfer(b.core, source, target, amount).Some?
    ensures Balanced(Post(b, PrepareAction(source, target, amount)))
  {
    var after := Post(b, PrepareAction(source, target, amount));
    NoEntry(b, PrepareAction(source, target, amount));
    forall branch ensures Sum(FlyingIn(after.core, branch)) == Sum(FlyingIn(b.core, branch)) {
      assert FlyingIn(after.core, branch) == FlyingIn(b.core, branch) + [0];
      SumAppend(FlyingIn(b.core, branch), 0);
    }
    BalancedFrame(b, after);
  }

  lemma AcceptPoolBalances(b: Books, budget: int, transferId: int)
    requires Balanced(b) && Inv(b.core, budget) && AcceptTransfer(b.core, transferId).Some?
    requires 1 <= transferId <= |b.core.transfers|
    requires b.core.transfers[transferId - 1].kind.PoolKind? || !b.core.transfers[transferId - 1].status.Prepared?
    ensures Balanced(Post(b, AcceptAction(transferId)))
  {
    var after := Post(b, AcceptAction(transferId));
    LookupTransfer(b.core, transferId);
    var k := transferId - 1;
    var t := b.core.transfers[k];
    NoEntry(b, AcceptAction(transferId));
    if t.status.Prepared? {
      ReplaceTransferAt(b.core, k, t.(status := Accepted));
      FlyingIgnores(b.core, after.core, k, t.(status := Accepted));
    }
    BalancedFrame(b, after);
  }

  lemma AcceptLeaseBalances(b: Books, budget: int, transferId: int)
    requires Balanced(b) && Inv(b.core, budget) && AcceptTransfer(b.core, transferId).Some?
    requires 1 <= transferId <= |b.core.transfers|
    requires b.core.transfers[transferId - 1].kind.LeaseKind? && b.core.transfers[transferId - 1].status.Prepared?
    ensures Balanced(Post(b, AcceptAction(transferId)))
  {
    var a := AcceptAction(transferId);
    var after := Post(b, a);
    LookupTransfer(b.core, transferId);
    var k, n := transferId - 1, |b.granted|;
    var t := b.core.transfers[k];
    assert VoucherAt(b.core.leases, b.core.transfers, |b.core.pools|, k);
    ReplaceTransferAt(b.core, k, t.(status := Accepted));
    CreatedEntry(b, a);
    forall branch | 1 <= branch <= |after.granted| ensures BalancedAt(after, branch) {
      HeldCreated(b, after, branch);
      FlyingRedeemed(b.core, after.core, k, branch);
      if branch <= n {
        assert BalancedAt(b, branch);
      } else {
        if InBranch(b.core.leases, t.parent.value, branch) {
          BranchOlder(b.core.leases, t.parent.value, branch);
        }
        NothingFlyingYet(b.core, branch);
      }
    }
  }

  lemma FlyingRedeemed(s: State, after: State, k: nat, branch: int)
    requires Vouchers(s) && SameParents(s.leases, after.leases) && k < |s.transfers|
    requires s.transfers[k].kind.LeaseKind? && s.transfers[k].status.Prepared?
    requires after.transfers == s.transfers[k := s.transfers[k].(status := Accepted)]
    ensures s.transfers[k].parent.Some?
    ensures Sum(FlyingIn(after, branch)) == Sum(FlyingIn(s, branch))
      - if InBranch(s.leases, s.transfers[k].parent.value, branch) then s.transfers[k].amount else 0
  {
    assert VoucherAt(s.leases, s.transfers, |s.pools|, k);
    var was, now := FlyingIn(s, branch), FlyingIn(after, branch);
    forall j | 0 <= j < |was| && j != k ensures now[j] == was[j] {
      FlightStable(s, after, branch, j);
    }
    assert now == was[k := 0];
    SumUpdate(was, k, 0);
  }

  lemma FinalizeBalances(b: Books, budget: int, transferId: int)
    requires Balanced(b) && Inv(b.core, budget) && FinalizeTransfer(b.core, transferId).Some?
    ensures Balanced(Post(b, FinalizeAction(transferId)))
  {
    var after := Post(b, FinalizeAction(transferId));
    LookupTransfer(b.core, transferId);
    var k := transferId - 1;
    var t := b.core.transfers[k];
    NoEntry(b, FinalizeAction(transferId));
    if t.status.Accepted? {
      ReplaceTransferAt(b.core, k, t.(status := Finalized));
      FlyingIgnores(b.core, after.core, k, t.(status := Finalized));
    }
    BalancedFrame(b, after);
  }

  lemma ClaimBalances(b: Books, budget: int, receiptId: int)
    requires Balanced(b) && Inv(b.core, budget) && ClaimReceipt(b.core, receiptId).Some?
    ensures Balanced(Post(b, ClaimAction(receiptId)))
  {
    var after := Post(b, ClaimAction(receiptId));
    NoEntry(b, ClaimAction(receiptId));
    FlyingAlike(b.core, after.core);
    BalancedFrame(b, after);
  }

  lemma AcceptBalances(b: Books, budget: int, transferId: int)
    requires Balanced(b) && Inv(b.core, budget) && AcceptTransfer(b.core, transferId).Some?
    ensures Balanced(Post(b, AcceptAction(transferId)))
  {
    LookupTransfer(b.core, transferId);
    var t := b.core.transfers[transferId - 1];
    if t.kind.LeaseKind? && t.status.Prepared? {
      AcceptLeaseBalances(b, budget, transferId);
    } else {
      AcceptPoolBalances(b, budget, transferId);
    }
  }

  lemma RefusedBalances(b: Books, a: Action)
    requires SameSize(b) && Step(b.core, a).None?
    ensures Post(b, a) == b
  {
    assert b.core.leases[|b.core.leases|..] == [];
    assert Residuals([]) == [] && Zeros(0) == [];
  }

  lemma PostBalances(b: Books, budget: int, a: Action)
    requires Balanced(b) && Inv(b.core, budget)
    ensures Balanced(Post(b, a))
  {
    if Step(b.core, a).None? {
      RefusedBalances(b, a);
    } else {
      match a
      case IssueRootAction(warden, amount) => IssueRootBalances(b, budget, warden, amount);
      case SpawnAction(parent, amount) => SpawnBalances(b, budget, parent, amount);
      case SpawnRemoteAction(parent, target, amount) => SpawnRemoteBalances(b, budget, parent, target, amount);
      case AuthorizeAction(lease, cost) => AuthorizeBalances(b, budget, lease, cost);
      case CloseAction(lease) => CloseBalances(b, budget, lease);
      case PrepareAction(source, target, amount) => PrepareBalances(b, budget, source, target, amount);
      case AcceptAction(transfer) => AcceptBalances(b, budget, transfer);
      case FinalizeAction(transfer) => FinalizeBalances(b, budget, transfer);
      case ClaimAction(receipt) => ClaimBalances(b, budget, receipt);
    }
  }

  /** Keeping the books does not disturb the run they are kept for. */
  lemma {:induction false} BooksFollowRun(shares: seq<int>, actions: seq<Action>)
    ensures KeepBooks(shares, actions).core == Run(InitialState(shares), actions)
  {
    if actions != [] {
      BooksFollowRun(shares, actions[..|actions| - 1]);
    }
  }

  lemma {:induction false} RunBalances(shares: seq<int>, actions: seq<Action>)
    requires forall w :: 0 <= w < |shares| ==> 0 <= shares[w]
    ensures Balanced(KeepBooks(shares, actions))
  {
    if actions != [] {
      var n := |actions| - 1;
      RunBalances(shares, actions[..n]);
      BooksFollowRun(shares, actions[..n]);
      RunInv(shares, actions[..n]);
      PostBalances(KeepBooks(shares, actions[..n]), Sum(shares), actions[n]);
    }
  }

  /**
   * In every run, for every lease: residuals, consumption and refunds of its branch, plus the
   * lease vouchers in flight out of the branch, add up to what the lease was created with.
   */
  lemma BranchAccountsForGrant(shares: seq<int>, actions: seq<Action>, branch: int)
    requires forall w :: 0 <= w < |shares| ==> 0 <= shares[w]
    requires 1 <= branch <= |Run(InitialState(shares), actions).leases|
    ensures var b := KeepBooks(shares, actions);
      && b.core == Run(InitialState(shares), actions) && SameSize(b)
      && Sum(b.spent) == b.core.consumed
      && Sum(HeldIn(b, branch)) + Sum(FlyingIn(b.core, branch)) == b.granted[branch - 1]
  {
    BooksFollowRun(shares, actions);
    RunBalances(shares, actions);
    assert BalancedAt(KeepBooks(shares, actions), branch);
  }

  lemma HeldNonneg(b: Books, budget: int, branch: int)
    requires Balanced(b) && Inv(b.core, budget)
    ensures forall i :: 0 <= i < |b.granted| ==> 0 <= SpentIn(b, branch)[i] <= HeldIn(b, branch)[i]
    ensures forall k :: 0 <= k < |b.core.transfers| ==> 0 <= FlyingIn(b.core, branch)[k]
  {
    forall k | 0 <= k < |b.core.transfers| ensures 0 <= FlyingIn(b.core, branch)[k] {
      assert VoucherAt(b.core.leases, b.core.transfers, |b.core.pools|, k);
    }
  }

  /** No lineage, however it is spread over wardens, consumes more than its first lease was given. */
  lemma BranchNeverOverspends(shares: seq<int>, actions: seq<Action>, branch: int)
    requires forall w :: 0 <= w < |shares| ==> 0 <= shares[w]
    requires 1 <= branch <= |Run(InitialState(shares), actions).leases|
    ensures var b := KeepBooks(shares, actions);
      SameSize(b) && |b.granted| == |Run(InitialState(shares), actions).leases| &&
      Sum(SpentIn(b, branch)) <= b.granted[branch - 1]
  {
    BranchAccountsForGrant(shares, actions, branch);
    RunBalances(shares, actions);
    RunInv(shares, actions);
    var b := KeepBooks(shares, actions);
    HeldNonneg(b, Sum(shares), branch);
    SumMonotone(SpentIn(b, branch), HeldIn(b, branch));
    SumNonneg(FlyingIn(b.core, branch));
  }

  /** Attenuation: a lease anywhere below `branch` was created with no more than `branch` was. */
  lemma GrantsAttenuate(shares: seq<int>, actions: seq<Action>, branch: int, child: int)
    requires forall w :: 0 <= w < |shares| ==> 0 <= shares[w]
    requires 1 <= branch <= |Run(InitialState(shares), actions).leases|
    requires 1 <= child <= |Run(InitialState(shares), actions).leases|
    requires InBranch(Run(InitialState(shares), actions).leases, child, branch)
    ensures var b := KeepBooks(shares, actions);
      |b.granted| == |Run(InitialState(shares), actions).leases| && b.granted[child - 1] <= b.granted[branch - 1]
  {
    BranchAccountsForGrant(shares, actions, branch);
    BranchAccountsForGrant(shares, actions, child);
    RunBalances(shares, actions);
    RunInv(shares, actions);
    var b := KeepBooks(shares, actions);
    HeldNested(b, Sum(shares), child, branch);
    FlyingNested(b.core, child, branch);
  }

  lemma HeldNested(b: Books, budget: int, child: int, branch: int)
    requires Balanced(b) && Inv(b.core, budget) && InBranch(b.core.leases, child, branch)
    requires 1 <= branch <= |b.core.leases| && 1 <= child <= |b.core.leases|
    ensures Sum(HeldIn(b, child)) <= Sum(HeldIn(b, branch))
  {
    HeldNonneg(b, budget, branch);
    var inner, outer := HeldIn(b, child), HeldIn(b, branch);
    forall i | 0 <= i < |b.granted| ensures inner[i] <= outer[i] {
      if InBranch(b.core.leases, i + 1, child) {
        BranchTransitive(b.core.leases, i + 1, child, branch);
      }
    }
    SumMonotone(inner, outer);
  }

  lemma FlyingNested(s: State, child: int, branch: int)
    requires Vouchers(s) && InBranch(s.leases, child, branch)
    ensures Sum(FlyingIn(s, child)) <= Sum(FlyingIn(s, branch))
  {
    var inner, outer := FlyingIn(s, child), FlyingIn(s, branch);
    forall k | 0 <= k < |s.transfers| ensures inner[k] <= outer[k] {
      assert VoucherAt(s.leases, s.transfers, |s.pools|, k);
      if InFlightUnder(s.leases, s.transfers[k], child) {
        BranchTransitive(s.leases, s.transfers[k].parent.value, child, branch);
      }
    }
    SumMonotone(inner, outer);
  }
}
