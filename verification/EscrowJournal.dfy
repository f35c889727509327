/**
 * The journal of the escrow model: when an action is let through, and what it then enters in each
 * table.  Conditions and entries are told by the tables alone, without the look-up and replacement
 * of the actions; after every run an action is let through, and does what it does, exactly so.
 */
module EscrowJournal {
  import opened Common
  import opened Escrow
  import opened EscrowInvariant
  import opened EscrowBranch

  // ---- when an action is let through ----

  /** Some active lease carries `id` and can give `amount`. */
  predicate Affords(s: State, id: int, amount: int) {
    exists i :: 0 <= i < |s.leases| && s.leases[i].id == id && s.leases[i].active
      && 0 < amount <= s.leases[i].residual
  }

  /** No lease of the branch but its first is active, and no child of the branch is on its way. */
  predicate Idle(s: State, branch: int) {
    && (forall x :: 1 <= x <= |s.leases| && InBranch(s.leases, x, branch) && s.leases[x - 1].active ==> x == branch)
    && (forall k :: 0 <= k < |s.transfers| ==> !InFlightUnder(s.leases, s.transfers[k], branch))
  }

  predicate Permitted(s: State, a: Action) {
    match a
    case IssueRootAction(warden, amount) => warden < |s.pools| && 0 < amount <= s.pools[warden]
    case SpawnAction(parent, amount) => Affords(s, parent, amount)
    case SpawnRemoteAction(parent, target, amount) =>
      target < |s.pools| && Affords(s, parent, amount)
      && forall i :: 0 <= i < |s.leases| && s.leases[i].id == parent ==> s.leases[i].warden != target
    case AuthorizeAction(lease, cost) => Affords(s, lease, cost)
    case CloseAction(lease) =>
      1 <= lease <= |s.leases| && s.leases[lease - 1].active && Idle(s, lease)
    case PrepareAction(source, target, amount) =>
      source != target && source < |s.pools| && 0 < amount <= s.pools[source]
    case AcceptAction(transfer) =>
      1 <= transfer <= |s.transfers| && (s.transfers[transfer - 1].status.Prepared? ==> Arrives(s, s.transfers[transfer - 1]))
    case FinalizeAction(transfer) => 1 <= transfer <= |s.transfers| && !s.transfers[transfer - 1].status.Prepared?
    case ClaimAction(receipt) => 1 <= receipt <= |s.receipts|
  }

  /** A pool voucher needs a pool to go to; a lease voucher was checked when it was sent. */
  predicate Arrives(s: State, t: Transfer) {
    t.kind.LeaseKind? || t.target < |s.pools|
  }

  // ---- what it enters ----

  predicate Lands(s: State, id: int, kind: Kind) {
    1 <= id <= |s.transfers| && s.transfers[id - 1].status.Prepared? && s.transfers[id - 1].kind == kind
  }

  /** What is added to the pool of warden `w`. */
  function PoolEntry(s: State, a: Action, w: nat): int {
    match a
    case IssueRootAction(warden, amount) => if warden == w then -amount else 0
    case PrepareAction(source, _, amount) => if source == w then -amount else 0
    case CloseAction(lease) =>
      if 1 <= lease <= |s.leases| && s.leases[lease - 1].warden == w then s.leases[lease - 1].residual else 0
    case AcceptAction(id) =>
      if Lands(s, id, PoolKind) && s.transfers[id - 1].target == w then s.transfers[id - 1].amount else 0
    case _ => 0
  }

  /** The lease an action draws on, and what it draws. */
  function Drawn(a: Action): Option<(int, int)> {
    match a
    case SpawnAction(parent, amount) => Some((parent, amount))
    case SpawnRemoteAction(parent, _, amount) => Some((parent, amount))
    case AuthorizeAction(lease, cost) => Some((lease, cost))
    case _ => None
  }

  /** Lease `l` before and `m` after the action: a draw or a closing takes the next sequence number. */
  predicate LeaseEntry(l: Lease, a: Action, m: Lease) {
    if Drawn(a).Some? && Drawn(a).value.0 == l.id then
      m == l.(residual := l.residual - Drawn(a).value.1, sequence := l.sequence + 1)
    else if a == CloseAction(l.id) then
      m == l.(residual := 0, active := false, sequence := l.sequence + 1)
    else m == l
  }

  function NewLeases(s: State, a: Action): seq<Lease> {
    var id := |s.leases| + 1;
    match a
    case IssueRootAction(warden, amount) => [Lease(id, warden, None, amount, true, 0, false)]
    case SpawnAction(parent, amount) =>
      if 1 <= parent <= |s.leases| then
        [Lease(id, s.leases[parent - 1].warden, Some(parent), amount, true, 0, false)]
      else []
    case AcceptAction(t) =>
      if Lands(s, t, LeaseKind) then
        [Lease(id, s.transfers[t - 1].target, s.transfers[t - 1].parent, s.transfers[t - 1].amount, true, 0, true)]
      else []
    case _ => []
  }

  predicate VoucherEntry(t: Transfer, a: Action, u: Transfer) {
    if a == AcceptAction(t.id) && t.status.Prepared? then u == t.(status := Accepted)
    else if a == FinalizeAction(t.id) then u == t.(status := Finalized)
    else u == t
  }

  /** A new voucher takes the number of vouchers already on its stream, plus one. */
  function NewVouchers(s: State, a: Action): seq<Transfer> {
    var id := |s.transfers| + 1;
    match a
    case PrepareAction(source, target, amount) =>
      [Transfer(id, source, target, StreamCount(s.transfers, source, target) + 1, amount, Prepared, PoolKind, None)]
    case SpawnRemoteAction(parent, target, amount) =>
      if 1 <= parent <= |s.leases| then
        var source := s.leases[parent - 1].warden;
        [Transfer(id, source, target, StreamCount(s.transfers, source, target) + 1, amount, Prepared, LeaseKind, Some(parent))]
      else []
    case _ => []
  }

  function NewReceipts(s: State, a: Action): seq<Receipt> {
    if a.AuthorizeAction? && 1 <= a.lease <= |s.leases| then
      var l := s.leases[a.lease - 1];
      [Receipt(|s.receipts| + 1, a.lease, l.warden, l.sequence + 1, |s.receipts| + 1)]
    else []
  }

  predicate PoolsEntered(s: State, a: Action, t: State) {
    |t.pools| == |s.pools| && forall w :: 0 <= w < |s.pools| ==> t.pools[w] == s.pools[w] + PoolEntry(s, a, w)
  }

  predicate LeasesEntered(s: State, a: Action, t: State) {
    && |s.leases| <= |t.leases| && t.leases[|s.leases|..] == NewLeases(s, a)
    && (forall i :: 0 <= i < |s.leases| ==> LeaseEntry(s.leases[i], a, t.leases[i]))
  }

  predicate VouchersEntered(s: State, a: Action, t: State) {
    && |s.transfers| <= |t.transfers| && t.transfers[|s.transfers|..] == NewVouchers(s, a)
    && (forall k :: 0 <= k < |s.transfers| ==> VoucherEntry(s.transfers[k], a, t.transfers[k]))
  }

  // ---- claims ----

  /** A claimed receipt of the same lease has at least the sequence of `r`. */
  predicate Reached(s: State, r: Receipt) {
    exists k :: 0 <= k < |s.receipts| && s.receipts[k].id in s.claimedReceipts
      && s.receipts[k].lease == r.lease && r.sequence <= s.receipts[k].sequence
  }

  predicate Honours(s: State, a: Action) {
    a.ClaimAction? && 1 <= a.receipt <= |s.receipts| && !Reached(s, s.receipts[a.receipt - 1])
  }

  /** Exactly the honoured claim is added, and it sets the watermark of its lease. */
  ghost predicate ClaimsEntered(s: State, a: Action, t: State) {
    && t.claimedReceipts == (if Honours(s, a) then s.claimedReceipts + {a.receipt} else s.claimedReceipts)
    && t.claimedNonces == t.claimedReceipts
    && (forall lease :: lease in t.watermarks <==> lease in s.watermarks || (Honours(s, a) && s.receipts[a.receipt - 1].lease == lease))
    && (forall lease :: lease in t.watermarks ==>
          t.watermarks[lease] ==
            if Honours(s, a) && s.receipts[a.receipt - 1].lease == lease then s.receipts[a.receipt - 1].sequence
            else s.watermarks[lease])
  }

  /** Every table after the action, told by the tables before it. */
  ghost predicate Entered(s: State, a: Action, t: State) {
    && PoolsEntered(s, a, t) && LeasesEntered(s, a, t) && VouchersEntered(s, a, t)
    && t.receipts == s.receipts + NewReceipts(s, a)
    && t.consumed == s.consumed + (if a.AuthorizeAction? then a.cost else 0)
    && ClaimsEntered(s, a, t)
  }

  // ---- permission is exact ----

  /** An active lease strictly below `b` hangs from `b` by a chain of active leases. */
  lemma {:induction false} ActiveBelow(leases: seq<Lease>, wardens: nat, x: int, b: int)
    requires Lineage(leases, wardens) && 1 <= x <= |leases| && x != b && InBranch(leases, x, b)
    requires leases[x - 1].active
    ensures LiveChild(leases, b)
    decreases x
  {
    assert LineageAt(leases, x - 1) && AliveAt(leases, x - 1);
    var p := leases[x - 1].parent.value;
    if p == b {
      assert leases[x - 1].parent == Some(b);
    } else {
      ActiveBelow(leases, wardens, p, b);
    }
  }

  lemma IdleExactly(s: State, budget: int, id: int)
    requires Inv(s, budget) && 1 <= id <= |s.leases| && s.leases[id - 1].active
    ensures Idle(s, id) <==> !LiveChild(s.leases, id) && !PendingRemoteChild(s.transfers, id)
  {
    if LiveChild(s.leases, id) {
      var i :| 0 <= i < |s.leases| && s.leases[i].parent == Some(id) && s.leases[i].active;
      assert LineageAt(s.leases, i);
      assert InBranch(s.leases, id, id) && InBranch(s.leases, i + 1, id);
    } else {
      forall x | 1 <= x <= |s.leases| && InBranch(s.leases, x, id) && s.leases[x - 1].active ensures x == id {
        if x != id {
          ActiveBelow(s.leases, |s.pools|, x, id);
        }
      }
      IdleFlights(s, budget, id);
    }
  }

  lemma IdleFlights(s: State, budget: int, id: int)
    requires Inv(s, budget) && !LiveChild(s.leases, id)
    ensures PendingRemoteChild(s.transfers, id) <==>
      exists k :: 0 <= k < |s.transfers| && InFlightUnder(s.leases, s.transfers[k], id)
  {
    if PendingRemoteChild(s.transfers, id) {
      var k :| 0 <= k < |s.transfers| && s.transfers[k].kind.LeaseKind?
        && s.transfers[k].parent == Some(id) && s.transfers[k].status.Prepared?;
      assert InFlightUnder(s.leases, s.transfers[k], id);
    }
    forall k | 0 <= k < |s.transfers| && InFlightUnder(s.leases, s.transfers[k], id)
      ensures PendingRemoteChild(s.transfers, id)
    {
      assert VoucherAt(s.leases, s.transfers, |s.pools|, k);
      var q := s.transfers[k].parent.value;
      if q != id {
        ActiveBelow(s.leases, |s.pools|, q, id);
      }
    }
  }

  lemma AffordsExactly(s: State, id: int, amount: int)
    requires Identified(s)
    ensures Affords(s, id, amount) <==>
      1 <= id <= |s.leases| && s.leases[id - 1].active && 0 < amount <= s.leases[id - 1].residual
  {
    if 1 <= id <= |s.leases| {
      assert s.leases[id - 1].id == id;
    }
  }

  lemma LeasePermission(s: State, budget: int, a: Action)
    requires Inv(s, budget) && (Drawn(a).Some? || a.CloseAction?)
    ensures Step(s, a).Some? <==> Permitted(s, a)
  {
    if a.CloseAction? {
      LookupLease(s, a.lease);
      if 1 <= a.lease <= |s.leases| && s.leases[a.lease - 1].active {
        IdleExactly(s, budget, a.lease);
      }
    } else {
      LookupLease(s, Drawn(a).value.0);
      AffordsExactly(s, Drawn(a).value.0, Drawn(a).value.1);
    }
  }

  lemma PermissionExactly(s: State, budget: int, a: Action)
    requires Inv(s, budget)
    ensures Step(s, a).Some? <==> Permitted(s, a)
  {
    if Drawn(a).Some? || a.CloseAction? {
      LeasePermission(s, budget, a);
    } else {
      match a
      case AcceptAction(id) => LookupTransfer(s, id);
      case FinalizeAction(id) => LookupTransfer(s, id);
      case ClaimAction(id) => LookupReceipt(s, id);
      case _ =>
    }
  }

  // ---- the entries are exact ----

  lemma DrawEntered(s: State, budget: int, a: Action)
    requires Inv(s, budget) && Drawn(a).Some? && Step(s, a).Some?
    ensures LeasesEntered(s, a, Step(s, a).value) && PoolsEntered(s, a, Step(s, a).value)
  {
    var (id, amount) := Drawn(a).value;
    LookupLease(s, id);
    ReplaceLeaseAt(s, id - 1, Debited(s.leases[id - 1], amount));
  }

  lemma CloseEntered(s: State, budget: int, id: int)
    requires Inv(s, budget) && CloseLease(s, id).Some?
    ensures LeasesEntered(s, CloseAction(id), CloseLease(s, id).value)
    ensures PoolsEntered(s, CloseAction(id), CloseLease(s, id).value)
  {
    LookupLease(s, id);
    var l := s.leases[id - 1];
    ReplaceLeaseAt(s, id - 1, l.(residual := 0, active := false, sequence := l.sequence + 1));
  }

  lemma AcceptEntered(s: State, budget: int, id: int)
    requires Inv(s, budget) && AcceptTransfer(s, id).Some?
    ensures var t := AcceptTransfer(s, id).value; var a := AcceptAction(id);
      LeasesEntered(s, a, t) && PoolsEntered(s, a, t) && VouchersEntered(s, a, t)
  {
    LookupTransfer(s, id);
    ReplaceTransferAt(s, id - 1, s.transfers[id - 1].(status := Accepted));
  }

  lemma FinalizeEntered(s: State, budget: int, id: int)
    requires Inv(s, budget) && FinalizeTransfer(s, id).Some?
    ensures VouchersEntered(s, FinalizeAction(id), FinalizeTransfer(s, id).value)
  {
    LookupTransfer(s, id);
    ReplaceTransferAt(s, id - 1, s.transfers[id - 1].(status := Finalized));
  }

  lemma SentEntered(s: State, budget: int, a: Action)
    requires Inv(s, budget) && Step(s, a).Some? && (a.PrepareAction? || a.SpawnRemoteAction?)
    ensures VouchersEntered(s, a, Step(s, a).value)
  {
    if a.PrepareAction? {
      HighestIsCount(s.transfers, a.source, a.target);
    } else {
      LookupLease(s, a.parent);
      HighestIsCount(s.transfers, s.leases[a.parent - 1].warden, a.target);
    }
  }

  lemma TablesEntered(s: State, budget: int, a: Action)
    requires Inv(s, budget) && Step(s, a).Some?
    ensures PoolsEntered(s, a, Step(s, a).value) && LeasesEntered(s, a, Step(s, a).value)
  {
    if Drawn(a).Some? {
      DrawEntered(s, budget, a);
    } else if a.CloseAction? {
      CloseEntered(s, budget, a.lease);
    } else if a.AcceptAction? {
      AcceptEntered(s, budget, a.transfer);
    }
  }

  lemma VouchersExactly(s: State, budget: int, a: Action)
    requires Inv(s, budget) && Step(s, a).Some?
    ensures VouchersEntered(s, a, Step(s, a).value)
  {
    match a
    case AcceptAction(id) => AcceptEntered(s, budget, id);
    case FinalizeAction(id) => FinalizeEntered(s, budget, id);
    case PrepareAction(_, _, _) => SentEntered(s, budget, a);
    case SpawnRemoteAction(_, _, _) => SentEntered(s, budget, a);
    case _ =>
  }

  lemma ReceiptsExactly(s: State, budget: int, a: Action)
    requires Inv(s, budget) && Step(s, a).Some?
    ensures Step(s, a).value.receipts == s.receipts + NewReceipts(s, a)
    ensures Step(s, a).value.consumed == s.consumed + (if a.AuthorizeAction? then a.cost else 0)
  {
    if a.AuthorizeAction? {
      LookupLease(s, a.lease);
    }
  }

  /** The watermark test is a test of the claimed receipts. */
  lemma ReachedExactly(s: State, budget: int, id: int)
    requires Inv(s, budget) && 1 <= id <= |s.receipts|
    ensures var r := s.receipts[id - 1];
      Reached(s, r) <==> id in s.claimedReceipts || r.sequence <= Watermark(s, r.lease)
  {
    var r := s.receipts[id - 1];
    assert ReceiptAt(s.receipts, s.leases, id - 1);
    assert r.id == id;
    if Reached(s, r) {
      var k :| 0 <= k < |s.receipts| && s.receipts[k].id in s.claimedReceipts
        && s.receipts[k].lease == r.lease && r.sequence <= s.receipts[k].sequence;
      assert ClaimedBelow(s, k);
    }
    if r.lease in s.watermarks && r.sequence <= s.watermarks[r.lease] {
      assert WatermarkReached(s, r.lease);
    }
  }

  lemma ClaimsExactly(s: State, budget: int, a: Action)
    requires Inv(s, budget) && Step(s, a).Some?
    ensures ClaimsEntered(s, a, Step(s, a).value)
  {
    if a.ClaimAction? {
      LookupReceipt(s, a.receipt);
      ReachedExactly(s, budget, a.receipt);
    }
  }

  /**
   * After every run, an action is let through exactly when the tables permit it, and it then enters
   * in every table exactly what the journal says; otherwise nothing changes.
   */
  lemma JournalIsExact(shares: seq<int>, actions: seq<Action>, a: Action)
    requires forall w :: 0 <= w < |shares| ==> 0 <= shares[w]
    ensures var s := Run(InitialState(shares), actions);
      && (Step(s, a).Some? <==> Permitted(s, a))
      && (Permitted(s, a) ==> Entered(s, a, After(s, a)))
      && (!Permitted(s, a) ==> After(s, a) == s)
  {
    RunInv(shares, actions);
    EntryIsExact(Run(InitialState(shares), actions), Sum(shares), a);
  }

  lemma EntryIsExact(s: State, budget: int, a: Action)
    requires Inv(s, budget)
    ensures Step(s, a).Some? <==> Permitted(s, a)
    ensures Permitted(s, a) ==> Entered(s, a, After(s, a))
  {
    PermissionExactly(s, budget, a);
    if Step(s, a).Some? {
      TablesEntered(s, budget, a);
      VouchersExactly(s, budget, a);
      ReceiptsExactly(s, budget, a);
      ClaimsExactly(s, budget, a);
    }
  }

  /**
   * A claim of an issued receipt leaves it claimed exactly when it was claimed before, or no claimed
   * receipt of its lease has its sequence or a later one; then its sequence is the lease's watermark.
   */
  lemma ClaimHonouredExactlyWhen(shares: seq<int>, actions: seq<Action>, id: int)
    requires forall w :: 0 <= w < |shares| ==> 0 <= shares[w]
    requires 1 <= id <= |Run(InitialState(shares), actions).receipts|
    ensures var s := Run(InitialState(shares), actions); var t := After(s, ClaimAction(id));
      var r := s.receipts[id - 1];
      var free := forall k :: 0 <= k < |s.receipts| && s.receipts[k].id in s.claimedReceipts && s.receipts[k].lease == r.lease ==>
        s.receipts[k].sequence < r.sequence;
      && (id in t.claimedReceipts <==> id in s.claimedReceipts || free)
      && (free ==> r.lease in t.watermarks && t.watermarks[r.lease] == r.sequence)
      && (!free ==> t == s)
  {
    RunInv(shares, actions);
    var s := Run(InitialState(shares), actions);
    EntryIsExact(s, Sum(shares), ClaimAction(id));
    ReachedExactly(s, Sum(shares), id);
    LookupReceipt(s, id);
    assert s.receipts[id - 1].id == id;
  }
}
