/**
 * An inductive invariant of the escrow model, strong enough to imply everything
 * the source's `validate` checks, and the proof that all nine actions keep it.
 */
module EscrowInvariant {
  import opened Common
  import opened Escrow

  // ---- the parts of the invariant ----

  /** Identifiers are handed out 1, 2, 3, ... and the fresh counters lie just above them. */
  predicate Identified(s: State) {
    && s.nextLease == |s.leases| + 1
    && s.nextTransfer == |s.transfers| + 1
    && s.nextReceipt == |s.receipts| + 1
    && (forall i :: 0 <= i < |s.leases| ==> s.leases[i].id == i + 1)
    && (forall i :: 0 <= i < |s.transfers| ==> s.transfers[i].id == i + 1)
    && (forall i :: 0 <= i < |s.receipts| ==> s.receipts[i].id == i + 1 && s.receipts[i].nonce == i + 1)
  }

  /** No amount is negative, nothing is created or lost, and every receipt cost at least one right. */
  predicate Funded(s: State, budget: int) {
    && (forall w :: 0 <= w < |s.pools| ==> 0 <= s.pools[w])
    && (forall i :: 0 <= i < |s.leases| ==> 0 <= s.leases[i].residual)
    && |s.receipts| <= s.consumed
    && ConservedRights(s) == budget
  }

  predicate LineageAt(leases: seq<Lease>, i: int)
    requires 0 <= i < |leases|
  {
    match leases[i].parent
    case None => !leases[i].remote
    case Some(p) => 1 <= p <= i && ((leases[p - 1].warden != leases[i].warden) == leases[i].remote)
  }

  predicate AliveAt(leases: seq<Lease>, i: int)
    requires 0 <= i < |leases|
  {
    && (leases[i].active && leases[i].parent.Some? ==>
          1 <= leases[i].parent.value <= |leases| && leases[leases[i].parent.value - 1].active)
    && (!leases[i].active ==> leases[i].residual == 0)
  }

  /** Parents are older leases, placed as the remote flag says; only an active parent has active children. */
  predicate Lineage(leases: seq<Lease>, wardens: nat) {
    && (forall i :: 0 <= i < |leases| ==> leases[i].warden < wardens)
    && (forall i :: 0 <= i < |leases| ==> LineageAt(leases, i))
    && (forall i :: 0 <= i < |leases| ==> AliveAt(leases, i))
  }

  predicate VoucherAt(leases: seq<Lease>, transfers: seq<Transfer>, wardens: nat, k: int)
    requires 0 <= k < |transfers|
  {
    var t := transfers[k];
    && t.source != t.target
    && 0 < t.amount
    && (t.kind.LeaseKind? <==> t.parent.Some?)
    && (t.kind.LeaseKind? ==>
          && t.target < wardens
          && 1 <= t.parent.value <= |leases|
          && leases[t.parent.value - 1].warden == t.source
          && (t.status.Prepared? ==> leases[t.parent.value - 1].active))
  }

  /** A lease voucher names a parent at its source; while it is in flight that parent is active. */
  predicate Vouchers(s: State) {
    forall k :: 0 <= k < |s.transfers| ==> VoucherAt(s.leases, s.transfers, |s.pools|, k)
  }

  predicate RemoteChildOf(l: Lease, parent: int, warden: nat) {
    l.remote && l.parent == Some(parent) && l.warden == warden
  }

  predicate RedeemedVoucher(t: Transfer, parent: int, warden: nat) {
    t.kind.LeaseKind? && t.parent == Some(parent) && t.target == warden && !t.status.Prepared?
  }

  function RemoteMarks(leases: seq<Lease>, parent: int, warden: nat): seq<int> {
    seq(|leases|, i requires 0 <= i < |leases| =>
      if RemoteChildOf(leases[i], parent, warden) then 1 else 0)
  }

  function VoucherMarks(transfers: seq<Transfer>, parent: int, warden: nat): seq<int> {
    seq(|transfers|, i requires 0 <= i < |transfers| =>
      if RedeemedVoucher(transfers[i], parent, warden) then 1 else 0)
  }

  /** As many remote children of each parent at each warden as redeemed lease vouchers. */
  ghost predicate RemoteMatch(leases: seq<Lease>, transfers: seq<Transfer>) {
    forall p: int, w: nat :: Sum(RemoteMarks(leases, p, w)) == Sum(VoucherMarks(transfers, p, w))
  }

  function StreamCount(transfers: seq<Transfer>, source: nat, target: nat): nat {
    if transfers == [] then 0 else
      StreamCount(transfers[..|transfers| - 1], source, target)
      + if OnStream(transfers[|transfers| - 1], source, target) then 1 else 0
  }

  predicate StreamAt(transfers: seq<Transfer>, k: int)
    requires 0 <= k < |transfers|
  {
    transfers[k].sequence == StreamCount(transfers[..k], transfers[k].source, transfers[k].target) + 1
  }

  /** The n-th voucher of a stream carries sequence n: no gap, no repeat. */
  predicate Streams(transfers: seq<Transfer>) {
    forall k :: 0 <= k < |transfers| ==> StreamAt(transfers, k)
  }

  predicate ReceiptAt(receipts: seq<Receipt>, leases: seq<Lease>, k: int)
    requires 0 <= k < |receipts|
  {
    var r := receipts[k];
    && 1 <= r.lease <= |leases|
    && r.warden == leases[r.lease - 1].warden
    && 1 <= r.sequence <= leases[r.lease - 1].sequence
  }

  /** Receipts are backed by their lease, and their sequences rise lease by lease. */
  predicate Receipted(receipts: seq<Receipt>, leases: seq<Lease>) {
    && (forall k :: 0 <= k < |receipts| ==> ReceiptAt(receipts, leases, k))
    && (forall j, k :: 0 <= j < k < |receipts| && receipts[j].lease == receipts[k].lease ==>
          receipts[j].sequence < receipts[k].sequence)
    && (forall i :: 0 <= i < |leases| ==> 0 <= leases[i].sequence)
  }

  predicate ClaimedBelow(s: State, k: int)
    requires 0 <= k < |s.receipts|
  {
    s.receipts[k].id in s.claimedReceipts ==>
      s.receipts[k].lease in s.watermarks && s.receipts[k].sequence <= s.watermarks[s.receipts[k].lease]
  }

  predicate WatermarkReached(s: State, lease: int)
    requires lease in s.watermarks
  {
    exists k :: 0 <= k < |s.receipts| && s.receipts[k].id in s.claimedReceipts
      && s.receipts[k].lease == lease && s.receipts[k].sequence == s.watermarks[lease]
  }

  /** A watermark is the highest sequence claimed on its lease. */
  predicate Claimed(s: State) {
    && s.claimedNonces == s.claimedReceipts
    && (forall id :: id in s.claimedReceipts ==> 1 <= id <= |s.receipts|)
    && (forall k :: 0 <= k < |s.receipts| ==> ClaimedBelow(s, k))
    && (forall lease :: lease in s.watermarks ==> WatermarkReached(s, lease))
  }

  ghost predicate Inv(s: State, budget: int) {
    && Identified(s)
    && Funded(s, budget)
    && Lineage(s.leases, |s.pools|)
    && Vouchers(s)
    && RemoteMatch(s.leases, s.transfers)
    && Streams(s.transfers)
    && Receipted(s.receipts, s.leases)
    && Claimed(s)
  }

  // ---- lookups in identified tables ----

  lemma LookupLease(s: State, id: int)
    requires Identified(s)
    ensures LeaseIndex(s.leases, id) == if 1 <= id <= |s.leases| then Some(id - 1) else None
  {
    if 1 <= id <= |s.leases| {
      assert s.leases[id - 1].id == id;
    }
  }

  lemma LookupTransfer(s: State, id: int)
    requires Identified(s)
    ensures TransferIndex(s.transfers, id) == if 1 <= id <= |s.transfers| then Some(id - 1) else None
  {
    if 1 <= id <= |s.transfers| {
      assert s.transfers[id - 1].id == id;
    }
  }

  lemma LookupReceipt(s: State, id: int)
    requires Identified(s)
    ensures ReceiptIndex(s.receipts, id) == if 1 <= id <= |s.receipts| then Some(id - 1) else None
  {
    if 1 <= id <= |s.receipts| {
      assert s.receipts[id - 1].id == id;
    }
  }

  lemma ReplaceLeaseAt(s: State, p: nat, changed: Lease)
    requires Identified(s) && p < |s.leases| && changed.id == p + 1
    ensures ReplaceLease(s.leases, changed) == s.leases[p := changed]
  {
  }

  lemma ReplaceTransferAt(s: State, k: nat, changed: Transfer)
    requires Identified(s) && k < |s.transfers| && changed.id == k + 1
    ensures ReplaceTransfer(s.transfers, changed) == s.transfers[k := changed]
  {
  }

  // ---- what a change of one table keeps ----

  /** `changed` may replace lease `p`: only residual, sequence and liveness differ. */
  predicate Touches(leases: seq<Lease>, p: nat, changed: Lease) {
    && p < |leases|
    && changed.id == leases[p].id && changed.warden == leases[p].warden
    && changed.parent == leases[p].parent && changed.remote == leases[p].remote
    && leases[p].sequence <= changed.sequence
  }

  lemma ResidualsTouched(leases: seq<Lease>, p: nat, changed: Lease)
    requires p < |leases|
    ensures Sum(Residuals(leases[p := changed])) == Sum(Residuals(leases)) - leases[p].residual + changed.residual
  {
    assert Residuals(leases[p := changed]) == Residuals(leases)[p := changed.residual];
    SumUpdate(Residuals(leases), p, changed.residual);
  }

  lemma ResidualsAdded(leases: seq<Lease>, l: Lease)
    ensures Sum(Residuals(leases + [l])) == Sum(Residuals(leases)) + l.residual
  {
    assert Residuals(leases + [l]) == Residuals(leases) + [l.residual];
    SumAppend(Residuals(leases), l.residual);
  }

  lemma InFlightAdded(transfers: seq<Transfer>, t: Transfer)
    requires t.status.Prepared?
    ensures Sum(InFlight(transfers + [t])) == Sum(InFlight(transfers)) + t.amount
  {
    assert InFlight(transfers + [t]) == InFlight(transfers) + [t.amount];
    SumAppend(InFlight(transfers), t.amount);
  }

  lemma InFlightSettled(transfers: seq<Transfer>, k: nat, status: Status)
    requires k < |transfers| && !status.Prepared?
    ensures Sum(InFlight(transfers[k := transfers[k].(status := status)])) ==
            Sum(InFlight(transfers)) - if transfers[k].status.Prepared? then transfers[k].amount else 0
  {
    assert InFlight(transfers[k := transfers[k].(status := status)]) == InFlight(transfers)[k := 0];
    SumUpdate(InFlight(transfers), k, 0);
  }

  lemma LineageTouched(leases: seq<Lease>, wardens: nat, p: nat, changed: Lease)
    requires Lineage(leases, wardens) && Touches(leases, p, changed)
    requires leases[p].active && changed.active
    ensures Lineage(leases[p := changed], wardens)
  {
    var after := leases[p := changed];
    forall i | 0 <= i < |after| ensures LineageAt(after, i) && AliveAt(after, i) {
      assert LineageAt(leases, i) && AliveAt(leases, i);
    }
  }

  lemma LineageAdded(leases: seq<Lease>, wardens: nat, l: Lease)
    requires Lineage(leases, wardens) && l.warden < wardens && l.active
    requires l.parent.None? ==> !l.remote
    requires l.parent.Some? ==> 1 <= l.parent.value <= |leases| && leases[l.parent.value - 1].active
    requires l.parent.Some? ==> ((leases[l.parent.value - 1].warden != l.warden) == l.remote)
    ensures Lineage(leases + [l], wardens)
  {
    var after := leases + [l];
    forall i | 0 <= i < |after| ensures LineageAt(after, i) && AliveAt(after, i) {
      if i < |leases| {
        assert LineageAt(leases, i) && AliveAt(leases, i);
      }
    }
  }

  lemma LineageClosed(leases: seq<Lease>, wardens: nat, p: nat, changed: Lease)
    requires Lineage(leases, wardens) && Touches(leases, p, changed)
    requires leases[p].id == p + 1 && !LiveChild(leases, p + 1)
    requires !changed.active && changed.residual == 0
    ensures Lineage(leases[p := changed], wardens)
  {
    var after := leases[p := changed];
    forall i | 0 <= i < |after| ensures LineageAt(after, i) && AliveAt(after, i) {
      assert LineageAt(leases, i) && AliveAt(leases, i);
      if leases[i].active {
        assert leases[i].parent != Some(p + 1);
      }
    }
  }

  lemma VouchersTouched(s: State, p: nat, changed: Lease, after: State)
    requires Vouchers(s) && Touches(s.leases, p, changed)
    requires changed.active || !PendingRemoteChild(s.transfers, p + 1)
    requires after.leases == s.leases[p := changed] && after.transfers == s.transfers
    requires |after.pools| == |s.pools|
    ensures Vouchers(after)
  {
    forall k | 0 <= k < |s.transfers| ensures VoucherAt(after.leases, after.transfers, |after.pools|, k) {
      assert VoucherAt(s.leases, s.transfers, |s.pools|, k);
    }
  }

  lemma RemoteMarksTouched(leases: seq<Lease>, transfers: seq<Transfer>, p: nat, changed: Lease)
    requires RemoteMatch(leases, transfers) && Touches(leases, p, changed)
    ensures RemoteMatch(leases[p := changed], transfers)
  {
    forall q: int, w: nat
      ensures Sum(RemoteMarks(leases[p := changed], q, w)) == Sum(VoucherMarks(transfers, q, w))
    {
      assert RemoteMarks(leases[p := changed], q, w) == RemoteMarks(leases, q, w);
    }
  }

  lemma RemoteMarksAdded(leases: seq<Lease>, transfers: seq<Transfer>, l: Lease)
    requires RemoteMatch(leases, transfers) && !l.remote
    ensures RemoteMatch(leases + [l], transfers)
  {
    forall q: int, w: nat
      ensures Sum(RemoteMarks(leases + [l], q, w)) == Sum(VoucherMarks(transfers, q, w))
    {
      assert RemoteMarks(leases + [l], q, w) == RemoteMarks(leases, q, w) + [0];
      SumAppend(RemoteMarks(leases, q, w), 0);
    }
  }

  lemma VoucherMarksAdded(leases: seq<Lease>, transfers: seq<Transfer>, t: Transfer)
    requires RemoteMatch(leases, transfers) && t.status.Prepared?
    ensures RemoteMatch(leases, transfers + [t])
  {
    forall q: int, w: nat
      ensures Sum(RemoteMarks(leases, q, w)) == Sum(VoucherMarks(transfers + [t], q, w))
    {
      assert VoucherMarks(transfers + [t], q, w) == VoucherMarks(transfers, q, w) + [0];
      SumAppend(VoucherMarks(transfers, q, w), 0);
    }
  }

  lemma VoucherMarksSettled(leases: seq<Lease>, transfers: seq<Transfer>, k: nat, status: Status)
    requires RemoteMatch(leases, transfers) && k < |transfers| && !status.Prepared?
    requires transfers[k].status.Prepared? ==> transfers[k].kind.PoolKind?
    ensures RemoteMatch(leases, transfers[k := transfers[k].(status := status)])
  {
    var after := transfers[k := transfers[k].(status := status)];
    forall q: int, w: nat
      ensures Sum(RemoteMarks(leases, q, w)) == Sum(VoucherMarks(after, q, w))
    {
      assert VoucherMarks(after, q, w) == VoucherMarks(transfers, q, w);
    }
  }

  /** Redeeming a lease voucher adds one mark on each side, for the same parent and warden. */
  lemma RemoteMarksRedeemed(leases: seq<Lease>, transfers: seq<Transfer>, k: nat, child: Lease)
    requires RemoteMatch(leases, transfers) && k < |transfers|
    requires transfers[k].kind.LeaseKind? && transfers[k].status.Prepared?
    requires child.remote && child.parent == transfers[k].parent && child.warden == transfers[k].target
    ensures RemoteMatch(leases + [child], transfers[k := transfers[k].(status := Accepted)])
  {
    var after := transfers[k := transfers[k].(status := Accepted)];
    forall q: int, w: nat
      ensures Sum(RemoteMarks(leases + [child], q, w)) == Sum(VoucherMarks(after, q, w))
    {
      var mark := if RemoteChildOf(child, q, w) then 1 else 0;
      assert RemoteMarks(leases + [child], q, w) == RemoteMarks(leases, q, w) + [mark];
      SumAppend(RemoteMarks(leases, q, w), mark);
      assert VoucherMarks(after, q, w) == VoucherMarks(transfers, q, w)[k := mark];
      SumUpdate(VoucherMarks(transfers, q, w), k, mark);
    }
  }

  lemma {:induction false} StreamCountSame(ts: seq<Transfer>, us: seq<Transfer>, source: nat, target: nat)
    requires |ts| == |us|
    requires forall i :: 0 <= i < |ts| ==> ts[i].source == us[i].source && ts[i].target == us[i].target
    ensures StreamCount(ts, source, target) == StreamCount(us, source, target)
  {
    if ts != [] {
      StreamCountSame(ts[..|ts| - 1], us[..|us| - 1], source, target);
    }
  }

  lemma StreamsSettled(transfers: seq<Transfer>, k: nat, status: Status)
    requires Streams(transfers) && k < |transfers|
    ensures Streams(transfers[k := transfers[k].(status := status)])
  {
    var after := transfers[k := transfers[k].(status := status)];
    forall i | 0 <= i < |after| ensures StreamAt(after, i) {
      assert StreamAt(transfers, i);
      StreamCountSame(transfers[..i], after[..i], transfers[i].source, transfers[i].target);
    }
  }

  /** On a gap-free stream the highest sequence is the number of vouchers sent. */
  lemma {:induction false} HighestIsCount(transfers: seq<Transfer>, source: nat, target: nat)
    requires Streams(transfers)
    ensures MaxStreamSequence(transfers, source, target) == StreamCount(transfers, source, target)
    ensures NoneOnStream(transfers, source, target) ==> StreamCount(transfers, source, target) == 0
  {
    if transfers != [] {
      var n := |transfers| - 1;
      StreamsPrefix(transfers, n);
      HighestIsCount(transfers[..n], source, target);
      assert StreamAt(transfers, n);
      assert NoneOnStream(transfers, source, target) ==> NoneOnStream(transfers[..n], source, target);
    }
  }

  lemma StreamsPrefix(transfers: seq<Transfer>, n: nat)
    requires Streams(transfers) && n <= |transfers|
    ensures Streams(transfers[..n])
  {
    forall k | 0 <= k < n ensures StreamAt(transfers[..n], k) {
      assert StreamAt(transfers, k);
      assert transfers[..n][..k] == transfers[..k];
    }
  }

  lemma StreamsAdded(transfers: seq<Transfer>, t: Transfer)
    requires Streams(transfers) && t.sequence == NextStreamSequence(transfers, t.source, t.target)
    ensures Streams(transfers + [t])
  {
    var after := transfers + [t];
    forall k | 0 <= k < |after| ensures StreamAt(after, k) {
      if k < |transfers| {
        assert StreamAt(transfers, k);
        assert after[..k] == transfers[..k];
      } else {
        assert after[..k] == transfers;
        HighestIsCount(transfers, t.source, t.target);
      }
    }
  }

  lemma ReceiptedTouched(receipts: seq<Receipt>, leases: seq<Lease>, p: nat, changed: Lease)
    requires Receipted(receipts, leases) && Touches(leases, p, changed)
    ensures Receipted(receipts, leases[p := changed])
  {
    var table := leases[p := changed];
    forall k | 0 <= k < |receipts| ensures ReceiptAt(receipts, table, k) {
      assert ReceiptAt(receipts, leases, k);
    }
  }

  lemma ReceiptedLeaseAdded(receipts: seq<Receipt>, leases: seq<Lease>, l: Lease)
    requires Receipted(receipts, leases) && 0 <= l.sequence
    ensures Receipted(receipts, leases + [l])
  {
    forall k | 0 <= k < |receipts| ensures ReceiptAt(receipts, leases + [l], k) {
      assert ReceiptAt(receipts, leases, k);
    }
  }

  /** Claims speak only of receipts, so anything that leaves those fields alone keeps them. */
  lemma ClaimedFrame(s: State, after: State)
    requires Claimed(s)
    requires after.receipts == s.receipts && after.claimedReceipts == s.claimedReceipts
    requires after.claimedNonces == s.claimedNonces && after.watermarks == s.watermarks
    ensures Claimed(after)
  {
    forall k | 0 <= k < |s.receipts| ensures ClaimedBelow(after, k) {
      assert ClaimedBelow(s, k);
    }
    forall lease | lease in s.watermarks ensures WatermarkReached(after, lease) {
      assert WatermarkReached(s, lease);
    }
  }

  // ---- each action keeps the invariant ----

  lemma InitialInv(shares: seq<int>)
    requires forall w :: 0 <= w < |shares| ==> 0 <= shares[w]
    ensures Inv(InitialState(shares), Sum(shares))
  {
    EmptyTablesMatch();
    InitialFunded(shares);
  }

  lemma EmptyTablesMatch()
    ensures RemoteMatch([], [])
  {
    forall p: int, w: nat ensures Sum(RemoteMarks([], p, w)) == Sum(VoucherMarks([], p, w)) {
      assert RemoteMarks([], p, w) == [] == VoucherMarks([], p, w);
    }
  }

  lemma InitialFunded(shares: seq<int>)
    requires forall w :: 0 <= w < |shares| ==> 0 <= shares[w]
    ensures Funded(InitialState(shares), Sum(shares))
  {
    assert Residuals([]) == [] == InFlight([]);
  }

  lemma IssueRootKeeps(s: State, budget: int, warden: nat, amount: int)
    requires Inv(s, budget) && IssueRoot(s, warden, amount).Some?
    ensures Inv(IssueRoot(s, warden, amount).value, budget)
  {
    var after := IssueRoot(s, warden, amount).value;
    var l := after.leases[|s.leases|];
    ResidualsAdded(s.leases, l);
    SumUpdate(s.pools, warden, s.pools[warden] - amount);
    LineageAdded(s.leases, |s.pools|, l);
    VouchersLeaseAdded(s, l, after);
    RemoteMarksAdded(s.leases, s.transfers, l);
    ReceiptedLeaseAdded(s.receipts, s.leases, l);
    ClaimedFrame(s, after);
  }

  lemma VouchersLeaseAdded(s: State, l: Lease, after: State)
    requires Vouchers(s) && after.leases == s.leases + [l] && after.transfers == s.transfers
    requires |after.pools| == |s.pools|
    ensures Vouchers(after)
  {
    forall k | 0 <= k < |s.transfers| ensures VoucherAt(after.leases, after.transfers, |after.pools|, k) {
      assert VoucherAt(s.leases, s.transfers, |s.pools|, k);
    }
  }

  /** The parent debit shared by both kinds of spawn and by authorization. */
  lemma DebitKeeps(s: State, budget: int, p: nat, amount: int)
    requires Inv(s, budget) && p < |s.leases| && s.leases[p].active && 0 <= amount <= s.leases[p].residual
    ensures var changed := Debited(s.leases[p], amount);
      var after := s.(leases := s.leases[p := changed]);
      && Touches(s.leases, p, changed)
      && ReplaceLease(s.leases, changed) == after.leases
      && Lineage(after.leases, |s.pools|) && Vouchers(after)
      && RemoteMatch(after.leases, s.transfers) && Receipted(s.receipts, after.leases)
      && Sum(Residuals(after.leases)) == Sum(Residuals(s.leases)) - amount
  {
    var changed := Debited(s.leases[p], amount);
    var after := s.(leases := s.leases[p := changed]);
    ReplaceLeaseAt(s, p, changed);
    ResidualsTouched(s.leases, p, changed);
    LineageTouched(s.leases, |s.pools|, p, changed);
    VouchersTouched(s, p, changed, after);
    RemoteMarksTouched(s.leases, s.transfers, p, changed);
    ReceiptedTouched(s.receipts, s.leases, p, changed);
  }

  function Debited(l: Lease, amount: int): Lease {
    l.(residual := l.residual - amount, sequence := l.sequence + 1)
  }

  lemma SpawnKeeps(s: State, budget: int, parentId: int, amount: int)
    requires Inv(s, budget) && Spawn(s, parentId, amount).Some?
    ensures Inv(Spawn(s, parentId, amount).value, budget)
  {
    LookupLease(s, parentId);
    var p := parentId - 1;
    ReplaceLeaseAt(s, p, Debited(s.leases[p], amount));
    ChildKeeps(s, budget, p, amount);
  }

  /** The state with `amount` moved from lease `p` to a new child at the same warden. */
  function WithChild(s: State, p: nat, amount: int): State
    requires p < |s.leases|
  {
    var child := Lease(s.nextLease, s.leases[p].warden, Some(s.leases[p].id), amount, true, 0, false);
    s.(leases := s.leases[p := Debited(s.leases[p], amount)] + [child], nextLease := s.nextLease + 1)
  }

  lemma ChildKeeps(s: State, budget: int, p: nat, amount: int)
    requires Inv(s, budget) && p < |s.leases| && s.leases[p].active && 0 <= amount <= s.leases[p].residual
    ensures Inv(WithChild(s, p, amount), budget)
  {
    DebitKeeps(s, budget, p, amount);
    var after := WithChild(s, p, amount);
    var mid := s.(leases := s.leases[p := Debited(s.leases[p], amount)]);
    var child := after.leases[|s.leases|];
    assert after.leases == mid.leases + [child];
    ResidualsAdded(mid.leases, child);
    LineageAdded(mid.leases, |s.pools|, child);
    VouchersLeaseAdded(mid, child, after);
    RemoteMarksAdded(mid.leases, s.transfers, child);
    ReceiptedLeaseAdded(s.receipts, mid.leases, child);
    ClaimedFrame(s, after);
  }

  lemma VouchersTransferAdded(s: State, t: Transfer, after: State)
    requires Vouchers(s) && after.leases == s.leases && after.transfers == s.transfers + [t]
    requires |after.pools| == |s.pools|
    requires VoucherAt(s.leases, after.transfers, |s.pools|, |s.transfers|)
    ensures Vouchers(after)
  {
    forall k | 0 <= k < |after.transfers|
      ensures VoucherAt(after.leases, after.transfers, |after.pools|, k)
    {
      if k < |s.transfers| {
        assert VoucherAt(s.leases, s.transfers, |s.pools|, k);
      }
    }
  }

  lemma SpawnRemoteKeeps(s: State, budget: int, parentId: int, target: nat, amount: int)
    requires Inv(s, budget) && SpawnRemote(s, parentId, target, amount).Some?
    ensures Inv(SpawnRemote(s, parentId, target, amount).value, budget)
  {
    LookupLease(s, parentId);
    var p := parentId - 1;
    DebitKeeps(s, budget, p, amount);
    var after := SpawnRemote(s, parentId, target, amount).value;
    var mid := s.(leases := s.leases[p := Debited(s.leases[p], amount)]);
    var t := after.transfers[|s.transfers|];
    assert after.leases == mid.leases && after.transfers == s.transfers + [t];
    InFlightAdded(s.transfers, t);
    VouchersTransferAdded(mid, t, after);
    VoucherMarksAdded(mid.leases, s.transfers, t);
    StreamsAdded(s.transfers, t);
    ClaimedFrame(s, after);
  }

  lemma ReceiptAdded(receipts: seq<Receipt>, leases: seq<Lease>, p: nat, changed: Lease, r: Receipt)
    requires Receipted(receipts, leases) && Touches(leases, p, changed)
    requires changed.sequence == leases[p].sequence + 1
    requires r.lease == p + 1 && r.warden == changed.warden && r.sequence == changed.sequence
    ensures Receipted(receipts + [r], leases[p := changed])
  {
    var after, table := receipts + [r], leases[p := changed];
    forall k | 0 <= k < |after| ensures ReceiptAt(after, table, k) {
      if k < |receipts| {
        assert ReceiptAt(receipts, leases, k);
      }
    }
    forall j, k | 0 <= j < k < |after| && after[j].lease == after[k].lease
      ensures after[j].sequence < after[k].sequence
    {
      assert ReceiptAt(receipts, leases, j);
    }
  }

  lemma AuthorizeKeeps(s: State, budget: int, leaseId: int, cost: int)
    requires Inv(s, budget) && Authorize(s, leaseId, cost).Some?
    ensures Inv(Authorize(s, leaseId, cost).value, budget)
  {
    LookupLease(s, leaseId);
    var p := leaseId - 1;
    DebitKeeps(s, budget, p, cost);
    var changed := Debited(s.leases[p], cost);
    var after := Authorize(s, leaseId, cost).value;
    var r := after.receipts[|s.receipts|];
    assert after.leases == s.leases[p := changed] && after.receipts == s.receipts + [r];
    ReceiptAdded(s.receipts, s.leases, p, changed, r);
    ClaimedReceiptAdded(s, r, after);
    assert Vouchers(after) by {
      VouchersTouched(s, p, changed, after);
    }
  }

  lemma ClaimedReceiptAdded(s: State, r: Receipt, after: State)
    requires Identified(s) && Claimed(s) && r.id == |s.receipts| + 1
    requires after.receipts == s.receipts + [r] && after.claimedReceipts == s.claimedReceipts
    requires after.claimedNonces == s.claimedNonces && after.watermarks == s.watermarks
    ensures Claimed(after)
  {
    forall k | 0 <= k < |after.receipts| ensures ClaimedBelow(after, k) {
      if k < |s.receipts| {
        assert ClaimedBelow(s, k);
      }
    }
    forall lease | lease in s.watermarks ensures WatermarkReached(after, lease) {
      assert WatermarkReached(s, lease);
      var k :| 0 <= k < |s.receipts| && s.receipts[k].id in s.claimedReceipts
        && s.receipts[k].lease == lease && s.receipts[k].sequence == s.watermarks[lease];
      assert after.receipts[k] == s.receipts[k];
    }
  }

  lemma CloseKeeps(s: State, budget: int, leaseId: int)
    requires Inv(s, budget) && CloseLease(s, leaseId).Some?
    ensures Inv(CloseLease(s, leaseId).value, budget)
  {
    LookupLease(s, leaseId);
    var p := leaseId - 1;
    var l := s.leases[p];
    var changed := l.(residual := 0, active := false, sequence := l.sequence + 1);
    var after := CloseLease(s, leaseId).value;
    ReplaceLeaseAt(s, p, changed);
    assert after.leases == s.leases[p := changed];
    ResidualsTouched(s.leases, p, changed);
    SumUpdate(s.pools, l.warden, s.pools[l.warden] + l.residual);
    LineageClosed(s.leases, |s.pools|, p, changed);
    VouchersTouched(s, p, changed, after);
    RemoteMarksTouched(s.leases, s.transfers, p, changed);
    ReceiptedTouched(s.receipts, s.leases, p, changed);
    ClaimedFrame(s, after);
  }

  lemma PrepareKeeps(s: State, budget: int, source: nat, target: nat, amount: int)
    requires Inv(s, budget) && PrepareTransfer(s, source, target, amount).Some?
    ensures Inv(PrepareTransfer(s, source, target, amount).value, budget)
  {
    var after := PrepareTransfer(s, source, target, amount).value;
    var t := after.transfers[|s.transfers|];
    SumUpdate(s.pools, source, s.pools[source] - amount);
    InFlightAdded(s.transfers, t);
    VouchersTransferAdded(s, t, after);
    VoucherMarksAdded(s.leases, s.transfers, t);
    StreamsAdded(s.transfers, t);
    ClaimedFrame(s, after);
  }

  lemma VouchersSettled(s: State, k: nat, status: Status, after: State)
    requires Vouchers(s) && k < |s.transfers| && !status.Prepared?
    requires after.leases == s.leases && |after.pools| == |s.pools|
    requires after.transfers == s.transfers[k := s.transfers[k].(status := status)]
    ensures Vouchers(after)
  {
    forall i | 0 <= i < |s.transfers| ensures VoucherAt(after.leases, after.transfers, |after.pools|, i) {
      assert VoucherAt(s.leases, s.transfers, |s.pools|, i);
    }
  }

  lemma AcceptPoolKeeps(s: State, budget: int, transferId: int)
    requires Inv(s, budget) && 1 <= transferId <= |s.transfers|
    requires s.transfers[transferId - 1].status.Prepared? && s.transfers[transferId - 1].kind.PoolKind?
    requires AcceptTransfer(s, transferId).Some?
    ensures Inv(AcceptTransfer(s, transferId).value, budget)
  {
    LookupTransfer(s, transferId);
    var k := transferId - 1;
    var t := s.transfers[k];
    var after := AcceptTransfer(s, transferId).value;
    ReplaceTransferAt(s, k, t.(status := Accepted));
    assert VoucherAt(s.leases, s.transfers, |s.pools|, k);
    SumUpdate(s.pools, t.target, s.pools[t.target] + t.amount);
    InFlightSettled(s.transfers, k, Accepted);
    VouchersSettled(s, k, Accepted, after);
    VoucherMarksSettled(s.leases, s.transfers, k, Accepted);
    StreamsSettled(s.transfers, k, Accepted);
    ClaimedFrame(s, after);
  }

  lemma AcceptLeaseKeeps(s: State, budget: int, transferId: int)
    requires Inv(s, budget) && 1 <= transferId <= |s.transfers|
    requires s.transfers[transferId - 1].status.Prepared? && s.transfers[transferId - 1].kind.LeaseKind?
    requires AcceptTransfer(s, transferId).Some?
    ensures Inv(AcceptTransfer(s, transferId).value, budget)
  {
    LookupTransfer(s, transferId);
    var k := transferId - 1;
    var t := s.transfers[k];
    var after := AcceptTransfer(s, transferId).value;
    ReplaceTransferAt(s, k, t.(status := Accepted));
    var mid := s.(transfers := after.transfers);
    var child := after.leases[|s.leases|];
    assert VoucherAt(s.leases, s.transfers, |s.pools|, k);
    InFlightSettled(s.transfers, k, Accepted);
    ResidualsAdded(s.leases, child);
    LineageAdded(s.leases, |s.pools|, child);
    VouchersSettled(s, k, Accepted, mid);
    VouchersLeaseAdded(mid, child, after);
    RemoteMarksRedeemed(s.leases, s.transfers, k, child);
    StreamsSettled(s.transfers, k, Accepted);
    ReceiptedLeaseAdded(s.receipts, s.leases, child);
    ClaimedFrame(s, after);
  }

  lemma AcceptKeeps(s: State, budget: int, transferId: int)
    requires Inv(s, budget) && AcceptTransfer(s, transferId).Some?
    ensures Inv(AcceptTransfer(s, transferId).value, budget)
  {
    LookupTransfer(s, transferId);
    var t := s.transfers[transferId - 1];
    if t.status.Prepared? {
      if t.kind.LeaseKind? {
        AcceptLeaseKeeps(s, budget, transferId);
      } else {
        AcceptPoolKeeps(s, budget, transferId);
      }
    }
  }

  lemma FinalizeKeeps(s: State, budget: int, transferId: int)
    requires Inv(s, budget) && FinalizeTransfer(s, transferId).Some?
    ensures Inv(FinalizeTransfer(s, transferId).value, budget)
  {
    LookupTransfer(s, transferId);
    var k := transferId - 1;
    var t := s.transfers[k];
    if t.status.Accepted? {
      var after := FinalizeTransfer(s, transferId).value;
      ReplaceTransferAt(s, k, t.(status := Finalized));
      InFlightSettled(s.transfers, k, Finalized);
      VouchersSettled(s, k, Finalized, after);
      VoucherMarksSettled(s.leases, s.transfers, k, Finalized);
      StreamsSettled(s.transfers, k, Finalized);
      ClaimedFrame(s, after);
    }
  }

  lemma ClaimKeeps(s: State, budget: int, receiptId: int)
    requires Inv(s, budget) && ClaimReceipt(s, receiptId).Some?
    ensures Inv(ClaimReceipt(s, receiptId).value, budget)
  {
    LookupReceipt(s, receiptId);
    var after := ClaimReceipt(s, receiptId).value;
    var r := s.receipts[receiptId - 1];
    if after != s {
      forall k | 0 <= k < |s.receipts| ensures ClaimedBelow(after, k) {
        assert ClaimedBelow(s, k);
      }
      forall lease | lease in after.watermarks ensures WatermarkReached(after, lease) {
        if lease == r.lease {
          assert after.receipts[receiptId - 1] == r;
        } else {
          assert WatermarkReached(s, lease);
          var k :| 0 <= k < |s.receipts| && s.receipts[k].id in s.claimedReceipts
            && s.receipts[k].lease == lease && s.receipts[k].sequence == s.watermarks[lease];
          assert after.receipts[k] == s.receipts[k];
        }
      }
      assert Claimed(after);
      assert Vouchers(after) by {
        forall k | 0 <= k < |s.transfers|
          ensures VoucherAt(after.leases, after.transfers, |after.pools|, k)
        {
          assert VoucherAt(s.leases, s.transfers, |s.pools|, k);
        }
      }
    }
  }

  lemma StepKeeps(s: State, budget: int, a: Action)
    requires Inv(s, budget)
    ensures Inv(After(s, a), budget)
  {
    if Step(s, a).Some? {
      match a
      case IssueRootAction(warden, amount) => IssueRootKeeps(s, budget, warden, amount);
      case SpawnAction(parent, amount) => SpawnKeeps(s, budget, parent, amount);
      case SpawnRemoteAction(parent, target, amount) => SpawnRemoteKeeps(s, budget, parent, target, amount);
      case AuthorizeAction(lease, cost) => AuthorizeKeeps(s, budget, lease, cost);
      case CloseAction(lease) => CloseKeeps(s, budget, lease);
      case PrepareAction(source, target, amount) => PrepareKeeps(s, budget, source, target, amount);
      case AcceptAction(transfer) => AcceptKeeps(s, budget, transfer);
      case FinalizeAction(transfer) => FinalizeKeeps(s, budget, transfer);
      case ClaimAction(receipt) => ClaimKeeps(s, budget, receipt);
    }
  }

  /** Every state of every run satisfies the invariant. */
  lemma {:induction false} RunInv(shares: seq<int>, actions: seq<Action>)
    requires forall w :: 0 <= w < |shares| ==> 0 <= shares[w]
    ensures Inv(Run(InitialState(shares), actions), Sum(shares))
  {
    if actions == [] {
      InitialInv(shares);
    } else {
      var n := |actions| - 1;
      RunInv(shares, actions[..n]);
      StepKeeps(Run(InitialState(shares), actions[..n]), Sum(shares), actions[n]);
    }
  }
}
