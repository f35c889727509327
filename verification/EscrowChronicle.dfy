/**
 * What the tables of a run tell about its history, and the other way round: which receipts were
 * claimed, how far each voucher came, which leases were closed, and what a sequence number counts.
 * All of it is told by the list of attempted actions.
 */
module EscrowChronicle {
  import opened Common
  import opened Escrow
  import opened EscrowInvariant
  import opened EscrowHistory
  import opened EscrowJournal

  /** The state before attempt `i`. */
  function Before(shares: seq<int>, actions: seq<Action>, i: nat): State
    requires i <= |actions|
  {
    Run(InitialState(shares), actions[..i])
  }

  predicate Shared(shares: seq<int>) {
    forall w :: 0 <= w < |shares| ==> 0 <= shares[w]
  }

  lemma MomentHolds(shares: seq<int>, actions: seq<Action>, i: nat)
    requires Shared(shares) && i <= |actions|
    ensures Inv(Before(shares, actions, i), Sum(shares))
  {
    RunInv(shares, actions[..i]);
  }

  /** One attempt leads from one moment to the next. */
  lemma NextMoment(shares: seq<int>, actions: seq<Action>, n: nat)
    requires n < |actions|
    ensures Before(shares, actions, n + 1) == After(Before(shares, actions, n), actions[n])
  {
    assert actions[..n + 1][..n] == actions[..n];
  }

  lemma MomentAdvances(shares: seq<int>, actions: seq<Action>, n: nat)
    requires Shared(shares) && n < |actions|
    ensures Advances(Before(shares, actions, n), Before(shares, actions, n + 1))
  {
    MomentHolds(shares, actions, n);
    NextMoment(shares, actions, n);
    StepAdvances(Before(shares, actions, n), Sum(shares), actions[n]);
  }

  lemma {:induction false} ReceiptsGrow(shares: seq<int>, actions: seq<Action>, i: nat, n: nat)
    requires Shared(shares) && i <= n <= |actions|
    ensures Before(shares, actions, i).receipts <= Before(shares, actions, n).receipts
    decreases n - i
  {
    if i < n {
      MomentAdvances(shares, actions, n - 1);
      ReceiptsGrow(shares, actions, i, n - 1);
    }
  }

  // ---- claims ----

  /** Attempt `i` asks for a receipt that has been issued. */
  predicate AsksAt(shares: seq<int>, actions: seq<Action>, i: nat)
    requires i < |actions|
  {
    actions[i].ClaimAction? && 1 <= actions[i].receipt <= |Before(shares, actions, i).receipts|
  }

  predicate Overtakes(q: Receipt, r: Receipt) {
    q.lease == r.lease && r.sequence < q.sequence
  }

  /** Attempt `i` asks for a later receipt of the lease that issued receipt `id`. */
  predicate OvertakenAt(shares: seq<int>, actions: seq<Action>, receipts: seq<Receipt>, i: nat, id: int)
    requires i < |actions| && 1 <= id <= |receipts|
  {
    && AsksAt(shares, actions, i) && actions[i].receipt <= |receipts|
    && Overtakes(receipts[actions[i].receipt - 1], receipts[id - 1])
  }

  /** Attempt `i` asks for receipt `id` before anybody has asked for a later receipt of its lease. */
  predicate InTime(shares: seq<int>, actions: seq<Action>, receipts: seq<Receipt>, i: nat, id: int)
    requires i < |actions| && 1 <= id <= |receipts|
  {
    && AsksAt(shares, actions, i) && actions[i].receipt == id
    && forall j :: 0 <= j < i ==> !OvertakenAt(shares, actions, receipts, j, id)
  }

  /** What one attempt does to the claims, the watermarks and the receipts. */
  lemma ClaimsMove(shares: seq<int>, actions: seq<Action>, n: nat)
    requires Shared(shares) && n < |actions|
    ensures var s, t := Before(shares, actions, n), Before(shares, actions, n + 1);
      && s.receipts <= t.receipts
      && (forall lease :: Watermark(s, lease) <= Watermark(t, lease))
      && t.claimedReceipts == if Honours(s, actions[n]) then s.claimedReceipts + {actions[n].receipt} else s.claimedReceipts
  {
    MomentAdvances(shares, actions, n);
    ClaimsNext(shares, actions, n);
  }

  lemma ClaimsNext(shares: seq<int>, actions: seq<Action>, n: nat)
    requires Shared(shares) && n < |actions|
    ensures var s := Before(shares, actions, n);
      Before(shares, actions, n + 1).claimedReceipts ==
      if Honours(s, actions[n]) then s.claimedReceipts + {actions[n].receipt} else s.claimedReceipts
  {
    MomentHolds(shares, actions, n);
    NextMoment(shares, actions, n);
    ClaimsOf(Before(shares, actions, n), Sum(shares), actions[n]);
  }

  lemma ClaimsOf(s: State, budget: int, a: Action)
    requires Inv(s, budget)
    ensures After(s, a).claimedReceipts == if Honours(s, a) then s.claimedReceipts + {a.receipt} else s.claimedReceipts
  {
    EntryIsExact(s, budget, a);
  }

  /** Asking for a receipt leaves it at or below the watermark of its lease. */
  lemma AskedOnce(shares: seq<int>, actions: seq<Action>, n: nat)
    requires Shared(shares) && n < |actions| && AsksAt(shares, actions, n)
    ensures var t, id := Before(shares, actions, n + 1), actions[n].receipt;
      id <= |t.receipts| && t.receipts[id - 1].sequence <= Watermark(t, t.receipts[id - 1].lease)
  {
    MomentHolds(shares, actions, n);
    NextMoment(shares, actions, n);
    AskedOf(Before(shares, actions, n), Sum(shares), actions[n].receipt);
  }

  lemma AskedOf(s: State, budget: int, id: int)
    requires Inv(s, budget) && 1 <= id <= |s.receipts|
    ensures var t := After(s, ClaimAction(id));
      t.receipts == s.receipts && s.receipts[id - 1].sequence <= Watermark(t, s.receipts[id - 1].lease)
  {
    EntryIsExact(s, budget, ClaimAction(id));
    ReachedExactly(s, budget, id);
    assert ClaimedBelow(s, id - 1) && s.receipts[id - 1].id == id;
    LookupReceipt(s, id);
  }

  /** Whatever has been asked for lies at or below the watermark of its lease. */
  lemma {:induction false} AskedIsBelow(shares: seq<int>, actions: seq<Action>, n: nat, i: nat)
    requires Shared(shares) && i < n <= |actions| && AsksAt(shares, actions, i)
    ensures var s := Before(shares, actions, n);
      && actions[i].receipt <= |s.receipts|
      && s.receipts[actions[i].receipt - 1].sequence <= Watermark(s, s.receipts[actions[i].receipt - 1].lease)
    decreases n
  {
    if i < n - 1 {
      AskedIsBelow(shares, actions, n - 1, i);
      ClaimsMove(shares, actions, n - 1);
    } else {
      AskedOnce(shares, actions, i);
    }
  }

  ghost predicate ClaimedInTime(shares: seq<int>, actions: seq<Action>, receipts: seq<Receipt>, n: nat, id: int)
    requires n <= |actions| && 1 <= id <= |receipts|
  {
    exists i :: 0 <= i < n && InTime(shares, actions, receipts, i, id)
  }

  /** The first `n` attempts have claimed exactly the receipts asked for in time. */
  lemma {:induction false} ClaimedSoFar(shares: seq<int>, actions: seq<Action>, receipts: seq<Receipt>, n: nat, id: int)
    requires Shared(shares) && n <= |actions| && 1 <= id <= |receipts|
    requires Before(shares, actions, |actions|).receipts == receipts
    ensures id in Before(shares, actions, n).claimedReceipts <==> ClaimedInTime(shares, actions, receipts, n, id)
    decreases n, 2
  {
    if n > 0 {
      ClaimedSoFar(shares, actions, receipts, n - 1, id);
      ClaimsMove(shares, actions, n - 1);
      if AsksAt(shares, actions, n - 1) && actions[n - 1].receipt == id {
        AskDecides(shares, actions, receipts, n - 1, id);
      }
    }
  }

  lemma AskDecides(shares: seq<int>, actions: seq<Action>, receipts: seq<Receipt>, n: nat, id: int)
    requires Shared(shares) && n < |actions| && 1 <= id <= |receipts|
    requires Before(shares, actions, |actions|).receipts == receipts
    requires AsksAt(shares, actions, n) && actions[n].receipt == id
    ensures Honours(Before(shares, actions, n), actions[n]) ==> InTime(shares, actions, receipts, n, id)
    ensures InTime(shares, actions, receipts, n, id) ==>
      id in Before(shares, actions, n).claimedReceipts || Honours(Before(shares, actions, n), actions[n])
    decreases n, 4
  {
    if Reached(Before(shares, actions, n), Before(shares, actions, n).receipts[id - 1]) {
      ReachedIsAsked(shares, actions, receipts, n, id);
    } else {
      UnreachedIsInTime(shares, actions, receipts, n, id);
    }
  }

  lemma ReceiptsStay(shares: seq<int>, actions: seq<Action>, i: nat)
    requires Shared(shares) && i <= |actions|
    ensures Before(shares, actions, i).receipts <= Before(shares, actions, |actions|).receipts
    ensures Inv(Before(shares, actions, i), Sum(shares))
  {
    MomentHolds(shares, actions, i);
    ReceiptsGrow(shares, actions, i, |actions|);
  }

  /** The claimed receipt that stands in the way of an unclaimed one comes later on its lease. */
  lemma Overtaker(s: State, budget: int, id: int) returns (k: nat)
    requires Inv(s, budget) && 1 <= id <= |s.receipts| && id !in s.claimedReceipts && Reached(s, s.receipts[id - 1])
    ensures k < |s.receipts| && k + 1 in s.claimedReceipts && Overtakes(s.receipts[k], s.receipts[id - 1])
  {
    var r := s.receipts[id - 1];
    k :| 0 <= k < |s.receipts| && s.receipts[k].id in s.claimedReceipts
      && s.receipts[k].lease == r.lease && r.sequence <= s.receipts[k].sequence;
    assert s.receipts[k].id == k + 1 && k != id - 1;
  }

  /** A claim refused at attempt `n` was in time only if the receipt was claimed already. */
  lemma ReachedIsAsked(shares: seq<int>, actions: seq<Action>, receipts: seq<Receipt>, n: nat, id: int)
    requires Shared(shares) && n < |actions| && 1 <= id <= |Before(shares, actions, n).receipts|
    requires Before(shares, actions, |actions|).receipts == receipts && id <= |receipts|
    requires Reached(Before(shares, actions, n), Before(shares, actions, n).receipts[id - 1])
    ensures id in Before(shares, actions, n).claimedReceipts || !InTime(shares, actions, receipts, n, id)
    decreases n, 3
  {
    ReceiptsStay(shares, actions, n);
    var s := Before(shares, actions, n);
    if id !in s.claimedReceipts {
      var k := Overtaker(s, Sum(shares), id);
      assert Overtakes(receipts[k], receipts[id - 1]);
      ClaimedSoFar(shares, actions, receipts, n, k + 1);
      var j :| 0 <= j < n && InTime(shares, actions, receipts, j, k + 1);
      assert OvertakenAt(shares, actions, receipts, j, id);
    }
  }

  lemma UnreachedIsInTime(shares: seq<int>, actions: seq<Action>, receipts: seq<Receipt>, n: nat, id: int)
    requires Shared(shares) && n < |actions| && 1 <= id <= |Before(shares, actions, n).receipts|
    requires Before(shares, actions, |actions|).receipts == receipts && id <= |receipts|
    requires !Reached(Before(shares, actions, n), Before(shares, actions, n).receipts[id - 1])
    requires AsksAt(shares, actions, n) && actions[n].receipt == id
    ensures InTime(shares, actions, receipts, n, id)
  {
    ReceiptsStay(shares, actions, n);
    var s := Before(shares, actions, n);
    ReachedExactly(s, Sum(shares), id);
    forall j | 0 <= j < n ensures !OvertakenAt(shares, actions, receipts, j, id) {
      if OvertakenAt(shares, actions, receipts, j, id) {
        AskedIsBelow(shares, actions, n, j);
        assert false;
      }
    }
  }

  /**
   * In every run a receipt ends up claimed exactly when somebody asked for it, after it was issued,
   * before anybody had asked for a later receipt of its lease.
   */
  lemma ClaimedExactlyWhen(shares: seq<int>, actions: seq<Action>, id: int)
    requires Shared(shares) && 1 <= id <= |Run(InitialState(shares), actions).receipts|
    ensures var s := Run(InitialState(shares), actions);
      id in s.claimedReceipts <==> ClaimedInTime(shares, actions, s.receipts, |actions|, id)
  {
    assert actions[..|actions|] == actions;
    ClaimedSoFar(shares, actions, Run(InitialState(shares), actions).receipts, |actions|, id);
  }

  // ---- vouchers ----

  /** Attempt `i` accepts voucher `id`, which has been sent, at a warden that exists. */
  predicate AcceptsAt(shares: seq<int>, actions: seq<Action>, i: nat, id: int)
    requires i < |actions|
  {
    && actions[i] == AcceptAction(id)
    && 1 <= id <= |Before(shares, actions, i).transfers|
    && Before(shares, actions, i).transfers[id - 1].target < |shares|
  }

  predicate FinalizesAfter(shares: seq<int>, actions: seq<Action>, j: nat, id: int)
    requires j < |actions|
  {
    actions[j] == FinalizeAction(id) && exists i :: 0 <= i < j && AcceptsAt(shares, actions, i, id)
  }

  lemma {:induction false} PoolsStay(shares: seq<int>, actions: seq<Action>)
    requires Shared(shares)
    ensures |Run(InitialState(shares), actions).pools| == |shares|
  {
    if actions != [] {
      var n := |actions| - 1;
      PoolsStay(shares, actions[..n]);
      RunInv(shares, actions[..n]);
      EntryIsExact(Run(InitialState(shares), actions[..n]), Sum(shares), actions[n]);
    }
  }

  /** The status after an attempt, refused or not. */
  function Advanced(wardens: nat, a: Action, t: Transfer): Status {
    if a == AcceptAction(t.id) && t.status.Prepared? && t.target < wardens then Accepted
    else if a == FinalizeAction(t.id) && !t.status.Prepared? then Finalized
    else t.status
  }

  lemma VoucherEntered(s: State, budget: int, a: Action, t: State, k: nat)
    requires Inv(s, budget) && k < |s.transfers| && (if Permitted(s, a) then VouchersEntered(s, a, t) else t == s)
    ensures k < |t.transfers| && t.transfers[k] == s.transfers[k].(status := Advanced(|s.pools|, a, s.transfers[k]))
  {
    assert s.transfers[k].id == k + 1 && VoucherAt(s.leases, s.transfers, |s.pools|, k);
    assert Permitted(s, a) ==> VoucherEntry(s.transfers[k], a, t.transfers[k]);
  }

  lemma OldVouchers(s: State, budget: int, a: Action, k: nat)
    requires Inv(s, budget) && k < |s.transfers|
    ensures k < |After(s, a).transfers|
    ensures After(s, a).transfers[k] == s.transfers[k].(status := Advanced(|s.pools|, a, s.transfers[k]))
  {
    EntryIsExact(s, budget, a);
    VoucherEntered(s, budget, a, After(s, a), k);
  }

  lemma YoungVouchers(s: State, budget: int, a: Action, k: nat)
    requires Inv(s, budget) && |s.transfers| <= k < |After(s, a).transfers|
    ensures After(s, a).transfers[k].status.Prepared?
  {
    EntryIsExact(s, budget, a);
    var t := After(s, a);
    assert t.transfers[k] == t.transfers[|s.transfers|..][k - |s.transfers|];
  }

  lemma StatusOf(s: State, budget: int, a: Action, k: nat)
    requires Inv(s, budget)
    ensures var t := After(s, a);
      && |s.transfers| <= |t.transfers|
      && (k < |s.transfers| ==> s.transfers[k].id == k + 1)
      && (k < |s.transfers| ==> t.transfers[k] == s.transfers[k].(status := Advanced(|s.pools|, a, s.transfers[k])))
      && (|s.transfers| <= k < |t.transfers| ==> t.transfers[k].status.Prepared?)
  {
    StepAdvances(s, budget, a);
    if k < |s.transfers| {
      OldVouchers(s, budget, a, k);
    } else if k < |After(s, a).transfers| {
      YoungVouchers(s, budget, a, k);
    }
  }

  /** A voucher before and after an attempt. */
  predicate VoucherMoves(s: seq<Transfer>, t: seq<Transfer>, wardens: nat, a: Action, id: int) {
    && |s| <= |t|
    && (1 <= id <= |s| ==> s[id - 1].id == id && t[id - 1] == s[id - 1].(status := Advanced(wardens, a, s[id - 1])))
    && (|s| < id <= |t| ==> t[id - 1].status.Prepared?)
  }

  lemma VoucherMovesOf(s: State, budget: int, a: Action, id: int)
    requires Inv(s, budget) && 1 <= id
    ensures VoucherMoves(s.transfers, After(s, a).transfers, |s.pools|, a, id)
  {
    StatusOf(s, budget, a, id - 1);
  }

  /** What one attempt does to a voucher. */
  lemma StatusMoves(shares: seq<int>, actions: seq<Action>, n: nat, id: int)
    requires Shared(shares) && n < |actions| && 1 <= id
    ensures VoucherMoves(Before(shares, actions, n).transfers, Before(shares, actions, n + 1).transfers, |shares|, actions[n], id)
  {
    MomentHolds(shares, actions, n);
    NextMoment(shares, actions, n);
    PoolsStay(shares, actions[..n]);
    VoucherMovesOf(Before(shares, actions, n), Sum(shares), actions[n], id);
  }

  ghost predicate Came(shares: seq<int>, actions: seq<Action>, n: nat, id: int, status: Status)
    requires n <= |actions|
  {
    && (!status.Prepared? <==> exists i :: 0 <= i < n && AcceptsAt(shares, actions, i, id))
    && (status.Finalized? <==> exists j :: 0 <= j < n && FinalizesAfter(shares, actions, j, id))
  }

  lemma {:induction false} SentOnlyNow(shares: seq<int>, actions: seq<Action>, n: nat, id: int)
    requires Shared(shares) && n < |actions| && |Before(shares, actions, n).transfers| < id && 1 <= id
    ensures forall i :: 0 <= i <= n ==> !AcceptsAt(shares, actions, i, id)
  {
    if n > 0 {
      StatusMoves(shares, actions, n - 1, id);
      SentOnlyNow(shares, actions, n - 1, id);
    }
  }

  lemma CameFurther(shares: seq<int>, actions: seq<Action>, n: nat, t: Transfer)
    requires n < |actions| && 1 <= t.id <= |Before(shares, actions, n).transfers|
    requires t == Before(shares, actions, n).transfers[t.id - 1] && Came(shares, actions, n, t.id, t.status)
    ensures Came(shares, actions, n + 1, t.id, Advanced(|shares|, actions[n], t))
  {
    var id, a := t.id, actions[n];
    assert AcceptsAt(shares, actions, n, id) <==> a == AcceptAction(id) && t.target < |shares|;
    assert FinalizesAfter(shares, actions, n, id) <==> a == FinalizeAction(id) && !t.status.Prepared?;
  }

  /** How far a voucher has come after `n` attempts. */
  lemma {:induction false} StatusSoFar(shares: seq<int>, actions: seq<Action>, n: nat, id: int)
    requires Shared(shares) && n <= |actions| && 1 <= id <= |Before(shares, actions, n).transfers|
    ensures Came(shares, actions, n, id, Before(shares, actions, n).transfers[id - 1].status)
    decreases n
  {
    if n > 0 {
      StatusMoves(shares, actions, n - 1, id);
      var s := Before(shares, actions, n - 1).transfers;
      if id <= |s| {
        StatusSoFar(shares, actions, n - 1, id);
        CameFurther(shares, actions, n - 1, s[id - 1]);
      } else {
        SentOnlyNow(shares, actions, n - 1, id);
      }
    }
  }

  /**
   * In every run a voucher has been accepted exactly when somebody accepted it after it was sent, at
   * a warden that exists, and finalized exactly when somebody finalized it after that.
   */
  lemma StatusTellsHistory(shares: seq<int>, actions: seq<Action>, id: int)
    requires Shared(shares) && 1 <= id <= |Run(InitialState(shares), actions).transfers|
    ensures var t := Run(InitialState(shares), actions).transfers[id - 1];
      && (!t.status.Prepared? <==> exists i :: 0 <= i < |actions| && AcceptsAt(shares, actions, i, id))
      && (t.status.Finalized? <==> exists j :: 0 <= j < |actions| && FinalizesAfter(shares, actions, j, id))
  {
    assert actions[..|actions|] == actions;
    StatusSoFar(shares, actions, |actions|, id);
  }

  // ---- closing ----

  predicate ClosesAt(shares: seq<int>, actions: seq<Action>, i: nat, id: int)
    requires i < |actions|
  {
    var s := Before(shares, actions, i);
    actions[i] == CloseAction(id) && 1 <= id <= |s.leases| && s.leases[id - 1].active && Idle(s, id)
  }

  /** Which leases are active before and after an attempt. */
  predicate ActiveNext(s: State, a: Action, t: State) {
    && |s.leases| <= |t.leases|
    && (forall i :: 0 <= i < |s.leases| ==>
          (t.leases[i].active <==> s.leases[i].active && !(a == CloseAction(i + 1) && Permitted(s, a))))
    && (forall i :: |s.leases| <= i < |t.leases| ==> t.leases[i].active)
  }

  lemma ActiveEntered(s: State, a: Action, t: State)
    requires Identified(s) && (if Permitted(s, a) then LeasesEntered(s, a, t) else t == s)
    ensures ActiveNext(s, a, t)
  {
    forall i | 0 <= i < |s.leases|
      ensures t.leases[i].active <==> s.leases[i].active && !(a == CloseAction(i + 1) && Permitted(s, a))
    {
      assert s.leases[i].id == i + 1;
      assert Permitted(s, a) ==> LeaseEntry(s.leases[i], a, t.leases[i]);
    }
    forall i | |s.leases| <= i < |t.leases| ensures t.leases[i].active {
      assert t.leases[i] == t.leases[|s.leases|..][i - |s.leases|];
    }
  }

  lemma ActiveOf(s: State, budget: int, a: Action)
    requires Inv(s, budget)
    ensures ActiveNext(s, a, After(s, a))
  {
    EntryIsExact(s, budget, a);
    ActiveEntered(s, a, After(s, a));
  }

  /** What one attempt does to the leases that are active. */
  lemma ActiveMoves(shares: seq<int>, actions: seq<Action>, n: nat)
    requires Shared(shares) && n < |actions|
    ensures var s, t := Before(shares, actions, n).leases, Before(shares, actions, n + 1).leases;
      && |s| <= |t|
      && (forall i :: 0 <= i < |s| ==> (t[i].active <==> s[i].active && !ClosesAt(shares, actions, n, i + 1)))
      && (forall i :: |s| <= i < |t| ==> t[i].active)
  {
    MomentHolds(shares, actions, n);
    NextMoment(shares, actions, n);
    ActiveOf(Before(shares, actions, n), Sum(shares), actions[n]);
  }

  lemma {:induction false} CreatedOnlyNow(shares: seq<int>, actions: seq<Action>, n: nat, id: int)
    requires Shared(shares) && n < |actions| && |Before(shares, actions, n).leases| < id
    ensures forall i :: 0 <= i <= n ==> !ClosesAt(shares, actions, i, id)
  {
    if n > 0 {
      ActiveMoves(shares, actions, n - 1);
      CreatedOnlyNow(shares, actions, n - 1, id);
    }
  }

  lemma {:induction false} ClosedSoFar(shares: seq<int>, actions: seq<Action>, n: nat, id: int)
    requires Shared(shares) && n <= |actions| && 1 <= id <= |Before(shares, actions, n).leases|
    ensures !Before(shares, actions, n).leases[id - 1].active <==>
      exists i :: 0 <= i < n && ClosesAt(shares, actions, i, id)
    decreases n
  {
    if n > 0 {
      ActiveMoves(shares, actions, n - 1);
      if id <= |Before(shares, actions, n - 1).leases| {
        ClosedSoFar(shares, actions, n - 1, id);
      } else {
        CreatedOnlyNow(shares, actions, n - 1, id);
      }
    }
  }

  /**
   * In every run a lease has been closed exactly when somebody closed it while it was the only
   * active lease of its branch and no child of the branch was on its way.
   */
  lemma ClosedExactlyWhen(shares: seq<int>, actions: seq<Action>, id: int)
    requires Shared(shares) && 1 <= id <= |Run(InitialState(shares), actions).leases|
    ensures !Run(InitialState(shares), actions).leases[id - 1].active <==>
      exists i :: 0 <= i < |actions| && ClosesAt(shares, actions, i, id)
  {
    assert actions[..|actions|] == actions;
    ClosedSoFar(shares, actions, |actions|, id);
  }

  // ---- sequence numbers ----

  function ChildMarks(leases: seq<Lease>, id: int): seq<int> {
    seq(|leases|, i requires 0 <= i < |leases| => if leases[i].parent == Some(id) && !leases[i].remote then 1 else 0)
  }

  function SentMarks(transfers: seq<Transfer>, id: int): seq<int> {
    seq(|transfers|, k requires 0 <= k < |transfers| => if transfers[k].parent == Some(id) then 1 else 0)
  }

  function ReceiptMarks(receipts: seq<Receipt>, id: int): seq<int> {
    seq(|receipts|, k requires 0 <= k < |receipts| => if receipts[k].lease == id then 1 else 0)
  }

  /** Local children, children sent away, receipts, and the closing of lease `id`. */
  function Deeds(s: State, id: int): int
    requires 1 <= id <= |s.leases|
  {
    Sum(ChildMarks(s.leases, id)) + Sum(SentMarks(s.transfers, id)) + Sum(ReceiptMarks(s.receipts, id))
    + if s.leases[id - 1].active then 0 else 1
  }

  lemma ChildMarksGrow(before: seq<Lease>, after: seq<Lease>, id: int)
    requires LeasesAdvance(before, after) && |after| <= |before| + 1
    ensures Sum(ChildMarks(after, id)) == Sum(ChildMarks(before, id)) +
      if |before| < |after| && after[|before|].parent == Some(id) && !after[|before|].remote then 1 else 0
  {
    if |before| < |after| {
      assert ChildMarks(after, id) == ChildMarks(before, id) + [ChildMarks(after, id)[|before|]];
      SumAppend(ChildMarks(before, id), ChildMarks(after, id)[|before|]);
    } else {
      assert ChildMarks(after, id) == ChildMarks(before, id);
    }
  }

  lemma SentMarksGrow(before: seq<Transfer>, after: seq<Transfer>, id: int)
    requires TransfersAdvance(before, after) && |after| <= |before| + 1
    ensures Sum(SentMarks(after, id)) == Sum(SentMarks(before, id)) +
      if |before| < |after| && after[|before|].parent == Some(id) then 1 else 0
  {
    if |before| < |after| {
      assert SentMarks(after, id) == SentMarks(before, id) + [SentMarks(after, id)[|before|]];
      SumAppend(SentMarks(before, id), SentMarks(after, id)[|before|]);
    } else {
      assert SentMarks(after, id) == SentMarks(before, id);
    }
  }

  lemma ReceiptMarksGrow(before: seq<Receipt>, added: seq<Receipt>, id: int)
    requires |added| <= 1
    ensures Sum(ReceiptMarks(before + added, id)) == Sum(ReceiptMarks(before, id)) +
      if added != [] && added[0].lease == id then 1 else 0
  {
    if added == [] {
      assert before + added == before;
    } else {
      var x := if added[0].lease == id then 1 else 0;
      assert ReceiptMarks(before + added, id) == ReceiptMarks(before, id) + [x];
      SumAppend(ReceiptMarks(before, id), x);
    }
  }

  /** What an action let through adds to the deeds of an older lease it adds to its sequence. */
  lemma DeedsStep(s: State, budget: int, a: Action, id: int)
    requires Inv(s, budget) && Permitted(s, a) && 1 <= id <= |s.leases|
    ensures id <= |After(s, a).leases|
    ensures After(s, a).leases[id - 1].sequence - s.leases[id - 1].sequence == Deeds(After(s, a), id) - Deeds(s, id)
  {
    EntryIsExact(s, budget, a);
    StepAdvances(s, budget, a);
    DrawsOnLiving(s, budget, a);
    DeedsEntered(s, a, After(s, a), id);
  }

  lemma DeedsEntered(s: State, a: Action, t: State, id: int)
    requires Identified(s) && LeasesEntered(s, a, t) && VouchersEntered(s, a, t) && t.receipts == s.receipts + NewReceipts(s, a)
    requires LeasesAdvance(s.leases, t.leases) && TransfersAdvance(s.transfers, t.transfers)
    requires 1 <= id <= |s.leases| && (a == CloseAction(id) ==> s.leases[id - 1].active)
    requires Drawn(a).Some? ==> 1 <= Drawn(a).value.0 <= |s.leases| && s.leases[Drawn(a).value.0 - 1].active
    ensures t.leases[id - 1].sequence - s.leases[id - 1].sequence == Deeds(t, id) - Deeds(s, id)
  {
    assert s.leases[id - 1].id == id && LeaseEntry(s.leases[id - 1], a, t.leases[id - 1]);
    NewEntriesCount(s, a, t, id);
  }

  lemma NewEntriesCount(s: State, a: Action, t: State, id: int)
    requires Identified(s) && LeasesEntered(s, a, t) && VouchersEntered(s, a, t) && t.receipts == s.receipts + NewReceipts(s, a)
    requires LeasesAdvance(s.leases, t.leases) && TransfersAdvance(s.transfers, t.transfers)
    requires Drawn(a).Some? ==> 1 <= Drawn(a).value.0 <= |s.leases|
    ensures Sum(ChildMarks(t.leases, id)) + Sum(SentMarks(t.transfers, id)) + Sum(ReceiptMarks(t.receipts, id)) ==
      Sum(ChildMarks(s.leases, id)) + Sum(SentMarks(s.transfers, id)) + Sum(ReceiptMarks(s.receipts, id))
      + if Drawn(a).Some? && Drawn(a).value.0 == id then 1 else 0
  {
    assert NewLeases(s, a) != [] ==> t.leases[|s.leases|] == NewLeases(s, a)[0];
    assert NewVouchers(s, a) != [] ==> t.transfers[|s.transfers|] == NewVouchers(s, a)[0];
    ChildMarksGrow(s.leases, t.leases, id);
    SentMarksGrow(s.transfers, t.transfers, id);
    ReceiptMarksGrow(s.receipts, NewReceipts(s, a), id);
  }

  lemma DrawsOnLiving(s: State, budget: int, a: Action)
    requires Inv(s, budget) && Permitted(s, a)
    ensures Drawn(a).Some? ==> 1 <= Drawn(a).value.0 <= |s.leases| && s.leases[Drawn(a).value.0 - 1].active
  {
    if Drawn(a).Some? {
      AffordsExactly(s, Drawn(a).value.0, Drawn(a).value.1);
    }
  }

  lemma {:induction false} SequenceSoFar(shares: seq<int>, actions: seq<Action>, id: int)
    requires Shared(shares) && 1 <= id <= |Run(InitialState(shares), actions).leases|
    ensures var s := Run(InitialState(shares), actions); s.leases[id - 1].sequence == Deeds(s, id)
    decreases |actions|
  {
    var n := |actions| - 1;
    var s := Run(InitialState(shares), actions[..n]);
    RunInv(shares, actions[..n]);
    EntryIsExact(s, Sum(shares), actions[n]);
    if id <= |s.leases| {
      SequenceSoFar(shares, actions[..n], id);
      if Permitted(s, actions[n]) {
        DeedsStep(s, Sum(shares), actions[n], id);
      }
    } else {
      NewbornDeeds(s, Sum(shares), actions[n], id);
    }
  }

  lemma NewbornDeeds(s: State, budget: int, a: Action, id: int)
    requires Inv(s, budget) && Permitted(s, a) && |s.leases| < id <= |After(s, a).leases|
    ensures var t := After(s, a); t.leases[id - 1].sequence == 0 == Deeds(t, id)
  {
    var t := After(s, a);
    EntryIsExact(s, budget, a);
    StepKeeps(s, budget, a);
    assert t.leases[id - 1] == t.leases[|s.leases|..][id - 1 - |s.leases|];
    forall k | 0 <= k < |t.transfers| ensures t.transfers[k].parent != Some(id) {
      assert VoucherAt(s.leases, s.transfers, |s.pools|, k) && VoucherEntry(s.transfers[k], a, t.transfers[k]);
    }
    NothingNamesYet(t, budget, id);
  }

  /** The youngest lease is the parent of nothing and has no receipt. */
  lemma NothingNamesYet(t: State, budget: int, id: int)
    requires Inv(t, budget) && id == |t.leases| && 0 < id && t.leases[id - 1].sequence == 0
    requires forall k :: 0 <= k < |t.transfers| ==> t.transfers[k].parent != Some(id)
    ensures Sum(ChildMarks(t.leases, id)) == 0 && Sum(SentMarks(t.transfers, id)) == 0 && Sum(ReceiptMarks(t.receipts, id)) == 0
  {
    forall i | 0 <= i < |t.leases| ensures ChildMarks(t.leases, id)[i] == 0 {
      assert LineageAt(t.leases, i);
    }
    SumZeros(ChildMarks(t.leases, id));
    SumZeros(SentMarks(t.transfers, id));
    forall k | 0 <= k < |t.receipts| ensures ReceiptMarks(t.receipts, id)[k] == 0 {
      assert ReceiptAt(t.receipts, t.leases, k);
    }
    SumZeros(ReceiptMarks(t.receipts, id));
  }

  /**
   * In every run the sequence number of a lease counts its deeds: the children it spawned beside it,
   * those it sent away, the receipts it signed, and its closing.
   */
  lemma SequenceCountsDeeds(shares: seq<int>, actions: seq<Action>, id: int)
    requires Shared(shares) && 1 <= id <= |Run(InitialState(shares), actions).leases|
    ensures var s := Run(InitialState(shares), actions);
      s.leases[id - 1].sequence ==
      Sum(ChildMarks(s.leases, id)) + Sum(SentMarks(s.transfers, id)) + Sum(ReceiptMarks(s.receipts, id))
      + if s.leases[id - 1].active then 0 else 1
  {
    SequenceSoFar(shares, actions, id);
  }
}
