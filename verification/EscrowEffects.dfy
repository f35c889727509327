/**
 * Effects by branch: every receipt cost at least one right of its lease, so the claims an executor
 * honours on a lease and everything below it never outnumber the rights the lease was created with.
 */
module EscrowEffects {
  import opened Common
  import opened Escrow
  import opened EscrowInvariant
  import opened EscrowHistory
  import opened EscrowBranch

  /** One for each receipt issued on a lease of the branch. */
  function ReceiptMarks(s: State, branch: int): seq<int> {
    seq(|s.receipts|, k requires 0 <= k < |s.receipts| => if InBranch(s.leases, s.receipts[k].lease, branch) then 1 else 0)
  }

  /** One for each such receipt that has been claimed. */
  function ClaimMarks(s: State, branch: int): seq<int> {
    seq(|s.receipts|, k requires 0 <= k < |s.receipts| =>
      if s.receipts[k].id in s.claimedReceipts && InBranch(s.leases, s.receipts[k].lease, branch) then 1 else 0)
  }

  predicate Paid(b: Books, branch: int)
    requires SameSize(b)
  {
    Sum(ReceiptMarks(b.core, branch)) <= Sum(SpentIn(b, branch))
  }

  lemma MarksStable(s: State, after: State, branch: int)
    requires SameParents(s.leases, after.leases) && s.receipts <= after.receipts
    requires forall k :: 0 <= k < |s.receipts| ==> s.receipts[k].lease <= |s.leases|
    ensures ReceiptMarks(after, branch)[..|s.receipts|] == ReceiptMarks(s, branch)
  {
    forall k | 0 <= k < |s.receipts| ensures ReceiptMarks(after, branch)[k] == ReceiptMarks(s, branch)[k] {
      BranchStable(s.leases, after.leases, s.receipts[k].lease, branch);
    }
  }

  /** What a branch has spent does not change when leases are added that have spent nothing. */
  lemma SpentStable(b: Books, after: Books, branch: int)
    requires SameSize(b) && SameSize(after) && SameParents(b.core.leases, after.core.leases)
    requires b.spent <= after.spent && forall i :: |b.spent| <= i < |after.spent| ==> after.spent[i] == 0
    ensures Sum(SpentIn(after, branch)) == Sum(SpentIn(b, branch))
  {
    var was, now := SpentIn(b, branch), SpentIn(after, branch);
    forall i | 0 <= i < |was| ensures now[i] == was[i] {
      BranchStable(b.core.leases, after.core.leases, i + 1, branch);
    }
    assert now == was + now[|was|..];
    SumConcat(was, now[|was|..]);
    SumZeros(now[|was|..]);
  }

  /** No action but an authorization issues a receipt or posts spending. */
  lemma OthersIssueNothing(b: Books, budget: int, a: Action)
    requires SameSize(b) && Inv(b.core, budget) && Step(b.core, a).Some? && !a.AuthorizeAction?
    ensures var after := Post(b, a);
      && after.core.receipts == b.core.receipts && b.spent <= after.spent
      && (forall i :: |b.spent| <= i < |after.spent| ==> after.spent[i] == 0)
  {
  }

  lemma OtherStaysPaid(b: Books, budget: int, a: Action, branch: int)
    requires Balanced(b) && Inv(b.core, budget) && Step(b.core, a).Some? && !a.AuthorizeAction? && Paid(b, branch)
    ensures SameSize(Post(b, a)) && Paid(Post(b, a), branch)
  {
    var after := Post(b, a);
    PostBalances(b, budget, a);
    OthersIssueNothing(b, budget, a);
    ParentsStay(b.core, budget, a);
    ReceiptsKnown(b.core, budget);
    MarksStable(b.core, after.core, branch);
    assert ReceiptMarks(after.core, branch)[..|b.core.receipts|] == ReceiptMarks(after.core, branch);
    SpentStable(b, after, branch);
  }

  lemma ParentsStay(s: State, budget: int, a: Action)
    requires Inv(s, budget)
    ensures SameParents(s.leases, After(s, a).leases)
  {
    StepAdvances(s, budget, a);
  }

  lemma ReceiptsKnown(s: State, budget: int)
    requires Inv(s, budget)
    ensures forall k :: 0 <= k < |s.receipts| ==> s.receipts[k].lease <= |s.leases|
  {
    forall k | 0 <= k < |s.receipts| ensures s.receipts[k].lease <= |s.leases| {
      assert ReceiptAt(s.receipts, s.leases, k);
    }
  }

  lemma AuthorizeIssuesOne(s: State, lease: int, cost: int)
    requires Identified(s) && Authorize(s, lease, cost).Some?
    ensures var after := Authorize(s, lease, cost).value;
      && 1 <= lease <= |s.leases| && 1 <= cost
      && |after.receipts| == |s.receipts| + 1 && s.receipts <= after.receipts
      && after.receipts[|s.receipts|].lease == lease
  {
    LookupLease(s, lease);
  }

  lemma AuthorizeStaysPaid(b: Books, budget: int, lease: int, cost: int, branch: int)
    requires Balanced(b) && Inv(b.core, budget) && Authorize(b.core, lease, cost).Some? && Paid(b, branch)
    ensures SameSize(Post(b, AuthorizeAction(lease, cost))) && Paid(Post(b, AuthorizeAction(lease, cost)), branch)
  {
    var a := AuthorizeAction(lease, cost);
    var after, n := Post(b, a), |b.core.receipts|;
    AuthorizeEntry(b, lease, cost);
    AuthorizeIssuesOne(b.core, lease, cost);
    ReceiptsKnown(b.core, budget);
    MarksStable(b.core, after.core, branch);
    BranchStable(b.core.leases, after.core.leases, lease, branch);
    var mark := ReceiptMarks(after.core, branch)[n];
    assert ReceiptMarks(after.core, branch) == ReceiptMarks(b.core, branch) + [mark];
    SumAppend(ReceiptMarks(b.core, branch), mark);
    SpentCharged(b, after, lease, cost, branch);
  }

  lemma SpentCharged(b: Books, after: Books, lease: int, cost: int, branch: int)
    requires SameSize(b) && SameSize(after) && SameParents(b.core.leases, after.core.leases)
    requires |after.spent| == |b.spent| && 1 <= lease <= |b.spent|
    requires after.spent == b.spent[lease - 1 := b.spent[lease - 1] + cost]
    ensures Sum(SpentIn(after, branch)) ==
      Sum(SpentIn(b, branch)) + if InBranch(b.core.leases, lease, branch) then cost else 0
  {
    var was, now := SpentIn(b, branch), SpentIn(after, branch);
    var added := was[lease - 1] + if InBranch(b.core.leases, lease, branch) then cost else 0;
    forall i | 0 <= i < |was| ensures now[i] == was[lease - 1 := added][i] {
      BranchStable(b.core.leases, after.core.leases, i + 1, branch);
    }
    assert now == was[lease - 1 := added];
    SumUpdate(was, lease - 1, added);
  }

  lemma {:induction false} RunStaysPaid(shares: seq<int>, actions: seq<Action>, branch: int)
    requires forall w :: 0 <= w < |shares| ==> 0 <= shares[w]
    ensures SameSize(KeepBooks(shares, actions)) && Paid(KeepBooks(shares, actions), branch)
  {
    if actions != [] {
      var n := |actions| - 1;
      var b, a := KeepBooks(shares, actions[..n]), actions[n];
      RunStaysPaid(shares, actions[..n], branch);
      RunBalances(shares, actions[..n]);
      BooksFollowRun(shares, actions[..n]);
      RunInv(shares, actions[..n]);
      if Step(b.core, a).None? {
        RefusedBalances(b, a);
      } else if a.AuthorizeAction? {
        AuthorizeStaysPaid(b, Sum(shares), a.lease, a.cost, branch);
      } else {
        OtherStaysPaid(b, Sum(shares), a, branch);
      }
    }
  }

  /**
   * In every run and for every lease: claims honoured in its branch <= receipts issued in it <= rights
   * spent in it <= rights the lease was created with.
   */
  lemma BranchEffectsAreBounded(shares: seq<int>, actions: seq<Action>, branch: int)
    requires forall w :: 0 <= w < |shares| ==> 0 <= shares[w]
    requires 1 <= branch <= |Run(InitialState(shares), actions).leases|
    ensures var b := KeepBooks(shares, actions);
      && b.core == Run(InitialState(shares), actions) && SameSize(b)
      && Sum(ClaimMarks(b.core, branch)) <= Sum(ReceiptMarks(b.core, branch)) <= Sum(SpentIn(b, branch)) <= b.granted[branch - 1]
  {
    BooksFollowRun(shares, actions);
    RunStaysPaid(shares, actions, branch);
    BranchNeverOverspends(shares, actions, branch);
    var b := KeepBooks(shares, actions);
    SumMonotone(ClaimMarks(b.core, branch), ReceiptMarks(b.core, branch));
  }
}
