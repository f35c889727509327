/**
 * Conservation warden by warden.  What a warden holds in its pool and in its leases, what its leases
 * have spent, and everything it has sent away, add up to its share and what has arrived: rights
 * move from one warden to another only under a voucher.
 */
module EscrowWardens {
  import opened Common
  import opened Escrow
  import opened EscrowInvariant
  import opened EscrowBranch
  import opened EscrowJournal

  /** What each lease at warden `w` still holds and has spent. */
  function WorkAt(b: Books, w: nat): seq<int>
    requires SameSize(b)
  {
    seq(|b.spent|, i requires 0 <= i < |b.spent| =>
      if b.core.leases[i].warden == w then b.core.leases[i].residual + b.spent[i] else 0)
  }

  /** The amounts of all vouchers sent by `w`. */
  function SentBy(transfers: seq<Transfer>, w: nat): seq<int> {
    seq(|transfers|, k requires 0 <= k < |transfers| => if transfers[k].source == w then transfers[k].amount else 0)
  }

  /** The amounts of the vouchers that have arrived at `w`. */
  function ArrivedAt(transfers: seq<Transfer>, w: nat): seq<int> {
    seq(|transfers|, k requires 0 <= k < |transfers| =>
      if transfers[k].target == w && !transfers[k].status.Prepared? then transfers[k].amount else 0)
  }

  /** Left side of the balance of `w`, less what has arrived. */
  function Share(b: Books, w: nat): int
    requires SameSize(b) && w < |b.core.pools|
  {
    b.core.pools[w] + Sum(WorkAt(b, w)) + Sum(SentBy(b.core.transfers, w)) - Sum(ArrivedAt(b.core.transfers, w))
  }

  // ---- what each table contributes ----

  lemma SentOne(ts: seq<Transfer>, t: Transfer, w: nat)
    requires t.status.Prepared?
    ensures Sum(SentBy(ts + [t], w)) == Sum(SentBy(ts, w)) + if t.source == w then t.amount else 0
    ensures Sum(ArrivedAt(ts + [t], w)) == Sum(ArrivedAt(ts, w))
  {
    var x := if t.source == w then t.amount else 0;
    assert SentBy(ts + [t], w) == SentBy(ts, w) + [x];
    SumAppend(SentBy(ts, w), x);
    assert ArrivedAt(ts + [t], w) == ArrivedAt(ts, w) + [0];
    SumAppend(ArrivedAt(ts, w), 0);
  }

  lemma ArrivedOne(ts: seq<Transfer>, us: seq<Transfer>, k: nat, w: nat)
    requires k < |ts| && ts[k].status.Prepared? && us == ts[k := ts[k].(status := Accepted)]
    ensures Sum(SentBy(us, w)) == Sum(SentBy(ts, w))
    ensures Sum(ArrivedAt(us, w)) == Sum(ArrivedAt(ts, w)) + if ts[k].target == w then ts[k].amount else 0
  {
    var x := if ts[k].target == w then ts[k].amount else 0;
    assert SentBy(us, w) == SentBy(ts, w);
    assert ArrivedAt(us, w) == ArrivedAt(ts, w)[k := x];
    SumUpdate(ArrivedAt(ts, w), k, x);
  }

  /** A table of vouchers on which only the step from accepted to finalized differs. */
  lemma VouchersAlike(ts: seq<Transfer>, us: seq<Transfer>, w: nat)
    requires |us| == |ts|
    requires forall k :: 0 <= k < |ts| ==>
      us[k] == ts[k].(status := us[k].status) && (us[k].status.Prepared? <==> ts[k].status.Prepared?)
    ensures Sum(SentBy(us, w)) == Sum(SentBy(ts, w)) && Sum(ArrivedAt(us, w)) == Sum(ArrivedAt(ts, w))
  {
    assert SentBy(us, w) == SentBy(ts, w);
    assert ArrivedAt(us, w) == ArrivedAt(ts, w);
  }

  /** One lease changes, at the same warden. */
  lemma WorkTouched(b: Books, after: Books, p: nat, w: nat)
    requires SameSize(b) && SameSize(after) && p < |b.spent| == |after.spent|
    requires after.core.leases[p].warden == b.core.leases[p].warden
    requires forall i :: 0 <= i < |b.spent| && i != p ==>
      after.core.leases[i] == b.core.leases[i] && after.spent[i] == b.spent[i]
    ensures Sum(WorkAt(after, w)) == Sum(WorkAt(b, w)) +
      if b.core.leases[p].warden == w
      then after.core.leases[p].residual + after.spent[p] - b.core.leases[p].residual - b.spent[p] else 0
  {
    assert WorkAt(after, w) == WorkAt(b, w)[p := WorkAt(after, w)[p]];
    SumUpdate(WorkAt(b, w), p, WorkAt(after, w)[p]);
  }

  lemma WorkAdded(b: Books, after: Books, l: Lease, w: nat)
    requires SameSize(b) && SameSize(after)
    requires after.core.leases == b.core.leases + [l] && after.spent == b.spent + [0]
    ensures Sum(WorkAt(after, w)) == Sum(WorkAt(b, w)) + if l.warden == w then l.residual else 0
  {
    var x := if l.warden == w then l.residual else 0;
    assert WorkAt(after, w) == WorkAt(b, w) + [x];
    SumAppend(WorkAt(b, w), x);
  }

  lemma WorkAlike(b: Books, after: Books, w: nat)
    requires SameSize(b) && SameSize(after) && after.core.leases == b.core.leases && after.spent == b.spent
    ensures Sum(WorkAt(after, w)) == Sum(WorkAt(b, w))
  {
    assert WorkAt(after, w) == WorkAt(b, w);
  }

  // ---- each action ----

  /** The tables an action leaves alone, read off the journal. */
  lemma Unmoved(s: State, a: Action, t: State)
    requires Entered(s, a, t)
    ensures NewLeases(s, a) == [] && Drawn(a).None? && !a.CloseAction? ==> t.leases == s.leases
    ensures NewVouchers(s, a) == [] && !a.AcceptAction? && !a.FinalizeAction? ==> t.transfers == s.transfers
  {
    if NewLeases(s, a) == [] && Drawn(a).None? && !a.CloseAction? {
      forall i | 0 <= i < |s.leases| ensures t.leases[i] == s.leases[i] {
        assert LeaseEntry(s.leases[i], a, t.leases[i]);
      }
      assert |t.leases| == |s.leases|;
    }
    if NewVouchers(s, a) == [] && !a.AcceptAction? && !a.FinalizeAction? {
      forall k | 0 <= k < |s.transfers| ensures t.transfers[k] == s.transfers[k] {
        assert VoucherEntry(s.transfers[k], a, t.transfers[k]);
      }
      assert |t.transfers| == |s.transfers|;
    }
  }

  lemma IssueRootShares(b: Books, budget: int, a: Action, w: nat)
    requires SameSize(b) && Inv(b.core, budget) && a.IssueRootAction? && Permitted(b.core, a) && w < |b.core.pools|
    ensures SameSize(Post(b, a)) && w < |Post(b, a).core.pools| && Share(Post(b, a), w) == Share(b, w)
  {
    EntryIsExact(b.core, budget, a);
    CreatedEntry(b, a);
    Unmoved(b.core, a, After(b.core, a));
    WorkAdded(b, Post(b, a), NewLeases(b.core, a)[0], w);
    assert PoolEntry(b.core, a, w) == if a.warden == w then -a.amount else 0;
  }

  lemma SpawnShares(b: Books, budget: int, a: Action, w: nat)
    requires SameSize(b) && Inv(b.core, budget) && a.SpawnAction? && Permitted(b.core, a) && w < |b.core.pools|
    ensures SameSize(Post(b, a)) && w < |Post(b, a).core.pools| && Share(Post(b, a), w) == Share(b, w)
  {
    EntryIsExact(b.core, budget, a);
    AffordsExactly(b.core, a.parent, a.amount);
    var p, t, after := a.parent - 1, After(b.core, a), Post(b, a);
    CreatedEntry(b, a);
    Unmoved(b.core, a, t);
    var mid := b.(core := b.core.(leases := t.leases[..|b.core.leases|]));
    DrawnAt(b.core, a, t, a.parent);
    WorkTouched(b, mid, p, w);
    assert after.core.leases == mid.core.leases + [NewLeases(b.core, a)[0]];
    WorkAdded(mid, after, NewLeases(b.core, a)[0], w);
  }

  /** Of the older leases only the one drawn on differs. */
  lemma DrawnAt(s: State, a: Action, t: State, id: int)
    requires Identified(s) && LeasesEntered(s, a, t) && Drawn(a).Some? && Drawn(a).value.0 == id && 1 <= id <= |s.leases|
    ensures forall i :: 0 <= i < |s.leases| && i != id - 1 ==> t.leases[i] == s.leases[i]
    ensures var l := s.leases[id - 1];
      t.leases[id - 1] == l.(residual := l.residual - Drawn(a).value.1, sequence := l.sequence + 1)
  {
    forall i | 0 <= i < |s.leases| && i != id - 1 ensures t.leases[i] == s.leases[i] {
      assert LeaseEntry(s.leases[i], a, t.leases[i]);
    }
    assert LeaseEntry(s.leases[id - 1], a, t.leases[id - 1]);
  }

  lemma SpawnRemoteShares(b: Books, budget: int, a: Action, w: nat)
    requires SameSize(b) && Inv(b.core, budget) && a.SpawnRemoteAction? && Permitted(b.core, a) && w < |b.core.pools|
    ensures SameSize(Post(b, a)) && w < |Post(b, a).core.pools| && Share(Post(b, a), w) == Share(b, w)
  {
    EntryIsExact(b.core, budget, a);
    AffordsExactly(b.core, a.parent, a.amount);
    var t := After(b.core, a);
    assert |t.leases| == |b.core.leases|;
    NoEntry(b, a);
    DrawnAt(b.core, a, t, a.parent);
    WorkTouched(b, Post(b, a), a.parent - 1, w);
    VoucherSent(b.core, a, t);
    SentOne(b.core.transfers, NewVouchers(b.core, a)[0], w);
  }

  lemma VoucherSent(s: State, a: Action, t: State)
    requires VouchersEntered(s, a, t) && |NewVouchers(s, a)| == 1
    ensures t.transfers == s.transfers + [NewVouchers(s, a)[0]]
  {
    forall k | 0 <= k < |s.transfers| ensures t.transfers[k] == s.transfers[k] {
      assert VoucherEntry(s.transfers[k], a, t.transfers[k]);
    }
    assert t.transfers == t.transfers[..|s.transfers|] + t.transfers[|s.transfers|..];
  }

  lemma PrepareShares(b: Books, budget: int, a: Action, w: nat)
    requires SameSize(b) && Inv(b.core, budget) && a.PrepareAction? && Permitted(b.core, a) && w < |b.core.pools|
    ensures SameSize(Post(b, a)) && w < |Post(b, a).core.pools| && Share(Post(b, a), w) == Share(b, w)
  {
    EntryIsExact(b.core, budget, a);
    var t := After(b.core, a);
    Unmoved(b.core, a, t);
    NoEntry(b, a);
    WorkAlike(b, Post(b, a), w);
    VoucherSent(b.core, a, t);
    SentOne(b.core.transfers, NewVouchers(b.core, a)[0], w);
    assert PoolEntry(b.core, a, w) == if a.source == w then -a.amount else 0;
  }

  lemma AuthorizeShares(b: Books, budget: int, a: Action, w: nat)
    requires SameSize(b) && Inv(b.core, budget) && a.AuthorizeAction? && Permitted(b.core, a) && w < |b.core.pools|
    ensures SameSize(Post(b, a)) && w < |Post(b, a).core.pools| && Share(Post(b, a), w) == Share(b, w)
  {
    EntryIsExact(b.core, budget, a);
    AuthorizeEntry(b, a.lease, a.cost);
    WorkTouched(b, Post(b, a), a.lease - 1, w);
    assert PoolEntry(b.core, a, w) == 0;
  }

  lemma CloseShares(b: Books, budget: int, a: Action, w: nat)
    requires SameSize(b) && Inv(b.core, budget) && a.CloseAction? && Permitted(b.core, a) && w < |b.core.pools|
    ensures SameSize(Post(b, a)) && w < |Post(b, a).core.pools| && Share(Post(b, a), w) == Share(b, w)
  {
    EntryIsExact(b.core, budget, a);
    LookupLease(b.core, a.lease);
    var t, p := After(b.core, a), a.lease - 1;
    Unmoved(b.core, a, t);
    assert t.leases[|b.core.leases|..] == [];
    assert Residuals([]) == [] && Zeros(0) == [];
    forall i | 0 <= i < |b.core.leases| ensures LeaseEntry(b.core.leases[i], a, t.leases[i]) {
    }
    assert b.core.leases[p].id == a.lease;
    WorkTouched(b, Post(b, a), p, w);
  }

  lemma LeaseArrivalShares(b: Books, budget: int, a: Action, w: nat)
    requires SameSize(b) && Inv(b.core, budget) && a.AcceptAction? && Permitted(b.core, a) && w < |b.core.pools|
    requires NewLeases(b.core, a) != []
    ensures SameSize(Post(b, a)) && w < |Post(b, a).core.pools| && Share(Post(b, a), w) == Share(b, w)
  {
    EntryIsExact(b.core, budget, a);
    CreatedEntry(b, a);
    LeaseArrived(b.core, a, After(b.core, a));
    WorkAdded(b, Post(b, a), NewLeases(b.core, a)[0], w);
    VoucherArrived(b.core, a, After(b.core, a), w);
  }

  lemma PoolArrivalShares(b: Books, budget: int, a: Action, w: nat)
    requires SameSize(b) && Inv(b.core, budget) && a.AcceptAction? && Permitted(b.core, a) && w < |b.core.pools|
    requires NewLeases(b.core, a) == []
    ensures SameSize(Post(b, a)) && w < |Post(b, a).core.pools| && Share(Post(b, a), w) == Share(b, w)
  {
    EntryIsExact(b.core, budget, a);
    Unmoved(b.core, a, After(b.core, a));
    NoEntry(b, a);
    WorkAlike(b, Post(b, a), w);
    VoucherArrived(b.core, a, After(b.core, a), w);
  }

  lemma LeaseArrived(s: State, a: Action, t: State)
    requires LeasesEntered(s, a, t) && a.AcceptAction? && |NewLeases(s, a)| == 1
    ensures t.leases == s.leases + [NewLeases(s, a)[0]]
  {
    forall i | 0 <= i < |s.leases| ensures t.leases[i] == s.leases[i] {
      assert LeaseEntry(s.leases[i], a, t.leases[i]);
    }
    assert t.leases == t.leases[..|s.leases|] + t.leases[|s.leases|..];
  }

  lemma VoucherArrived(s: State, a: Action, t: State, w: nat)
    requires Identified(s) && VouchersEntered(s, a, t) && a.AcceptAction? && 1 <= a.transfer <= |s.transfers|
    ensures Sum(SentBy(t.transfers, w)) == Sum(SentBy(s.transfers, w))
    ensures var v := s.transfers[a.transfer - 1];
      Sum(ArrivedAt(t.transfers, w)) ==
      Sum(ArrivedAt(s.transfers, w)) + if v.status.Prepared? && v.target == w then v.amount else 0
  {
    var k := a.transfer - 1;
    forall j | 0 <= j < |s.transfers| ensures VoucherEntry(s.transfers[j], a, t.transfers[j]) {
    }
    assert |t.transfers| == |s.transfers|;
    if s.transfers[k].status.Prepared? {
      assert t.transfers == s.transfers[k := s.transfers[k].(status := Accepted)];
      ArrivedOne(s.transfers, t.transfers, k, w);
    } else {
      assert t.transfers == s.transfers;
    }
  }

  lemma SettledShares(b: Books, budget: int, a: Action, w: nat)
    requires SameSize(b) && Inv(b.core, budget) && (a.FinalizeAction? || a.ClaimAction?) && Permitted(b.core, a) && w < |b.core.pools|
    ensures SameSize(Post(b, a)) && w < |Post(b, a).core.pools| && Share(Post(b, a), w) == Share(b, w)
  {
    EntryIsExact(b.core, budget, a);
    var s, t := b.core, After(b.core, a);
    Unmoved(s, a, t);
    NoEntry(b, a);
    WorkAlike(b, Post(b, a), w);
    forall k | 0 <= k < |s.transfers|
      ensures t.transfers[k] == s.transfers[k].(status := t.transfers[k].status)
      ensures t.transfers[k].status.Prepared? <==> s.transfers[k].status.Prepared?
    {
      assert VoucherEntry(s.transfers[k], a, t.transfers[k]);
      assert s.transfers[k].id == k + 1;
    }
    VouchersAlike(s.transfers, t.transfers, w);
    assert PoolEntry(s, a, w) == 0;
  }

  lemma PostShares(b: Books, budget: int, a: Action, w: nat)
    requires SameSize(b) && Inv(b.core, budget) && w < |b.core.pools|
    ensures SameSize(Post(b, a)) && |Post(b, a).core.pools| == |b.core.pools| && Share(Post(b, a), w) == Share(b, w)
  {
    EntryIsExact(b.core, budget, a);
    if !Permitted(b.core, a) {
      RefusedBalances(b, a);
    } else {
      match a
      case IssueRootAction(_, _) => IssueRootShares(b, budget, a, w);
      case SpawnAction(_, _) => SpawnShares(b, budget, a, w);
      case SpawnRemoteAction(_, _, _) => SpawnRemoteShares(b, budget, a, w);
      case AuthorizeAction(_, _) => AuthorizeShares(b, budget, a, w);
      case CloseAction(_) => CloseShares(b, budget, a, w);
      case PrepareAction(_, _, _) => PrepareShares(b, budget, a, w);
      case AcceptAction(_) =>
        if NewLeases(b.core, a) == [] {
          PoolArrivalShares(b, budget, a, w);
        } else {
          LeaseArrivalShares(b, budget, a, w);
        }
      case FinalizeAction(_) => SettledShares(b, budget, a, w);
      case ClaimAction(_) => SettledShares(b, budget, a, w);
    }
  }

  lemma {:induction false} RunShares(shares: seq<int>, actions: seq<Action>, w: nat)
    requires (forall v :: 0 <= v < |shares| ==> 0 <= shares[v]) && w < |shares|
    ensures var b := KeepBooks(shares, actions);
      SameSize(b) && |b.core.pools| == |shares| && Share(b, w) == shares[w]
  {
    if actions == [] {
      var b := InitialBooks(shares);
      assert WorkAt(b, w) == [] && SentBy([], w) == [] && ArrivedAt([], w) == [];
    } else {
      var n := |actions| - 1;
      RunShares(shares, actions[..n], w);
      BooksFollowRun(shares, actions[..n]);
      RunInv(shares, actions[..n]);
      PostShares(KeepBooks(shares, actions[..n]), Sum(shares), actions[n], w);
    }
  }

  /**
   * In every run, for every warden: its pool, the residuals and the spending of its leases, and all
   * it has sent, add up to its share and all that has arrived.
   */
  lemma EveryWardenBalances(shares: seq<int>, actions: seq<Action>, w: nat)
    requires (forall v :: 0 <= v < |shares| ==> 0 <= shares[v]) && w < |shares|
    ensures var b := KeepBooks(shares, actions);
      && b.core == Run(InitialState(shares), actions) && SameSize(b) && |b.core.pools| == |shares|
      && b.core.pools[w] + Sum(WorkAt(b, w)) + Sum(SentBy(b.core.transfers, w)) ==
         shares[w] + Sum(ArrivedAt(b.core.transfers, w))
  {
    BooksFollowRun(shares, actions);
    RunShares(shares, actions, w);
  }
}
