/**
 * What the bounded checker explores: the states within n steps of its successor function are exactly
 * the ends of runs of at most n attempts that keep the tables and the amounts within the bounds.
 */
module EscrowExplored {
  import opened Common
  import opened Escrow
  import opened EscrowInvariant
  import opened EscrowJournal
  import opened Reachability
  import opened EscrowSearch

  // ---- runs within the bounds ----

  predicate OnItsWay(t: Transfer) {
    t.kind.LeaseKind? && t.status.Prepared?
  }

  function Marks(transfers: seq<Transfer>): seq<int> {
    seq(|transfers|, k requires 0 <= k < |transfers| => if OnItsWay(transfers[k]) then 1 else 0)
  }

  /** Leases there are and leases on their way, vouchers and receipts stay within the bounds. */
  predicate FitsBounds(b: Bounds, s: State) {
    && |s.leases| + Sum(Marks(s.transfers)) <= b.maxLeases
    && |s.transfers| <= b.maxTransfers
    && |s.receipts| <= b.maxReceipts
  }

  /** The amounts an explored action may have, and the wardens it may name. */
  predicate Small(b: Bounds, a: Action) {
    match a
    case IssueRootAction(_, amount) => amount <= b.maxAmount
    case SpawnAction(_, amount) => amount <= b.maxAmount
    case SpawnRemoteAction(_, _, amount) => amount <= b.maxAmount
    case AuthorizeAction(_, cost) => cost <= b.maxAmount
    case PrepareAction(_, target, amount) => amount <= b.maxAmount && target < |b.shares|
    case _ => true
  }

  predicate Bounded(b: Bounds, actions: seq<Action>) {
    && (forall i :: 0 <= i < |actions| ==> Small(b, actions[i]))
    && (forall i :: 0 <= i <= |actions| ==> FitsBounds(b, Run(InitialState(b.shares), actions[..i])))
  }

  ghost predicate EndsBounded(b: Bounds, n: nat, s: State) {
    exists actions :: |actions| <= n && Bounded(b, actions) && Run(InitialState(b.shares), actions) == s
  }

  // ---- counting ----

  lemma {:induction false} PendingIsMarked(transfers: seq<Transfer>)
    ensures PendingRemote(transfers) == Sum(Marks(transfers))
  {
    if transfers == [] {
      assert Marks(transfers) == [];
    } else {
      var n := |transfers| - 1;
      PendingIsMarked(transfers[..n]);
      assert Marks(transfers)[..n] == Marks(transfers[..n]);
    }
  }

  /** How many leases, there or on their way, an action let through adds. */
  function Grows(a: Action): int {
    if a.IssueRootAction? || a.SpawnAction? || a.SpawnRemoteAction? then 1 else 0
  }

  lemma MarksSent(s: State, a: Action, t: State)
    requires Identified(s) && VouchersEntered(s, a, t) && !a.AcceptAction? && !a.FinalizeAction?
    ensures Sum(Marks(t.transfers)) == Sum(Marks(s.transfers)) + Sum(Marks(NewVouchers(s, a)))
  {
    forall k | 0 <= k < |s.transfers| ensures t.transfers[k] == s.transfers[k] {
      assert VoucherEntry(s.transfers[k], a, t.transfers[k]);
    }
    assert t.transfers == s.transfers + NewVouchers(s, a);
    assert Marks(t.transfers) == Marks(s.transfers) + Marks(NewVouchers(s, a));
    SumConcat(Marks(s.transfers), Marks(NewVouchers(s, a)));
  }

  lemma MarksSettled(s: State, a: Action, t: State)
    requires Identified(s) && VouchersEntered(s, a, t) && (a.AcceptAction? || a.FinalizeAction?)
    requires 1 <= a.transfer <= |s.transfers| && (a.FinalizeAction? ==> !s.transfers[a.transfer - 1].status.Prepared?)
    ensures |t.transfers| == |s.transfers|
    ensures Sum(Marks(t.transfers)) == Sum(Marks(s.transfers)) -
      if a.AcceptAction? && OnItsWay(s.transfers[a.transfer - 1]) then 1 else 0
  {
    var k := a.transfer - 1;
    forall j | 0 <= j < |s.transfers| ensures j != k ==> t.transfers[j] == s.transfers[j] {
      assert VoucherEntry(s.transfers[j], a, t.transfers[j]);
    }
    assert VoucherEntry(s.transfers[k], a, t.transfers[k]) && s.transfers[k].id == k + 1;
    assert Marks(t.transfers) == Marks(s.transfers)[k := 0];
    SumUpdate(Marks(s.transfers), k, 0);
  }

  lemma CreatingSize(s: State, budget: int, a: Action)
    requires Inv(s, budget) && Permitted(s, a) && !a.AcceptAction? && !a.FinalizeAction?
    ensures |After(s, a).leases| + Sum(Marks(After(s, a).transfers)) == |s.leases| + Sum(Marks(s.transfers)) + Grows(a)
    ensures |After(s, a).transfers| == |s.transfers| + if a.PrepareAction? || a.SpawnRemoteAction? then 1 else 0
  {
    EntryIsExact(s, budget, a);
    if Drawn(a).Some? {
      AffordsExactly(s, Drawn(a).value.0, Drawn(a).value.1);
    }
    MarksSent(s, a, After(s, a));
    assert Marks([]) == [];
    if NewVouchers(s, a) != [] {
      var v := NewVouchers(s, a)[0];
      assert Marks([v]) == [] + [if OnItsWay(v) then 1 else 0];
      SumAppend([], if OnItsWay(v) then 1 else 0);
    }
  }

  lemma SettlingSize(s: State, budget: int, a: Action)
    requires Inv(s, budget) && Permitted(s, a) && (a.AcceptAction? || a.FinalizeAction?)
    ensures |After(s, a).leases| + Sum(Marks(After(s, a).transfers)) == |s.leases| + Sum(Marks(s.transfers)) + Grows(a)
    ensures |After(s, a).transfers| == |s.transfers|
  {
    EntryIsExact(s, budget, a);
    MarksSettled(s, a, After(s, a));
    assert NewLeases(s, a) == [] || |NewLeases(s, a)| == 1;
    assert |NewLeases(s, a)| == 1 <==> (a.AcceptAction? && OnItsWay(s.transfers[a.transfer - 1]));
  }

  lemma ReceiptsSize(s: State, budget: int, a: Action)
    requires Inv(s, budget) && Permitted(s, a)
    ensures |After(s, a).receipts| == |s.receipts| + if a.AuthorizeAction? then 1 else 0
  {
    EntryIsExact(s, budget, a);
    if a.AuthorizeAction? {
      AffordsExactly(s, a.lease, a.cost);
    }
  }

  /** There was room for an enabled action exactly when its outcome fits. */
  lemma RoomExactly(b: Bounds, s: State, budget: int, a: Action)
    requires Inv(s, budget) && Permitted(s, a) && FitsBounds(b, s) && |s.pools| == |b.shares|
    ensures Allowed(s, b, a) <==> Small(b, a) && FitsBounds(b, After(s, a))
  {
    PendingIsMarked(s.transfers);
    ReceiptsSize(s, budget, a);
    if a.AcceptAction? || a.FinalizeAction? {
      SettlingSize(s, budget, a);
    } else {
      CreatingSize(s, budget, a);
    }
  }

  // ---- runs and steps ----

  lemma PoolsKept(s: State, budget: int, a: Action)
    requires Inv(s, budget)
    ensures |After(s, a).pools| == |s.pools|
  {
    EntryIsExact(s, budget, a);
  }

  lemma BoundedGrows(b: Bounds, actions: seq<Action>, a: Action)
    requires Bounded(b, actions) && Small(b, a) && FitsBounds(b, After(Run(InitialState(b.shares), actions), a))
    ensures Bounded(b, actions + [a])
    ensures Run(InitialState(b.shares), actions + [a]) == After(Run(InitialState(b.shares), actions), a)
  {
    var longer := actions + [a];
    assert longer[..|actions|] == actions;
    forall i | 0 <= i <= |longer| ensures FitsBounds(b, Run(InitialState(b.shares), longer[..i])) {
      if i <= |actions| {
        assert longer[..i] == actions[..i];
      } else {
        assert longer[..i] == longer;
      }
    }
  }

  lemma BoundedPrefix(b: Bounds, actions: seq<Action>, n: nat)
    requires Bounded(b, actions) && n <= |actions|
    ensures Bounded(b, actions[..n])
  {
    forall i | 0 <= i <= n ensures FitsBounds(b, Run(InitialState(b.shares), actions[..n][..i])) {
      assert actions[..n][..i] == actions[..i];
    }
  }

  /** What the search knows of a state it has reached. */
  ghost predicate Known(b: Bounds, s: State) {
    Sound(b, s) && FitsBounds(b, s) && |s.pools| == |b.shares|
  }

  lemma StepExplored(b: Bounds, y: State, s: State) returns (a: Action)
    requires Known(b, y) && Follows(EscrowProblem(b), y, s)
    ensures s == After(y, a) && Small(b, a) && Known(b, s)
  {
    var edges := EscrowProblem(b).succ(y);
    assert edges == Successors(y, b);
    var i :| 0 <= i < |edges| && edges[i].1 == s;
    a := Candidates(y, b)[i];
    ListedIsEnabled(y, b, Sum(b.shares), a);
    PermissionExactly(y, Sum(b.shares), a);
    RoomExactly(b, y, Sum(b.shares), a);
    PoolsKept(y, Sum(b.shares), a);
    SuccessorInv(b, y, s);
  }

  ghost predicate Explored(b: Bounds, n: nat, s: State) {
    Known(b, s) && EndsBounded(b, n, s)
  }

  lemma ExploredEnds(b: Bounds, n: nat, s: State)
    requires (forall w :: 0 <= w < |b.shares| ==> 0 <= b.shares[w]) && s in Within(EscrowProblem(b), n)
    ensures Explored(b, n, s)
  {
    var p, inv := EscrowProblem(b), (k: nat, x: State) => Explored(b, k, x);
    NothingDone(b);
    forall k: nat, y | inv(k, y) ensures inv(k + 1, y) {
      EndsLater(b, k, y);
    }
    forall k: nat, y, z | inv(k, y) && Follows(p, y, z) ensures inv(k + 1, z) {
      NextExplored(b, k, y, z);
    }
    LayersHold(p, inv, n, s);
  }

  lemma NextExplored(b: Bounds, n: nat, y: State, s: State)
    requires Explored(b, n, y) && Follows(EscrowProblem(b), y, s)
    ensures Explored(b, n + 1, s)
  {
    var a := StepExplored(b, y, s);
    ExtendEnd(b, n, y, a);
  }

  lemma EndsLater(b: Bounds, n: nat, s: State)
    requires EndsBounded(b, n, s)
    ensures EndsBounded(b, n + 1, s)
  {
    var actions :| |actions| <= n && Bounded(b, actions) && Run(InitialState(b.shares), actions) == s;
    assert |actions| <= n + 1;
  }

  lemma ExtendEnd(b: Bounds, n: nat, y: State, a: Action)
    requires EndsBounded(b, n, y) && Small(b, a) && FitsBounds(b, After(y, a))
    ensures EndsBounded(b, n + 1, After(y, a))
  {
    var actions :| |actions| <= n && Bounded(b, actions) && Run(InitialState(b.shares), actions) == y;
    BoundedGrows(b, actions, a);
    assert |actions + [a]| <= n + 1;
  }

  lemma NothingDone(b: Bounds)
    requires forall w :: 0 <= w < |b.shares| ==> 0 <= b.shares[w]
    ensures EndsBounded(b, 0, InitialState(b.shares)) && Known(b, InitialState(b.shares))
  {
    var none: seq<Action> := [];
    assert Marks([]) == [];
    InitialInv(b.shares);
    assert none[..0] == none;
    assert Bounded(b, none) && Run(InitialState(b.shares), none) == InitialState(b.shares);
  }

  lemma TargetsKept(b: Bounds, s: State, a: Action)
    requires Inv(s, Sum(b.shares)) && TargetsInRange(s) && |s.pools| == |b.shares| && Small(b, a)
    ensures TargetsInRange(After(s, a)) && |After(s, a).pools| == |b.shares|
  {
    var t := After(s, a);
    EntryIsExact(s, Sum(b.shares), a);
    if Permitted(s, a) {
      forall k | 0 <= k < |t.transfers| ensures t.transfers[k].target < |t.pools| {
        if k < |s.transfers| {
          assert VoucherEntry(s.transfers[k], a, t.transfers[k]);
        } else {
          assert t.transfers[k] == t.transfers[|s.transfers|..][k - |s.transfers|];
        }
      }
    }
  }

  lemma {:induction false} BoundedKnown(b: Bounds, actions: seq<Action>)
    requires forall w :: 0 <= w < |b.shares| ==> 0 <= b.shares[w]
    requires Bounded(b, actions)
    ensures Known(b, Run(InitialState(b.shares), actions))
  {
    RunInv(b.shares, actions);
    assert actions[..|actions|] == actions;
    if actions != [] {
      var n := |actions| - 1;
      BoundedPrefix(b, actions, n);
      BoundedKnown(b, actions[..n]);
      TargetsKept(b, Run(InitialState(b.shares), actions[..n]), actions[n]);
    }
  }

  lemma AttemptFollows(b: Bounds, y: State, a: Action)
    requires Known(b, y) && Small(b, a) && FitsBounds(b, After(y, a))
    ensures StaysOrFollows(EscrowProblem(b), y, After(y, a))
  {
    if Step(y, a).Some? {
      PermissionExactly(y, Sum(b.shares), a);
      RoomExactly(b, y, Sum(b.shares), a);
      EnabledIsListed(y, b, a);
      var i :| 0 <= i < |Candidates(y, b)| && Candidates(y, b)[i] == a;
      assert EscrowProblem(b).succ(y) == Successors(y, b);
      assert Successors(y, b)[i].1 == After(y, a);
    }
  }

  lemma PrefixFollows(b: Bounds, actions: seq<Action>, i: nat)
    requires forall w :: 0 <= w < |b.shares| ==> 0 <= b.shares[w]
    requires Bounded(b, actions) && 0 < i <= |actions|
    ensures StaysOrFollows(EscrowProblem(b), Run(InitialState(b.shares), actions[..i - 1]), Run(InitialState(b.shares), actions[..i]))
  {
    BoundedPrefix(b, actions, i - 1);
    BoundedKnown(b, actions[..i - 1]);
    assert actions[..i][..i - 1] == actions[..i - 1];
    AttemptFollows(b, Run(InitialState(b.shares), actions[..i - 1]), actions[i - 1]);
  }

  lemma EndsExplored(b: Bounds, actions: seq<Action>, n: nat)
    requires forall w :: 0 <= w < |b.shares| ==> 0 <= b.shares[w]
    requires Bounded(b, actions) && |actions| <= n
    ensures Run(InitialState(b.shares), actions) in Within(EscrowProblem(b), n)
  {
    var chain := seq(|actions| + 1, i requires 0 <= i <= |actions| => Run(InitialState(b.shares), actions[..i]));
    assert actions[..|actions|] == actions;
    forall i | 0 < i < |chain| ensures StaysOrFollows(EscrowProblem(b), chain[i - 1], chain[i]) {
      PrefixFollows(b, actions, i);
    }
    ChainWithin(EscrowProblem(b), chain, n);
  }

  /**
   * For every choice of bounds, the checker visits within n steps exactly the states in which runs of
   * at most n attempts end that never outgrow the bounds and never ask for more than the amount bound.
   */
  lemma ExploredExactly(b: Bounds, n: nat, s: State)
    requires forall w :: 0 <= w < |b.shares| ==> 0 <= b.shares[w]
    ensures s in Within(EscrowProblem(b), n) <==> EndsBounded(b, n, s)
  {
    if s in Within(EscrowProblem(b), n) {
      ExploredEnds(b, n, s);
    }
    if EndsBounded(b, n, s) {
      var actions :| |actions| <= n && Bounded(b, actions) && Run(InitialState(b.shares), actions) == s;
      EndsExplored(b, actions, n);
    }
  }
}
