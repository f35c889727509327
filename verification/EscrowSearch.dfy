/**
 * The bounded checker applied to the escrow model: the enumeration of successors under bounds,
 * proved to list exactly the enabled actions the bounds allow, and the verdict of the search,
 * which is a pass for every choice of bounds.
 */
module EscrowSearch {
  import opened Common
  import opened Escrow
  import opened EscrowInvariant
  import opened EscrowValidate
  import opened Reachability
  import opened Search

  datatype Bounds = Bounds(
    shares: seq<int>,
    maxLeases: nat,
    maxTransfers: nat,
    maxReceipts: nat,
    maxDepth: nat,
    maxAmount: nat)

  // ---- enumeration ----

  function Flatten(lists: seq<seq<Action>>): seq<Action> {
    if lists == [] then [] else Flatten(lists[..|lists| - 1]) + lists[|lists| - 1]
  }

  /** The actions for the amounts 1, 2, ..., up to the smaller of `held` and the bound. */
  function Amounts(held: int, bound: nat, make: int -> Action): seq<Action> {
    var top := if held < bound then held else bound;
    if top <= 0 then [] else seq(top, (i: nat) => make(i + 1))
  }

  function PendingRemote(transfers: seq<Transfer>): nat {
    if transfers == [] then 0 else
      var t := transfers[|transfers| - 1];
      PendingRemote(transfers[..|transfers| - 1]) + if t.kind.LeaseKind? && t.status.Prepared? then 1 else 0
  }

  function RootActions(s: State, b: Bounds, w: nat): seq<Action> {
    if w < |s.pools| then Amounts(s.pools[w], b.maxAmount, amount => IssueRootAction(w, amount)) else []
  }

  function SpawnActions(s: State, b: Bounds, i: nat): seq<Action> {
    if i < |s.leases| && s.leases[i].active then
      Amounts(s.leases[i].residual, b.maxAmount, amount => SpawnAction(s.leases[i].id, amount))
    else []
  }

  function RemoteActionsTo(s: State, b: Bounds, i: nat, target: nat): seq<Action> {
    if i < |s.leases| && s.leases[i].active && target != s.leases[i].warden then
      Amounts(s.leases[i].residual, b.maxAmount, amount => SpawnRemoteAction(s.leases[i].id, target, amount))
    else []
  }

  function RemoteLists(s: State, b: Bounds, i: nat): seq<seq<Action>> {
    seq(|s.pools|, target requires 0 <= target < |s.pools| => RemoteActionsTo(s, b, i, target))
  }

  function AuthorizeActions(s: State, b: Bounds, i: nat): seq<Action> {
    if i < |s.leases| && s.leases[i].active then
      Amounts(s.leases[i].residual, b.maxAmount, cost => AuthorizeAction(s.leases[i].id, cost))
    else []
  }

  function CloseActions(s: State, i: nat): seq<Action> {
    if i < |s.leases| && s.leases[i].active && !LiveChild(s.leases, s.leases[i].id)
       && !PendingRemoteChild(s.transfers, s.leases[i].id)
    then [CloseAction(s.leases[i].id)] else []
  }

  function PrepareActionsTo(s: State, b: Bounds, source: nat, target: nat): seq<Action> {
    if source < |s.pools| && source != target then
      Amounts(s.pools[source], b.maxAmount, amount => PrepareAction(source, target, amount))
    else []
  }

  function PrepareLists(s: State, b: Bounds, source: nat): seq<seq<Action>> {
    seq(|s.pools|, target requires 0 <= target < |s.pools| => PrepareActionsTo(s, b, source, target))
  }

  /** Every voucher may arrive, again and again; an accepted one may be finalized, again and again. */
  function TransferActions(s: State, k: nat): seq<Action> {
    if k >= |s.transfers| then []
    else if s.transfers[k].status.Prepared? then [AcceptAction(s.transfers[k].id)]
    else [AcceptAction(s.transfers[k].id), FinalizeAction(s.transfers[k].id)]
  }

  function ClaimActions(s: State, k: nat): seq<Action> {
    if k < |s.receipts| then [ClaimAction(s.receipts[k].id)] else []
  }

  function Roots(s: State, b: Bounds): seq<seq<Action>> {
    seq(|s.pools|, w requires 0 <= w < |s.pools| => RootActions(s, b, w))
  }

  function Spawns(s: State, b: Bounds): seq<seq<Action>> {
    seq(|s.leases|, i requires 0 <= i < |s.leases| => SpawnActions(s, b, i))
  }

  function Remotes(s: State, b: Bounds): seq<seq<Action>> {
    seq(|s.leases|, i requires 0 <= i < |s.leases| => Flatten(RemoteLists(s, b, i)))
  }

  function Authorizations(s: State, b: Bounds): seq<seq<Action>> {
    seq(|s.leases|, i requires 0 <= i < |s.leases| => AuthorizeActions(s, b, i))
  }

  function Closes(s: State): seq<seq<Action>> {
    seq(|s.leases|, i requires 0 <= i < |s.leases| => CloseActions(s, i))
  }

  function Prepares(s: State, b: Bounds): seq<seq<Action>> {
    seq(|s.pools|, w requires 0 <= w < |s.pools| => Flatten(PrepareLists(s, b, w)))
  }

  function Deliveries(s: State): seq<seq<Action>> {
    seq(|s.transfers|, k requires 0 <= k < |s.transfers| => TransferActions(s, k))
  }

  function Claims(s: State): seq<seq<Action>> {
    seq(|s.receipts|, k requires 0 <= k < |s.receipts| => ClaimActions(s, k))
  }

  function CreatingActions(s: State, b: Bounds): seq<Action> {
    if |s.leases| + PendingRemote(s.transfers) < b.maxLeases then
      Flatten(Roots(s, b)) + Flatten(Spawns(s, b))
      + (if |s.transfers| < b.maxTransfers then Flatten(Remotes(s, b)) else [])
    else []
  }

  function OtherActions(s: State, b: Bounds): seq<Action> {
    (if |s.receipts| < b.maxReceipts then Flatten(Authorizations(s, b)) else [])
    + Flatten(Closes(s))
    + (if |s.transfers| < b.maxTransfers then Flatten(Prepares(s, b)) else [])
    + Flatten(Deliveries(s))
    + Flatten(Claims(s))
  }

  function Candidates(s: State, b: Bounds): seq<Action> {
    CreatingActions(s, b) + OtherActions(s, b)
  }

  function Successors(s: State, b: Bounds): seq<(Action, State)> {
    var actions := Candidates(s, b);
    seq(|actions|, i requires 0 <= i < |actions| => (actions[i], After(s, actions[i])))
  }

  function EscrowProblem(b: Bounds): Problem<State, Action> {
    Problem(InitialState(b.shares), s => Successors(s, b), b.maxDepth)
  }

  // ---- what is enumerated ----

  lemma {:induction false} InFlatten(lists: seq<seq<Action>>, i: nat, a: Action)
    requires i < |lists| && a in lists[i]
    ensures a in Flatten(lists)
  {
    var n := |lists| - 1;
    if i < n {
      InFlatten(lists[..n], i, a);
    }
  }

  lemma {:induction false} FlattenSource(lists: seq<seq<Action>>, a: Action) returns (i: nat)
    requires a in Flatten(lists)
    ensures i < |lists| && a in lists[i]
  {
    var n := |lists| - 1;
    if a in lists[n] {
      i := n;
    } else {
      i := FlattenSource(lists[..n], a);
    }
  }

  lemma InAmounts(held: int, bound: nat, make: int -> Action, amount: int)
    requires 1 <= amount <= held && amount <= bound
    ensures make(amount) in Amounts(held, bound, make)
  {
    assert Amounts(held, bound, make)[amount - 1] == make(amount);
  }

  lemma AmountOf(held: int, bound: nat, make: int -> Action, a: Action) returns (amount: int)
    requires a in Amounts(held, bound, make)
    ensures 1 <= amount <= held && amount <= bound && a == make(amount)
  {
    var xs := Amounts(held, bound, make);
    var i :| 0 <= i < |xs| && xs[i] == a;
    amount := i + 1;
  }

  /** The actions the bounds leave room for. */
  predicate Allowed(s: State, b: Bounds, a: Action) {
    var room := |s.leases| + PendingRemote(s.transfers) < b.maxLeases;
    match a
    case IssueRootAction(_, amount) => room && amount <= b.maxAmount
    case SpawnAction(_, amount) => room && amount <= b.maxAmount
    case SpawnRemoteAction(_, _, amount) => room && |s.transfers| < b.maxTransfers && amount <= b.maxAmount
    case AuthorizeAction(_, cost) => |s.receipts| < b.maxReceipts && cost <= b.maxAmount
    case CloseAction(_) => true
    case PrepareAction(_, target, amount) =>
      |s.transfers| < b.maxTransfers && amount <= b.maxAmount && target < |s.pools|
    case AcceptAction(_) => true
    case FinalizeAction(_) => true
    case ClaimAction(_) => true
  }

  predicate TargetsInRange(s: State) {
    forall k :: 0 <= k < |s.transfers| ==> s.transfers[k].target < |s.pools|
  }

  lemma CreatingListed(s: State, b: Bounds, a: Action)
    requires Identified(s) && Allowed(s, b, a) && Step(s, a).Some?
    requires a.IssueRootAction? || a.SpawnAction?
    ensures a in CreatingActions(s, b)
  {
    if a.IssueRootAction? {
      InAmounts(s.pools[a.warden], b.maxAmount, x => IssueRootAction(a.warden, x), a.amount);
      InFlatten(Roots(s, b), a.warden, a);
    } else {
      LookupLease(s, a.parent);
      var i: nat := a.parent - 1;
      InAmounts(s.leases[i].residual, b.maxAmount, x => SpawnAction(s.leases[i].id, x), a.amount);
      assert a in SpawnActions(s, b, i);
      InFlatten(Spawns(s, b), i, a);
    }
  }

  lemma RemoteListed(s: State, b: Bounds, parent: int, target: nat, amount: int)
    requires Identified(s) && SpawnRemote(s, parent, target, amount).Some?
    requires Allowed(s, b, SpawnRemoteAction(parent, target, amount))
    ensures SpawnRemoteAction(parent, target, amount) in CreatingActions(s, b)
  {
    var a := SpawnRemoteAction(parent, target, amount);
    LookupLease(s, parent);
    var i: nat := parent - 1;
    InAmounts(s.leases[i].residual, b.maxAmount, x => SpawnRemoteAction(s.leases[i].id, target, x), amount);
    assert a in RemoteActionsTo(s, b, i, target);
    InFlatten(RemoteLists(s, b, i), target, a);
    InFlatten(Remotes(s, b), i, a);
  }

  lemma PrepareListed(s: State, b: Bounds, source: nat, target: nat, amount: int)
    requires PrepareTransfer(s, source, target, amount).Some?
    requires Allowed(s, b, PrepareAction(source, target, amount))
    ensures PrepareAction(source, target, amount) in OtherActions(s, b)
  {
    var a := PrepareAction(source, target, amount);
    InAmounts(s.pools[source], b.maxAmount, x => PrepareAction(source, target, x), amount);
    assert a in PrepareActionsTo(s, b, source, target);
    InFlatten(PrepareLists(s, b, source), target, a);
    InFlatten(Prepares(s, b), source, a);
  }

  lemma AuthorizeListed(s: State, b: Bounds, lease: int, cost: int)
    requires Identified(s) && Authorize(s, lease, cost).Some? && Allowed(s, b, AuthorizeAction(lease, cost))
    ensures AuthorizeAction(lease, cost) in OtherActions(s, b)
  {
    var a := AuthorizeAction(lease, cost);
    LookupLease(s, lease);
    var i: nat := lease - 1;
    InAmounts(s.leases[i].residual, b.maxAmount, x => AuthorizeAction(s.leases[i].id, x), cost);
    assert a in AuthorizeActions(s, b, i);
    InFlatten(Authorizations(s, b), i, a);
  }

  lemma SettlingListed(s: State, b: Bounds, a: Action)
    requires Identified(s) && Step(s, a).Some?
    requires a.CloseAction? || a.AcceptAction? || a.FinalizeAction? || a.ClaimAction?
    ensures a in OtherActions(s, b)
  {
    if a.CloseAction? {
      LookupLease(s, a.lease);
      assert a in CloseActions(s, a.lease - 1);
      InFlatten(Closes(s), a.lease - 1, a);
    } else if a.ClaimAction? {
      LookupReceipt(s, a.receipt);
      assert a in ClaimActions(s, a.receipt - 1);
      InFlatten(Claims(s), a.receipt - 1, a);
    } else {
      LookupTransfer(s, a.transfer);
      assert a in TransferActions(s, a.transfer - 1);
      InFlatten(Deliveries(s), a.transfer - 1, a);
    }
  }

  /** Nothing is missed: every enabled action the bounds allow is enumerated. */
  lemma EnabledIsListed(s: State, b: Bounds, a: Action)
    requires Identified(s) && Allowed(s, b, a) && Step(s, a).Some?
    ensures a in Candidates(s, b)
  {
    match a
    case IssueRootAction(_, _) => CreatingListed(s, b, a);
    case SpawnAction(_, _) => CreatingListed(s, b, a);
    case SpawnRemoteAction(parent, target, amount) => RemoteListed(s, b, parent, target, amount);
    case AuthorizeAction(lease, cost) => AuthorizeListed(s, b, lease, cost);
    case PrepareAction(source, target, amount) => PrepareListed(s, b, source, target, amount);
    case _ => SettlingListed(s, b, a);
  }

  lemma RootEnabled(s: State, b: Bounds, a: Action)
    requires |s.leases| + PendingRemote(s.transfers) < b.maxLeases && a in Flatten(Roots(s, b))
    ensures Step(s, a).Some? && Allowed(s, b, a)
  {
    var w := FlattenSource(Roots(s, b), a);
    var amount := AmountOf(s.pools[w], b.maxAmount, x => IssueRootAction(w, x), a);
  }

  lemma SpawnEnabled(s: State, b: Bounds, a: Action)
    requires Identified(s)
    requires |s.leases| + PendingRemote(s.transfers) < b.maxLeases && a in Flatten(Spawns(s, b))
    ensures Step(s, a).Some? && Allowed(s, b, a)
  {
    var i := FlattenSource(Spawns(s, b), a);
    assert a in SpawnActions(s, b, i);
    LookupLease(s, s.leases[i].id);
    var amount := AmountOf(s.leases[i].residual, b.maxAmount, x => SpawnAction(s.leases[i].id, x), a);
  }

  lemma RemoteEnabled(s: State, b: Bounds, a: Action)
    requires Identified(s) && |s.transfers| < b.maxTransfers
    requires |s.leases| + PendingRemote(s.transfers) < b.maxLeases && a in Flatten(Remotes(s, b))
    ensures Step(s, a).Some? && Allowed(s, b, a)
  {
    var i := FlattenSource(Remotes(s, b), a);
    var target := FlattenSource(RemoteLists(s, b, i), a);
    assert a in RemoteActionsTo(s, b, i, target);
    LookupLease(s, s.leases[i].id);
    var amount := AmountOf(s.leases[i].residual, b.maxAmount,
                           x => SpawnRemoteAction(s.leases[i].id, target, x), a);
  }

  lemma AuthorizeEnabled(s: State, b: Bounds, a: Action)
    requires Identified(s) && |s.receipts| < b.maxReceipts && a in Flatten(Authorizations(s, b))
    ensures Step(s, a).Some? && Allowed(s, b, a)
  {
    var i := FlattenSource(Authorizations(s, b), a);
    assert a in AuthorizeActions(s, b, i);
    LookupLease(s, s.leases[i].id);
    var cost := AmountOf(s.leases[i].residual, b.maxAmount, x => AuthorizeAction(s.leases[i].id, x), a);
  }

  lemma PrepareEnabled(s: State, b: Bounds, a: Action)
    requires |s.transfers| < b.maxTransfers && a in Flatten(Prepares(s, b))
    ensures Step(s, a).Some? && Allowed(s, b, a)
  {
    var w := FlattenSource(Prepares(s, b), a);
    var target := FlattenSource(PrepareLists(s, b, w), a);
    assert a in PrepareActionsTo(s, b, w, target);
    var amount := AmountOf(s.pools[w], b.maxAmount, x => PrepareAction(w, target, x), a);
  }

  lemma SettlingEnabled(s: State, b: Bounds, a: Action)
    requires Identified(s) && Lineage(s.leases, |s.pools|) && TargetsInRange(s)
    requires a in Flatten(Closes(s)) || a in Flatten(Deliveries(s)) || a in Flatten(Claims(s))
    ensures Step(s, a).Some? && Allowed(s, b, a)
  {
    if a in Flatten(Closes(s)) {
      var i := FlattenSource(Closes(s), a);
      assert a in CloseActions(s, i);
      LookupLease(s, s.leases[i].id);
    } else if a in Flatten(Deliveries(s)) {
      var k := FlattenSource(Deliveries(s), a);
      assert a in TransferActions(s, k);
      LookupTransfer(s, s.transfers[k].id);
    } else {
      var k := FlattenSource(Claims(s), a);
      assert a in ClaimActions(s, k);
      LookupReceipt(s, s.receipts[k].id);
    }
  }

  /** Nothing is invented: every enumerated action is enabled, so the enumeration never raises. */
  lemma ListedIsEnabled(s: State, b: Bounds, budget: int, a: Action)
    requires Inv(s, budget) && TargetsInRange(s) && a in Candidates(s, b)
    ensures Step(s, a).Some? && Allowed(s, b, a)
  {
    if a in CreatingActions(s, b) {
      if a in Flatten(Roots(s, b)) {
        RootEnabled(s, b, a);
      } else if a in Flatten(Spawns(s, b)) {
        SpawnEnabled(s, b, a);
      } else {
        RemoteEnabled(s, b, a);
      }
    } else if |s.receipts| < b.maxReceipts && a in Flatten(Authorizations(s, b)) {
      AuthorizeEnabled(s, b, a);
    } else if |s.transfers| < b.maxTransfers && a in Flatten(Prepares(s, b)) {
      PrepareEnabled(s, b, a);
    } else {
      SettlingEnabled(s, b, a);
    }
  }

  // ---- the search over the escrow model ----

  lemma TargetsStayInRange(s: State, b: Bounds, budget: int, a: Action)
    requires Inv(s, budget) && TargetsInRange(s) && a in Candidates(s, b)
    ensures TargetsInRange(After(s, a)) && |After(s, a).pools| == |s.pools|
  {
    ListedIsEnabled(s, b, budget, a);
    if a.AcceptAction? || a.FinalizeAction? {
      SettlingKeepsTargets(s, a);
    } else {
      OtherKeepsTargets(s, b, a);
    }
  }

  lemma OtherKeepsTargets(s: State, b: Bounds, a: Action)
    requires TargetsInRange(s) && Step(s, a).Some? && Allowed(s, b, a) && !a.AcceptAction? && !a.FinalizeAction?
    ensures TargetsInRange(After(s, a)) && |After(s, a).pools| == |s.pools|
  {
  }

  lemma SettlingKeepsTargets(s: State, a: Action)
    requires Identified(s) && TargetsInRange(s) && Step(s, a).Some? && (a.AcceptAction? || a.FinalizeAction?)
    ensures TargetsInRange(After(s, a)) && |After(s, a).pools| == |s.pools|
  {
    LookupTransfer(s, a.transfer);
    var t := s.transfers[a.transfer - 1];
    ReplaceTransferAt(s, a.transfer - 1, t.(status := Accepted));
    ReplaceTransferAt(s, a.transfer - 1, t.(status := Finalized));
  }

  ghost predicate Sound(b: Bounds, s: State) {
    Inv(s, Sum(b.shares)) && TargetsInRange(s)
  }

  lemma WithinInv(b: Bounds, n: nat, s: State)
    requires forall w :: 0 <= w < |b.shares| ==> 0 <= b.shares[w]
    requires s in Within(EscrowProblem(b), n)
    ensures Sound(b, s)
  {
    var p, sound := EscrowProblem(b), (x: State) => Sound(b, x);
    InitialInv(b.shares);
    forall y, z | sound(y) && Follows(p, y, z) ensures sound(z) {
      SuccessorInv(b, y, z);
    }
    InductiveHolds(p, sound, n, s);
  }

  lemma SuccessorInv(b: Bounds, before: State, s: State)
    requires Sound(b, before) && Follows(EscrowProblem(b), before, s)
    ensures Sound(b, s)
  {
    var edges := EscrowProblem(b).succ(before);
    assert edges == Successors(before, b);
    var i :| 0 <= i < |edges| && edges[i].1 == s;
    var a := Candidates(before, b)[i];
    assert s == After(before, a);
    StepKeeps(before, Sum(b.shares), a);
    TargetsStayInRange(before, b, Sum(b.shares), a);
  }

  /**
   * For every choice of bounds the checker passes: any right verdict of the search over the escrow
   * model and `validate` -- and `CheckModel` returns only right ones -- is a pass.
   */
  lemma CheckerAlwaysPasses(b: Bounds, verdict: Verdict<Action, Invariant>)
    requires forall w :: 0 <= w < |b.shares| ==> 0 <= b.shares[w]
    requires VerdictIsRight(EscrowProblem(b), (s: State) => FirstViolation(s, Sum(b.shares)), verdict)
    ensures verdict.Passed?
  {
    if verdict.Raised? {
      NothingWithinFails(b, 0, InitialState(b.shares));
    } else if verdict.Violated? {
      NoPathFails(b, verdict.trace, verdict.property);
    }
  }

  lemma NothingWithinFails(b: Bounds, n: nat, s: State)
    requires forall w :: 0 <= w < |b.shares| ==> 0 <= b.shares[w]
    requires s in Within(EscrowProblem(b), n)
    ensures FirstViolation(s, Sum(b.shares)) == None
  {
    WithinInv(b, n, s);
    InvIsValid(s, Sum(b.shares));
  }

  lemma NoPathFails(b: Bounds, trace: seq<Action>, property: Invariant)
    requires forall w :: 0 <= w < |b.shares| ==> 0 <= b.shares[w]
    ensures !Counterexample(EscrowProblem(b), (s: State) => FirstViolation(s, Sum(b.shares)), property, trace)
  {
    var p := EscrowProblem(b);
    forall bad | Path(p, p.init, trace, bad) ensures FirstViolation(bad, Sum(b.shares)) == None {
      PathHolds(b, trace, bad);
    }
  }

  lemma PathHolds(b: Bounds, trace: seq<Action>, s: State)
    requires forall w :: 0 <= w < |b.shares| ==> 0 <= b.shares[w]
    requires Path(EscrowProblem(b), EscrowProblem(b).init, trace, s)
    ensures FirstViolation(s, Sum(b.shares)) == None
  {
    PathFromStart(EscrowProblem(b), trace, s);
    NothingWithinFails(b, |trace|, s);
  }

  lemma PathFromStart<S(!new), L(!new)>(p: Problem<S, L>, trace: seq<L>, s: S)
    requires Path(p, p.init, trace, s)
    ensures s in Within(p, |trace|)
  {
    PathWithin(p, p.init, trace, s, 0);
  }
}
