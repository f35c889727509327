/**
 * What the reference system keeps over every interleaving of calls on its wardens and of transfers
 * between them: the ancestor index and the capabilities, frozen branches, sequence numbers, and the
 * assertions the source makes about amounts, with the exact condition under which those hold.
 */
module KernelSafety {
  import opened Common
  import opened KernelSpec
  import opened KernelInvariant
  import opened KernelGuarantees
  import opened KernelLineage
  import opened KernelProgress
  import opened KernelExactly
  import opened KernelSystem

  // ---- runs of the system, seen from one warden ----

  /** Transfers change a warden's pool and the transfers it has accepted, and nothing else. */
  ghost predicate OnlyPoolMoved(w: Warden, after: Warden) {
    after == w.(pool := after.pool, accepted := after.accepted)
  }

  lemma StepAtWarden(s: System, m: Move, id: string)
    requires id in s.wardens
    ensures Step(s, m).wardens.Keys == s.wardens.Keys && Step(s, m).budget == s.budget
    ensures m.OnWarden? && m.warden == id ==> Step(s, m).wardens[id] == Apply(s.wardens[id], m.call)
    ensures !(m.OnWarden? && m.warden == id) ==> OnlyPoolMoved(s.wardens[id], Step(s, m).wardens[id])
  {
  }

  lemma StepConsistent(s: System, m: Move)
    requires Consistent(s) && FreshMove(s, m)
    ensures Consistent(Step(s, m))
  {
    match m
    case OnWarden(warden, call) =>
      if warden in s.wardens {
        assert SoundAt(s, warden);
        ApplyKeeps(s.wardens[warden], call);
        CallsAcceptNothing(s.wardens[warden], call);
        ReplacedConsistent(s, warden, Apply(s.wardens[warden], call));
      }
    case Prepare(id, source, target, amount) =>
      if PrepareTransfer(s, id, source, target, amount).Did? {
        PrepareConsistent(s, id, source, target, amount);
      }
    case Accept(id) =>
      if AcceptTransfer(s, id).Did? && AcceptTransfer(s, id).value {
        AcceptConsistent(s, id);
      }
  }

  lemma {:induction false} RunConsistent(s: System, moves: seq<Move>)
    requires Consistent(s) && FreshMoves(s, moves)
    ensures Consistent(RunMoves(s, moves)) && RunMoves(s, moves).wardens.Keys == s.wardens.Keys
    decreases |moves|
  {
    if moves != [] {
      StepConsistent(s, moves[0]);
      RunConsistent(Step(s, moves[0]), moves[1..]);
      assert Step(s, moves[0]).wardens.Keys == s.wardens.Keys;
    }
  }

  /** After every run, on every warden, the stored-path test decides what following parents decides. */
  lemma StoredPathAgrees(s: System, moves: seq<Move>, id: string, x: string, branch: string)
    requires Consistent(s) && FreshMoves(s, moves) && id in RunMoves(s, moves).wardens
    requires x in RunMoves(s, moves).wardens[id].leases
    ensures var leases := RunMoves(s, moves).wardens[id].leases;
      Linked(leases) && (IsDescendantOf(leases[x], branch) <==> Below(leases, x, branch))
  {
    RunConsistent(s, moves);
    assert SoundAt(RunMoves(s, moves), id);
    SoundIds(RunMoves(s, moves).wardens[id]);
    PathIsLinks(RunMoves(s, moves).wardens[id].leases, x, branch);
  }

  /** After every run, capabilities shrink along the whole chain, not only from parent to child. */
  lemma CapabilitiesShrink(s: System, moves: seq<Move>, id: string, x: string, above: string)
    requires Consistent(s) && FreshMoves(s, moves) && id in RunMoves(s, moves).wardens
    requires x in RunMoves(s, moves).wardens[id].leases
    requires above in RunMoves(s, moves).wardens[id].leases[x].ancestors
    ensures var leases := RunMoves(s, moves).wardens[id].leases;
      above in leases && leases[x].capabilities <= leases[above].capabilities
  {
    RunConsistent(s, moves);
    assert SoundAt(RunMoves(s, moves), id);
    ChainAttenuates(RunMoves(s, moves).wardens[id].leases, x, above);
  }

  lemma StepFreezes(s: System, m: Move, id: string, branch: string)
    requires Consistent(s) && FreshMove(s, m) && id in s.wardens && branch in s.wardens[id].revocations
    ensures id in Step(s, m).wardens && Frozen(s.wardens[id], Step(s, m).wardens[id], branch)
  {
    StepAtWarden(s, m, id);
    assert SoundAt(s, id);
    if m.OnWarden? && m.warden == id {
      CallFreezes(s.wardens[id], branch, m.call);
    } else {
      TableFreezes(s.wardens[id], branch, Step(s, m).wardens[id]);
    }
  }

  /**
   * Once a branch is revoked at a warden it is frozen there over every continuation, whatever the
   * other wardens and the transfers do: no lease is added below it, no right of it is spent or
   * delegated, nothing in it is resumed or renewed; what it holds can only go back to the pool.
   */
  lemma {:induction false} RevokedBranchIsFrozen(s: System, moves: seq<Move>, id: string, branch: string)
    requires Consistent(s) && FreshMoves(s, moves) && id in s.wardens && branch in s.wardens[id].revocations
    ensures id in RunMoves(s, moves).wardens && Frozen(s.wardens[id], RunMoves(s, moves).wardens[id], branch)
    decreases |moves|
  {
    if moves == [] {
      TableFreezes(s.wardens[id], branch, s.wardens[id]);
    } else {
      var mid := Step(s, moves[0]);
      StepConsistent(s, moves[0]);
      StepFreezes(s, moves[0], id, branch);
      RevokedBranchIsFrozen(mid, moves[1..], id, branch);
      FrozenTransitive(s.wardens[id], mid.wardens[id], RunMoves(s, moves).wardens[id], branch);
    }
  }

  lemma StepMoves(s: System, m: Move, id: string, x: string)
    requires Consistent(s) && FreshMove(s, m) && id in s.wardens && x in s.wardens[id].leases
    ensures id in Step(s, m).wardens && x in Step(s, m).wardens[id].leases
    ensures Moves(s.wardens[id].leases[x], Step(s, m).wardens[id].leases[x])
  {
    StepAtWarden(s, m, id);
    assert SoundAt(s, id);
    if m.OnWarden? && m.warden == id {
      CallMoves(s.wardens[id], m.call, x);
    }
  }

  /** In any run a lease's sequence number never falls, and while it stands still the lease is unchanged. */
  lemma {:induction false} SequenceTellsChange(s: System, moves: seq<Move>, id: string, x: string)
    requires Consistent(s) && FreshMoves(s, moves) && id in s.wardens && x in s.wardens[id].leases
    ensures id in RunMoves(s, moves).wardens && x in RunMoves(s, moves).wardens[id].leases
    ensures var l, m := s.wardens[id].leases[x], RunMoves(s, moves).wardens[id].leases[x];
      l.sequence <= m.sequence && (m.sequence == l.sequence ==> m == l) && (Ended(l) ==> m == l)
    decreases |moves|
  {
    if moves != [] {
      StepMoves(s, moves[0], id, x);
      StepConsistent(s, moves[0]);
      SequenceTellsChange(Step(s, moves[0]), moves[1..], id, x);
    }
  }

  /** A known revocation is never forgotten, and its epoch never falls. */
  lemma {:induction false} EpochsNeverFall(s: System, moves: seq<Move>, id: string, branch: string)
    requires id in s.wardens && branch in s.wardens[id].revocations
    ensures id in RunMoves(s, moves).wardens && branch in RunMoves(s, moves).wardens[id].revocations
    ensures s.wardens[id].revocations[branch] <= RunMoves(s, moves).wardens[id].revocations[branch]
    decreases |moves|
  {
    if moves != [] {
      StepAtWarden(s, moves[0], id);
      if moves[0].OnWarden? && moves[0].warden == id {
        CallKeepsEpochs(s.wardens[id], moves[0].call, branch);
      }
      EpochsNeverFall(Step(s, moves[0]), moves[1..], id, branch);
    }
  }

  /**
   * A revocation takes hold: it is on record afterwards exactly when the branch was known or the epoch
   * is not negative; then, over every continuation, the record has at least that epoch and nothing
   * that hangs from the branch is active or quiescent.
   */
  lemma RevocationTakesHold(s: System, id: string, branch: string, epoch: int, moves: seq<Move>)
    requires Consistent(s) && id in s.wardens
    requires FreshMoves(Step(s, OnWarden(id, RevokeCall(branch, epoch))), moves)
    ensures var mid := Step(s, OnWarden(id, RevokeCall(branch, epoch)));
      id in mid.wardens && (branch in mid.wardens[id].revocations <==> branch in s.wardens[id].revocations || 0 <= epoch)
    ensures branch in s.wardens[id].revocations || 0 <= epoch ==>
      var after := RunMoves(Step(s, OnWarden(id, RevokeCall(branch, epoch))), moves);
      && id in after.wardens && branch in after.wardens[id].revocations
      && epoch <= after.wardens[id].revocations[branch]
      && Linked(after.wardens[id].leases) && Stopped(after.wardens[id].leases, branch)
  {
    var m := OnWarden(id, RevokeCall(branch, epoch));
    var mid := Step(s, m);
    assert SoundAt(s, id);
    RevokesExactly(s.wardens[id], branch, epoch);
    assert mid.wardens[id] == RevokeBranch(s.wardens[id], branch, epoch).warden;
    if branch in mid.wardens[id].revocations {
      StepConsistent(s, m);
      EpochsNeverFall(mid, moves, id, branch);
      RunConsistent(mid, moves);
      RevokedIsStopped(RunMoves(mid, moves), id, branch);
    }
  }

  /** Nothing that hangs from the branch is active or quiescent. */
  ghost predicate Stopped(leases: map<string, Lease>, branch: string)
    requires Linked(leases)
  {
    forall x :: x in leases && Below(leases, x, branch) ==> leases[x].status != Active && leases[x].status != Quiescent
  }

  lemma RevokedIsStopped(s: System, id: string, branch: string)
    requires Consistent(s) && id in s.wardens && branch in s.wardens[id].revocations
    ensures Linked(s.wardens[id].leases) && Stopped(s.wardens[id].leases, branch)
  {
    assert SoundAt(s, id);
    var leases := s.wardens[id].leases;
    SoundIds(s.wardens[id]);
    forall x | x in leases && Below(leases, x, branch) ensures leases[x].status != Active && leases[x].status != Quiescent {
      PathIsLinks(leases, x, branch);
    }
  }

  // ---- solvency ----

  /** Nobody asks for a negative allocation or sends a negative amount. */
  predicate ModestMove(m: Move) {
    match m
    case OnWarden(_, call) => ModestCall(call)
    case Prepare(_, _, _, amount) => Nonneg(amount)
    case Accept(_) => true
  }

  predicate Modest(moves: seq<Move>) {
    forall i :: 0 <= i < |moves| ==> ModestMove(moves[i])
  }

  predicate AllSolvent(s: System) {
    forall id :: id in s.wardens ==> Solvent(s.wardens[id])
  }

  /** A transfer that can still arrive brings nothing negative. */
  predicate ArrivesNonneg(s: System, id: string)
    requires id in s.transfers
  {
    var t := s.transfers[id];
    !t.accepted && t.target in s.wardens ==> Nonneg(t.amount)
  }

  predicate Safe(s: System) {
    AllSolvent(s) && forall id {:trigger ArrivesNonneg(s, id)} :: id in s.transfers ==> ArrivesNonneg(s, id)
  }

  lemma PoolStaysSolvent(w: Warden, after: Warden)
    requires Solvent(w) && OnlyPoolMoved(w, after) && Nonneg(after.pool)
    ensures Solvent(after)
  {
    forall id | id in after.leases ensures SolventLease(after.leases[id]) {
      assert SolventLease(w.leases[id]);
    }
  }

  lemma CallStaysSafe(s: System, id: string, c: Call)
    requires Consistent(s) && Safe(s) && id in s.wardens && FreshCall(s.wardens[id], c) && ModestCall(c)
    ensures Safe(Step(s, OnWarden(id, c)))
  {
    var after := Step(s, OnWarden(id, c));
    assert SoundAt(s, id) && Solvent(s.wardens[id]);
    CallStaysSolvent(s.wardens[id], c);
    forall t | t in after.transfers ensures ArrivesNonneg(after, t) {
      assert ArrivesNonneg(s, t);
    }
  }

  lemma PrepareStaysSafe(s: System, id: string, source: string, target: string, amount: Vector)
    requires Safe(s) && id !in s.transfers && PrepareTransfer(s, id, source, target, amount).Did?
    requires target in s.wardens ==> Nonneg(amount)
    ensures Safe(PrepareTransfer(s, id, source, target, amount).system)
  {
    var after := PrepareTransfer(s, id, source, target, amount).system;
    PoolStaysSolvent(s.wardens[source], after.wardens[source]);
    forall t | t in after.transfers ensures ArrivesNonneg(after, t) {
      assert t != id ==> ArrivesNonneg(s, t);
    }
  }

  lemma AcceptStaysSafe(s: System, id: string)
    requires Safe(s) && AcceptTransfer(s, id).Did? && AcceptTransfer(s, id).value
    ensures Safe(AcceptTransfer(s, id).system)
  {
    var after := AcceptTransfer(s, id).system;
    var target := s.transfers[id].target;
    assert ArrivesNonneg(s, id) && Solvent(s.wardens[target]);
    PoolStaysSolvent(s.wardens[target], after.wardens[target]);
    forall t | t in after.transfers ensures ArrivesNonneg(after, t) {
      assert ArrivesNonneg(s, t);
    }
  }

  lemma StepStaysSafe(s: System, m: Move)
    requires Consistent(s) && Safe(s) && FreshMove(s, m) && ModestMove(m)
    ensures Safe(Step(s, m))
  {
    match m
    case OnWarden(warden, call) =>
      if warden in s.wardens {
        CallStaysSafe(s, warden, call);
      }
    case Prepare(id, source, target, amount) =>
      if PrepareTransfer(s, id, source, target, amount).Did? {
        PrepareStaysSafe(s, id, source, target, amount);
      }
    case Accept(id) =>
      if AcceptTransfer(s, id).Did? && AcceptTransfer(s, id).value {
        AcceptStaysSafe(s, id);
      }
  }

  lemma {:induction false} RunStaysSafe(s: System, moves: seq<Move>)
    requires Consistent(s) && Safe(s) && FreshMoves(s, moves) && Modest(moves)
    ensures Safe(RunMoves(s, moves))
    decreases |moves|
  {
    if moves != [] {
      assert ModestMove(moves[0]) && Modest(moves[1..]);
      StepStaysSafe(s, moves[0]);
      StepConsistent(s, moves[0]);
      RunStaysSafe(Step(s, moves[0]), moves[1..]);
    }
  }

  lemma {:induction false} FirstWardensSolvent(budget: Vector, ids: seq<string>, k: nat)
    requires k <= |ids| && |ids| > 0 && forall i :: 0 <= i < |ids| ==> Nonneg(Share(budget, |ids|, i))
    ensures forall id :: id in FirstWardens(budget, ids, k) ==> Solvent(FirstWardens(budget, ids, k)[id])
    decreases k
  {
    if k > 0 {
      FirstWardensSolvent(budget, ids, k - 1);
      assert Nonneg(Share(budget, |ids|, k - 1));
    }
  }

  /** A lease is within the capabilities of its parent, where the parent is on file. */
  predicate Attenuated(leases: map<string, Lease>, x: string)
    requires x in leases
  {
    leases[x].parent.Some? && leases[x].parent.value in leases ==>
      leases[x].capabilities <= leases[leases[x].parent.value].capabilities
  }

  /** Everything the source asserts about a system. */
  ghost predicate AssertionsHold(s: System) {
    && Conserved(s) && AllSolvent(s)
    && (forall id, x :: id in s.wardens && x in s.wardens[id].leases ==> Attenuated(s.wardens[id].leases, x))
  }

  /** From any budget, over every run without negative requests, every assertion of the source holds. */
  lemma EveryRunHolds(budget: Vector, ids: seq<string>, moves: seq<Move>)
    requires Distinct(ids) && NewSystem(budget, ids).Some?
    requires FreshMoves(NewSystem(budget, ids).value, moves) && Modest(moves)
    ensures AssertionsHold(RunMoves(NewSystem(budget, ids).value, moves))
  {
    var s := NewSystem(budget, ids).value;
    NewSystemConserves(budget, ids);
    RunConserves(s, moves);
    FirstWardensSolvent(budget, ids, |ids|);
    RunStaysSafe(s, moves);
    var after := RunMoves(s, moves);
    forall id, x | id in after.wardens && x in after.wardens[id].leases ensures Attenuated(after.wardens[id].leases, x) {
      assert SoundAt(after, id);
      assert LinkedAt(after.wardens[id].leases, x);
    }
  }

  // ---- negative amounts ----

  lemma {:induction false} LengthBound(used: set<string>) returns (n: nat)
    ensures forall x :: x in used ==> |x| <= n
  {
    if used == {} {
      n := 0;
    } else {
      var x :| x in used;
      var m := LengthBound(used - {x});
      n := if |x| < m then m else |x|;
    }
  }

  lemma UnusedName(used: set<string>) returns (name: string)
    ensures name !in used
  {
    var n := LengthBound(used);
    name := seq(n + 1, _ => 'x');
  }

  lemma DrainedPool(pool: Vector)
    ensures VSub(pool, pool) == Some(Zero(|pool|))
  {
    var rest := VSub(pool, pool);
    assert rest.Some? && |rest.value| == |pool| && forall i :: 0 <= i < |pool| ==> rest.value[i] == 0;
    assert rest.value == Zero(|pool|);
  }

  /** The target sends its whole pool away and then takes the transfer in. */
  lemma NegativeArrivalOverdraws(s: System, id: string) returns (moves: seq<Move>)
    requires Consistent(s) && Pending(s, id)
    requires !Nonneg(s.transfers[id].amount)
    ensures FreshMoves(s, moves) && Modest(moves) && !AllSolvent(RunMoves(s, moves))
  {
    var t := s.transfers[id];
    assert SoundAt(s, t.target) && AcceptedAt(s, id);
    var pool := s.wardens[t.target].pool;
    var name := UnusedName(s.transfers.Keys);
    moves := [Prepare(name, t.target, t.source, pool), Accept(id)];
    DrainedPool(pool);
    var mid := Step(s, moves[0]);
    assert mid.wardens[t.target].pool == Zero(|pool|);
    assert mid.transfers[id] == t;
    var after := Step(mid, moves[1]);
    assert moves[1..] == [moves[1]] && moves[1..][1..] == [];
    assert RunMoves(mid, moves[1..]) == RunMoves(after, []) == after;
    assert after.wardens[t.target].pool == t.amount;
  }

  /** The transfer `id` is in flight between two known wardens of a solvent system. */
  predicate Pending(s: System, id: string) {
    && AllSolvent(s) && id in s.transfers
    && !s.transfers[id].accepted && s.transfers[id].target in s.wardens
    && s.transfers[id].source != s.transfers[id].target
  }

  ghost predicate StaysSolvent(s: System) {
    forall moves :: FreshMoves(s, moves) && Modest(moves) ==> AllSolvent(RunMoves(s, moves))
  }

  /**
   * The source does not reject a negative amount.  A transfer that was prepared keeps the system
   * solvent over all continuations if and only if nothing in it is negative or its target does not
   * exist, so that it never arrives.
   */
  lemma AmountDecidesSolvency(s: System, id: string, source: string, target: string, amount: Vector)
    requires Consistent(s) && Safe(s) && id !in s.transfers
    requires PrepareTransfer(s, id, source, target, amount).Did?
    ensures StaysSolvent(PrepareTransfer(s, id, source, target, amount).system) <==>
      (target in s.wardens ==> Nonneg(amount))
  {
    var after := PrepareTransfer(s, id, source, target, amount).system;
    PrepareConsistent(s, id, source, target, amount);
    if target in s.wardens ==> Nonneg(amount) {
      PrepareStaysSafe(s, id, source, target, amount);
      forall moves | FreshMoves(after, moves) && Modest(moves) ensures AllSolvent(RunMoves(after, moves)) {
        RunStaysSafe(after, moves);
      }
    } else {
      PoolStaysSolvent(s.wardens[source], after.wardens[source]);
      var moves := NegativeArrivalOverdraws(after, id);
    }
  }

  /** A grant of minus one out of one right succeeds, and leaves a lease that owes. */
  lemma NegativeGrantFails(machine: MachineSpec)
    requires Registrable(1, machine)
    ensures var moves := [OnWarden("a", IssueRootCall("l", "line", "subject", [-1], {}, machine, 1.0, 0.0))];
      && NewSystem([1], ["a"]).Some? && FreshMoves(NewSystem([1], ["a"]).value, moves)
      && !Raises(NewSystem([1], ["a"]).value.wardens["a"], moves[0].call)
      && !AllSolvent(RunMoves(NewSystem([1], ["a"]).value, moves))
  {
    assert Share([1], 1, 0) == [1];
    assert FirstWardens([1], ["a"], 1) == map["a" := NewWarden("a", [1])];
    var s := NewSystem([1], ["a"]).value;
    var c := IssueRootCall("l", "line", "subject", [-1], {}, machine, 1.0, 0.0);
    assert VSub([1], [-1]).Some?;
    var after := Step(s, OnWarden("a", c));
    assert [OnWarden("a", c)][1..] == [];
    assert RunMoves(s, [OnWarden("a", c)]) == RunMoves(after, []) == after;
    assert after.wardens["a"].leases["l"].residual[0] == -1;
    assert !SolventLease(after.wardens["a"].leases["l"]);
    assert !Solvent(after.wardens["a"]);
  }

  /** The failing input in full: two rights over two wardens, and a transfer of minus three. */
  lemma NegativeTransferFails()
    ensures var ids := ["a", "b"];
      var moves := [Prepare("t", "a", "b", [-3]), Accept("t")];
      && NewSystem([2], ids).Some? && FreshMoves(NewSystem([2], ids).value, moves)
      && "b" in RunMoves(NewSystem([2], ids).value, moves).wardens
      && RunMoves(NewSystem([2], ids).value, moves).wardens["b"].pool == [-2]
  {
    var ids := ["a", "b"];
    var share := Share([2], 2, 0);
    assert share == [1] && Share([2], 2, 1) == [1];
    assert FirstWardens([2], ids, 1) == map["a" := NewWarden("a", [1])];
    assert FirstWardens([2], ids, 2) == map["a" := NewWarden("a", [1]), "b" := NewWarden("b", [1])];
    var s := NewSystem([2], ids).value;
    var moves := [Prepare("t", "a", "b", [-3]), Accept("t")];
    assert "a" != "b" by { assert "a"[0] != "b"[0]; }
    assert VSub([1], [-3]).Some? && VSub([1], [-3]).value == [4];
    var mid := Step(s, moves[0]);
    assert mid.wardens["b"].pool == [1] && mid.transfers["t"].amount == [-3];
    assert VAdd([1], [-3]).value == [-2];
    var after := Step(mid, moves[1]);
    assert moves[1..] == [moves[1]] && moves[1..][1..] == [];
    assert RunMoves(mid, moves[1..]) == RunMoves(after, []) == after;
  }
}
