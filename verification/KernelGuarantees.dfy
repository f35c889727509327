/**
 * Runs of one warden: accounting, the agreement of stored paths with parent links, attenuation
 * along whole ancestor chains, and what a revocation stops for good.
 */
module KernelGuarantees {
  import opened Common
  import opened MapSums
  import opened KernelSpec
  import opened KernelInvariant

  datatype Call =
    | IssueRootCall(id: string, lineage: string, subject: string, allocation: Vector,
                    capabilities: set<string>, machine: MachineSpec, ttl: real, now: real)
    | SpawnCall(parent: string, id: string, subject: string, allocation: Vector,
                capabilities: set<string>, chosen: Option<MachineSpec>, ttl: real, now: real)
    | ExecuteCall(lease: string, name: string, evidence: Evidence, now: real)
    | QuiesceCall(lease: string, now: real)
    | ResumeCall(lease: string, now: real)
    | RenewCall(lease: string, ttl: real, now: real)
    | RevokeCall(branch: string, epoch: int)
    | CloseCall(lease: string)
    | ReclaimCall(now: real)

  ghost function Apply(w: Warden, c: Call): Warden {
    match c
    case IssueRootCall(id, lineage, subject, allocation, capabilities, machine, ttl, now) =>
      IssueRoot(w, id, lineage, subject, allocation, capabilities, machine, ttl, now).warden
    case SpawnCall(parent, id, subject, allocation, capabilities, chosen, ttl, now) =>
      SpawnLocal(w, parent, id, subject, allocation, capabilities, chosen, ttl, now).warden
    case ExecuteCall(lease, name, evidence, now) => Execute(w, lease, name, evidence, now).warden
    case QuiesceCall(lease, now) => SetQuiescent(w, lease, now).warden
    case ResumeCall(lease, now) => Resume(w, lease, now).warden
    case RenewCall(lease, ttl, now) => Renew(w, lease, ttl, now).warden
    case RevokeCall(branch, epoch) => RevokeBranch(w, branch, epoch).warden
    case CloseCall(lease) => Close(w, lease).warden
    case ReclaimCall(now) => if LapsedFit(w, now) then ReclaimExpired(w, now).warden else w
  }

  /** The call ends in an exception. */
  ghost predicate Raises(w: Warden, c: Call) {
    match c
    case IssueRootCall(id, lineage, subject, allocation, capabilities, machine, ttl, now) =>
      IssueRoot(w, id, lineage, subject, allocation, capabilities, machine, ttl, now).Raised?
    case SpawnCall(parent, id, subject, allocation, capabilities, chosen, ttl, now) =>
      SpawnLocal(w, parent, id, subject, allocation, capabilities, chosen, ttl, now).Raised?
    case ExecuteCall(lease, name, evidence, now) => Execute(w, lease, name, evidence, now).Raised?
    case QuiesceCall(lease, now) => SetQuiescent(w, lease, now).Raised?
    case ResumeCall(lease, now) => Resume(w, lease, now).Raised?
    case RenewCall(lease, ttl, now) => Renew(w, lease, ttl, now).Raised?
    case RevokeCall(branch, epoch) => RevokeBranch(w, branch, epoch).Raised?
    case CloseCall(lease) => Close(w, lease).Raised?
    case ReclaimCall(now) => !LapsedFit(w, now)
  }

  /** The addition that `execute` makes after charging the lease cannot fail in a sound warden. */
  lemma ExecuteRaisesFirst(w: Warden, lease: string, name: string, evidence: Evidence, now: real)
    requires Sound(w) && Execute(w, lease, name, evidence, now).Raised?
    ensures Execute(w, lease, name, evidence, now).warden == w
  {
    if Refusal(w, lease, now).None? && w.leases[lease].machine in w.machines {
      var m := w.machines[w.leases[lease].machine];
      var found := FindTransition(m, w.leases[lease].state, name);
      if found.Some? {
        assert Registrable(|w.pool|, m);
        assert exists i :: 0 <= i < |m.transitions| && m.transitions[i] == found.value;
        assert VAdd(w.consumed, found.value.cost).Some?;
      }
    }
  }

  /** Nor can the addition that `close` makes after closing the lease. */
  lemma CloseRaisesFirst(w: Warden, lease: string)
    requires Sound(w) && Close(w, lease).Raised?
    ensures Close(w, lease).warden == w
  {
    assert lease in w.leases ==> VAdd(w.pool, w.leases[lease].residual).Some?;
  }

  /**
   * The source writes before it adds in `execute`, `close` and `reclaim_expired`.  In a sound warden
   * nothing raises after the first write: a call that raises leaves pool, consumption, leases and
   * revocations as they were.
   */
  lemma RaisedCallMovesNothing(w: Warden, c: Call)
    requires Sound(w) && Raises(w, c)
    ensures Apply(w, c) == w.(machines := Apply(w, c).machines)
  {
    if c.ExecuteCall? {
      ExecuteRaisesFirst(w, c.lease, c.name, c.evidence, c.now);
    } else if c.CloseCall? {
      CloseRaisesFirst(w, c.lease);
    }
  }

  /**
   * Without soundness a raising `close` can lose rights: it does so exactly when the lease is live
   * and its residual does not have the pool's dimension.
   */
  lemma RaisedCloseLosesExactlyWhen(w: Warden, lease: string)
    ensures Close(w, lease).Raised? && Close(w, lease).warden != w <==>
      lease in w.leases && !Ended(w.leases[lease]) && |w.leases[lease].residual| != |w.pool|
  {
    if lease in w.leases && !Ended(w.leases[lease]) {
      assert Close(w, lease).warden.leases[lease].status == Closed;
    }
  }

  /** New leases get identifiers that are in use nowhere. */
  predicate FreshCall(w: Warden, c: Call) {
    (c.IssueRootCall? || c.SpawnCall?) ==> Unused(w, c.id)
  }

  ghost function RunCalls(w: Warden, calls: seq<Call>): Warden
    decreases |calls|
  {
    if calls == [] then w else RunCalls(Apply(w, calls[0]), calls[1..])
  }

  ghost predicate FreshRun(w: Warden, calls: seq<Call>)
    decreases |calls|
  {
    calls != [] ==> FreshCall(w, calls[0]) && FreshRun(Apply(w, calls[0]), calls[1..])
  }

  // ---- every call keeps the books ----

  lemma IssueRootKeeps(w: Warden, c: Call)
    requires Sound(w) && c.IssueRootCall? && FreshCall(w, c)
    ensures Keeps(w, Apply(w, c))
  {
    var r := IssueRoot(w, c.id, c.lineage, c.subject, c.allocation, c.capabilities, c.machine, c.ttl, c.now);
    if Registrable(|w.pool|, c.machine) {
      RegisterSound(w, c.machine);
      if r.Done? {
        var registered := Register(w, c.machine);
        AddSound(registered, r.value, r.warden);
        forall j: nat | j < |w.pool| ensures Holding(r.warden, j) == Holding(w, j) {
          AddResidual(w.leases, |w.pool|, r.value, j);
        }
      }
    }
  }

  /** A debited parent and its new child, filed together. */
  lemma SpawnSound(w: Warden, parentId: string, rest: Vector, child: Lease, after: Warden)
    requires Sound(w) && parentId in w.leases && Unused(w, child.id)
    requires !RevokedByPrefix(w.revocations, w.leases[parentId]) && !Ended(w.leases[parentId])
    requires VSub(w.leases[parentId].residual, child.residual) == Some(rest)
    requires |child.residual| == |child.allocation| == |w.pool|
    requires child.parent == Some(parentId) && child.ancestors == w.leases[parentId].ancestors + [parentId]
    requires child.capabilities <= w.leases[parentId].capabilities
    requires child.machine in w.machines && child.signature == PayloadOf(child) && child.status == Active
    requires var parent := w.leases[parentId];
      after == w.(leases := w.leases[parentId := parent.(residual := rest, sequence := parent.sequence + 1)][child.id := child])
    ensures Keeps(w, after)
  {
    var parent := w.leases[parentId];
    var debited := parent.(residual := rest, sequence := parent.sequence + 1);
    var mid := w.(leases := w.leases[parentId := debited]);
    assert WellKept(w, parentId) && LinkedAt(w.leases, parentId);
    TouchSound(w, parentId, debited, mid);
    ChildNotRevoked(mid, debited, child);
    assert LinkedAt(after.leases, child.id);
    AddSound(mid, child, after);
    forall j: nat | j < |w.pool| ensures Holding(after, j) == Holding(w, j) {
      TouchResidual(w.leases, |w.pool|, parentId, debited, j);
      AddResidual(mid.leases, |w.pool|, child, j);
    }
  }

  lemma ChildNotRevoked(w: Warden, parent: Lease, child: Lease)
    requires !RevokedByPrefix(w.revocations, parent) && child.ancestors == parent.ancestors + [parent.id]
    requires child.id !in w.revocations
    ensures !RevokedByPrefix(w.revocations, child)
  {
    forall branch | branch in w.revocations ensures !IsDescendantOf(child, branch) {
      assert !IsDescendantOf(parent, branch);
    }
  }

  lemma SpawnKeeps(w: Warden, c: Call)
    requires Sound(w) && c.SpawnCall? && FreshCall(w, c)
    ensures Keeps(w, Apply(w, c))
  {
    var r := SpawnLocal(w, c.parent, c.id, c.subject, c.allocation, c.capabilities, c.chosen, c.ttl, c.now);
    if r.Done? {
      var parent := w.leases[c.parent];
      assert WellKept(w, c.parent);
      var spec := if c.chosen.Some? then c.chosen.value else w.machines[parent.machine];
      RegisterSound(w, spec);
      var rest := VSub(parent.residual, c.allocation).value;
      SpawnSound(Register(w, spec), c.parent, rest, r.value, r.warden);
    } else if Refusal(w, c.parent, c.now).None? && r.warden != w {
      RegisterSound(w, if c.chosen.Some? then c.chosen.value else w.machines[w.leases[c.parent].machine]);
    }
  }

  lemma ExecuteKeeps(w: Warden, c: Call)
    requires Sound(w) && c.ExecuteCall?
    ensures Keeps(w, Apply(w, c))
  {
    var r := Execute(w, c.lease, c.name, c.evidence, c.now);
    if r.Done? {
      assert WellKept(w, c.lease);
      TouchSound(w, c.lease, r.value, r.warden);
      forall j: nat | j < |w.pool| ensures Holding(r.warden, j) == Holding(w, j) {
        TouchResidual(w.leases, |w.pool|, c.lease, r.value, j);
      }
    }
  }

  /** Status and expiry changes move no rights. */
  lemma TouchOnlyKeeps(w: Warden, id: string, m: Lease, after: Warden)
    requires Sound(w) && id in w.leases && Evolves(w.leases[id], m) && NoneWakes(w, w.leases[id], m)
    requires m.residual == w.leases[id].residual && after == w.(leases := w.leases[id := m])
    ensures Keeps(w, after)
  {
    TouchSound(w, id, m, after);
    forall j: nat | j < |w.pool| ensures Holding(after, j) == Holding(w, j) {
      TouchResidual(w.leases, |w.pool|, id, m, j);
    }
  }

  lemma StatusKeeps(w: Warden, c: Call)
    requires Sound(w) && (c.QuiesceCall? || c.ResumeCall? || c.RenewCall?)
    ensures Keeps(w, Apply(w, c))
  {
    var after := Apply(w, c);
    if c.lease in w.leases && after != w {
      assert WellKept(w, c.lease);
      TouchOnlyKeeps(w, c.lease, after.leases[c.lease], after);
    }
  }

  lemma CloseKeeps(w: Warden, c: Call)
    requires Sound(w) && c.CloseCall?
    ensures Keeps(w, Apply(w, c))
  {
    var after := Apply(w, c);
    if c.lease in w.leases && after != w {
      assert WellKept(w, c.lease);
      var m := after.leases[c.lease];
      TouchSound(w, c.lease, m, after);
      forall j: nat | j < |w.pool| ensures Holding(after, j) == Holding(w, j) {
        TouchResidual(w.leases, |w.pool|, c.lease, m, j);
      }
    }
  }

  lemma RevokeEvolves(w: Warden, branch: string, epoch: int)
    requires Sound(w)
    ensures TableEvolves(w, RevokeBranch(w, branch, epoch).warden)
  {
    var after := RevokeBranch(w, branch, epoch).warden;
    forall id | id in w.leases ensures Evolves(w.leases[id], after.leases[id]) {
      assert WellKept(w, id);
    }
  }

  lemma RevokeMovesNothing(w: Warden, branch: string, epoch: int, j: nat)
    requires Shaped(w) && j < |w.pool|
    ensures Shaped(RevokeBranch(w, branch, epoch).warden)
    ensures Holding(RevokeBranch(w, branch, epoch).warden, j) == Holding(w, j)
  {
    var after := RevokeBranch(w, branch, epoch).warden;
    assert ResidualAt(after.leases, |w.pool|, j) == ResidualAt(w.leases, |w.pool|, j);
  }

  lemma RevokeKeeps(w: Warden, branch: string, epoch: int)
    requires Sound(w)
    ensures Keeps(w, RevokeBranch(w, branch, epoch).warden)
  {
    var after := RevokeBranch(w, branch, epoch).warden;
    RevokeEvolves(w, branch, epoch);
    EvolvedLinks(w, after);
    EvolvedKept(w, after);
    RevokeHolds(w, branch, epoch);
    forall j: nat | j < |w.pool| ensures Holding(after, j) == Holding(w, j) {
      RevokeMovesNothing(w, branch, epoch, j);
    }
  }

  lemma RevokeHolds(w: Warden, branch: string, epoch: int)
    requires RevocationsHold(w)
    ensures RevocationsHold(RevokeBranch(w, branch, epoch).warden)
  {
    var after := RevokeBranch(w, branch, epoch).warden;
    forall b, id | b in after.revocations && id in after.leases && IsDescendantOf(after.leases[id], b)
      ensures after.leases[id].status != Active && after.leases[id].status != Quiescent
    {
      assert IsDescendantOf(w.leases[id], b);
    }
  }

  // ---- reclaiming ----

  function KeptRights(w: Warden, now: real, j: nat): map<string, int>
    requires Shaped(w) && j < |w.pool|
  {
    map id | id in w.leases :: ExpiredLease(w.leases[id], now, |w.pool|).residual[j]
  }

  function LapsedOrZero(w: Warden, now: real, j: nat): map<string, int>
    requires Shaped(w) && j < |w.pool|
  {
    map id | id in w.leases :: if Lapsed(w.leases[id], now) then w.leases[id].residual[j] else 0
  }

  lemma {:induction false} ZerosDoNotCount(all: map<string, int>, some: map<string, int>)
    requires some.Keys <= all.Keys
    requires forall k :: k in all ==> all[k] == if k in some then some[k] else 0
    ensures Total(all) == Total(some)
    decreases |all|
  {
    if all.Keys == {} {
      assert some.Keys == {};
      assert |all| == |some| == 0;
    } else {
      var k :| k in all;
      TotalWithout(all, k);
      if k in some {
        TotalWithout(some, k);
        ZerosDoNotCount(all - {k}, some - {k});
      } else {
        ZerosDoNotCount(all - {k}, some);
      }
    }
  }

  /** What is reclaimed in component `j` is exactly what the leases lose. */
  lemma ReclaimBalances(w: Warden, now: real, j: nat)
    requires Shaped(w) && j < |w.pool|
    ensures Total(ResidualAt(w.leases, |w.pool|, j)) == Total(KeptRights(w, now, j)) + Total(LapsedRights(w, now, j))
  {
    TotalPlus(KeptRights(w, now, j), LapsedOrZero(w, now, j), ResidualAt(w.leases, |w.pool|, j));
    ZerosDoNotCount(LapsedOrZero(w, now, j), LapsedRights(w, now, j));
  }

  lemma ReclaimEvolves(w: Warden, now: real)
    requires Sound(w)
    ensures TableEvolves(w, ReclaimExpired(w, now).warden)
    ensures forall id :: id in w.leases ==>
      NoneWakes(w, w.leases[id], ReclaimExpired(w, now).warden.leases[id])
  {
    var after := ReclaimExpired(w, now).warden;
    forall id | id in w.leases ensures Evolves(w.leases[id], after.leases[id]) {
      assert WellKept(w, id);
    }
  }

  lemma ReclaimShape(w: Warden, now: real)
    requires Shaped(w)
    ensures var after := ReclaimExpired(w, now).warden;
      && Shaped(after) && |after.pool| == |w.pool| && after.consumed == w.consumed
      && forall j: nat :: j < |w.pool| ==> after.pool[j] == w.pool[j] + Total(LapsedRights(w, now, j))
  {
    var reclaimed := Reclaimed(w, now);
    assert VAdd(w.pool, reclaimed).Some?;
  }

  lemma ReclaimMovesToPool(w: Warden, now: real, j: nat)
    requires Shaped(w) && j < |w.pool|
    ensures Shaped(ReclaimExpired(w, now).warden) && |ReclaimExpired(w, now).warden.pool| == |w.pool|
    ensures Holding(ReclaimExpired(w, now).warden, j) == Holding(w, j)
  {
    ReclaimShape(w, now);
    ReclaimTable(w, now, |w.pool|, j);
    ReclaimBalances(w, now, j);
  }

  lemma ReclaimTable(w: Warden, now: real, dim: nat, j: nat)
    requires Shaped(w) && dim == |w.pool| && j < dim
    ensures var leases := ReclaimExpired(w, now).warden.leases;
      && (forall id :: id in leases ==> |leases[id].residual| == dim)
      && ResidualAt(leases, dim, j) == KeptRights(w, now, j)
  {
  }

  lemma ReclaimKeeps(w: Warden, now: real)
    requires Sound(w)
    ensures Keeps(w, ReclaimExpired(w, now).warden)
  {
    var after := ReclaimExpired(w, now).warden;
    ReclaimEvolves(w, now);
    EvolvedLinks(w, after);
    EvolvedKept(w, after);
    EvolvedHeld(w, after);
    forall j: nat | j < |w.pool| ensures Holding(after, j) == Holding(w, j) {
      ReclaimMovesToPool(w, now, j);
    }
  }

  lemma ApplyKeeps(w: Warden, c: Call)
    requires Sound(w) && FreshCall(w, c)
    ensures Keeps(w, Apply(w, c))
  {
    match c
    case IssueRootCall(_, _, _, _, _, _, _, _) => IssueRootKeeps(w, c);
    case SpawnCall(_, _, _, _, _, _, _, _) => SpawnKeeps(w, c);
    case ExecuteCall(_, _, _, _) => ExecuteKeeps(w, c);
    case RevokeCall(branch, epoch) => RevokeKeeps(w, branch, epoch);
    case CloseCall(_) => CloseKeeps(w, c);
    case ReclaimCall(now) => ReclaimKeeps(w, now);
    case _ => StatusKeeps(w, c);
  }

  /** Over every run of calls the warden stays sound and its rights are conserved, component by component. */
  lemma {:induction false} RunKeeps(w: Warden, calls: seq<Call>)
    requires Sound(w) && FreshRun(w, calls)
    ensures Keeps(w, RunCalls(w, calls))
    decreases |calls|
  {
    if calls != [] {
      ApplyKeeps(w, calls[0]);
      RunKeeps(Apply(w, calls[0]), calls[1..]);
    }
  }
}
