/**
 * Lineage in the reference kernel, one warden and one call at a time: the stored ancestor path is a
 * faithful index of the parent links, capabilities shrink along whole chains, a revoked branch is
 * frozen, and rights stay within their allocations exactly as long as nobody asks for negative ones.
 * `KernelSafety` carries these over whole runs of a system.
 */
module KernelLineage {
  import opened Common
  import MapSums
  import opened KernelSpec
  import opened KernelInvariant
  import opened KernelGuarantees

  predicate Linked(leases: map<string, Lease>) {
    forall id {:trigger LinkedAt(leases, id)} :: id in leases ==> LinkedAt(leases, id)
  }

  // ---- the index and the links ----

  /** `x` is `branch` or is reached from it by following parent links upwards. */
  predicate Below(leases: map<string, Lease>, x: string, branch: string)
    requires Linked(leases) && x in leases
    decreases |leases[x].ancestors|
  {
    x == branch ||
    (leases[x].parent.Some? &&
     (assert LinkedAt(leases, x); Below(leases, leases[x].parent.value, branch)))
  }

  lemma {:induction false} PathIsLinks(leases: map<string, Lease>, x: string, branch: string)
    requires Linked(leases) && x in leases && leases[x].id == x
    requires forall id :: id in leases ==> leases[id].id == id
    ensures IsDescendantOf(leases[x], branch) <==> Below(leases, x, branch)
    decreases |leases[x].ancestors|
  {
    assert LinkedAt(leases, x);
    if leases[x].parent.Some? {
      PathIsLinks(leases, leases[x].parent.value, branch);
    }
  }

  lemma SoundIds(w: Warden)
    requires Sound(w)
    ensures Linked(w.leases) && forall id :: id in w.leases ==> w.leases[id].id == id
  {
    forall id | id in w.leases ensures w.leases[id].id == id {
      assert WellKept(w, id);
    }
  }

  lemma {:induction false} ChainAttenuates(leases: map<string, Lease>, x: string, above: string)
    requires Linked(leases) && x in leases && above in leases[x].ancestors
    ensures above in leases && leases[x].capabilities <= leases[above].capabilities
    decreases |leases[x].ancestors|
  {
    assert LinkedAt(leases, x);
    var p := leases[x].parent.value;
    if above != p {
      ChainAttenuates(leases, p, above);
    }
  }

  // ---- a revoked branch is frozen ----

  /** Either nothing happened to the lease, or it was closed or expired and gave everything back. */
  predicate FrozenLease(l: Lease, m: Lease) {
    m == l || (Ended(m) && m == l.(residual := Zero(|l.residual|), status := m.status, sequence := m.sequence))
  }

  predicate FrozenAt(w: Warden, after: Warden, branch: string, id: string)
    requires id in after.leases
  {
    IsDescendantOf(after.leases[id], branch) ==> id in w.leases && FrozenLease(w.leases[id], after.leases[id])
  }

  /** The branch stays revoked, gains no lease, and its leases only ever give their residual back. */
  ghost predicate Frozen(w: Warden, after: Warden, branch: string) {
    && branch in after.revocations
    && w.leases.Keys <= after.leases.Keys
    && (forall id {:trigger FrozenAt(w, after, branch, id)} :: id in after.leases ==> FrozenAt(w, after, branch, id))
    && (forall id :: id in w.leases ==> after.leases[id].ancestors == w.leases[id].ancestors && after.leases[id].id == w.leases[id].id)
  }

  lemma RefusesBelow(w: Warden, branch: string, id: string, now: real)
    requires Sound(w) && branch in w.revocations && id in w.leases && IsDescendantOf(w.leases[id], branch)
    ensures Refusal(w, id, now) == Some(PermissionError)
  {
    assert RevokedByPrefix(w.revocations, w.leases[id]);
  }

  /** The lease a call would delegate from, spend, suspend, wake or extend. */
  function ActsOn(c: Call): Option<string> {
    match c
    case SpawnCall(parent, _, _, _, _, _, _, _) => Some(parent)
    case ExecuteCall(lease, _, _, _) => Some(lease)
    case QuiesceCall(lease, _) => Some(lease)
    case ResumeCall(lease, _) => Some(lease)
    case RenewCall(lease, _, _) => Some(lease)
    case _ => None
  }

  /** Under a known revocation every such call on the branch is refused and changes nothing. */
  lemma RevokedBranchRefuses(w: Warden, branch: string, c: Call)
    requires Sound(w) && branch in w.revocations && ActsOn(c).Some?
    requires ActsOn(c).value in w.leases && IsDescendantOf(w.leases[ActsOn(c).value], branch)
    ensures Apply(w, c) == w
  {
    var id := ActsOn(c).value;
    if c.ResumeCall? {
      assert RevokedByPrefix(w.revocations, w.leases[id]);
    } else {
      RefusesBelow(w, branch, id, c.now);
    }
  }

  /** A child added below a parent outside the branch. */
  lemma GrowFreezes(w: Warden, branch: string, parent: string, id: string, after: Warden)
    requires branch in w.revocations && after.revocations == w.revocations
    requires parent in w.leases && id !in w.leases && parent in after.leases && id in after.leases
    requires after.leases == w.leases[parent := after.leases[parent]][id := after.leases[id]]
    requires after.leases[parent].ancestors == w.leases[parent].ancestors && after.leases[parent].id == w.leases[parent].id
    requires !IsDescendantOf(w.leases[parent], branch) && !IsDescendantOf(after.leases[id], branch)
    ensures Frozen(w, after, branch)
  {
    forall x | x in after.leases ensures FrozenAt(w, after, branch, x) {
    }
  }

  lemma SpawnFreezes(w: Warden, branch: string, c: Call)
    requires Sound(w) && branch in w.revocations && c.SpawnCall? && FreshCall(w, c)
    ensures Frozen(w, Apply(w, c), branch)
  {
    var after := Apply(w, c);
    if Raises(w, c) {
      TableFreezes(w, branch, after);
    } else {
      assert WellKept(w, c.parent);
      if IsDescendantOf(w.leases[c.parent], branch) {
        RefusesBelow(w, branch, c.parent, c.now);
      } else {
        GrowFreezes(w, branch, c.parent, c.id, after);
      }
    }
  }

  lemma TableFreezes(w: Warden, branch: string, after: Warden)
    requires branch in w.revocations && after.revocations == w.revocations && after.leases == w.leases
    ensures Frozen(w, after, branch)
  {
    forall id | id in after.leases ensures FrozenAt(w, after, branch, id) {
    }
  }

  /** A call that changes only lease `x`, which is outside the branch or merely ends. */
  lemma TouchFreezes(w: Warden, branch: string, x: string, after: Warden)
    requires branch in w.revocations && after.revocations == w.revocations && x in w.leases && x in after.leases
    requires after.leases == w.leases[x := after.leases[x]]
    requires after.leases[x].ancestors == w.leases[x].ancestors && after.leases[x].id == w.leases[x].id
    requires IsDescendantOf(w.leases[x], branch) ==> FrozenLease(w.leases[x], after.leases[x])
    ensures Frozen(w, after, branch)
  {
    forall id | id in after.leases ensures FrozenAt(w, after, branch, id) {
    }
  }

  lemma ActingFreezes(w: Warden, branch: string, c: Call)
    requires Sound(w) && branch in w.revocations
    requires c.ExecuteCall? || c.QuiesceCall? || c.ResumeCall? || c.RenewCall?
    ensures Frozen(w, Apply(w, c), branch)
  {
    if c.lease !in w.leases || IsDescendantOf(w.leases[c.lease], branch) || Apply(w, c) == w {
      if c.lease in w.leases && IsDescendantOf(w.leases[c.lease], branch) {
        RevokedBranchRefuses(w, branch, c);
      }
      TableFreezes(w, branch, w);
    } else {
      assert WellKept(w, c.lease);
      TouchFreezes(w, branch, c.lease, Apply(w, c));
    }
  }

  lemma CloseFreezes(w: Warden, branch: string, c: Call)
    requires Sound(w) && branch in w.revocations && c.CloseCall?
    ensures Frozen(w, Apply(w, c), branch)
  {
    if c.lease !in w.leases || Apply(w, c) == w {
      TableFreezes(w, branch, w);
    } else {
      TouchFreezes(w, branch, c.lease, Apply(w, c));
    }
  }

  lemma RevokeFreezes(w: Warden, branch: string, revoked: string, epoch: int)
    requires Sound(w) && branch in w.revocations
    ensures Frozen(w, RevokeBranch(w, revoked, epoch).warden, branch)
  {
    var after := RevokeBranch(w, revoked, epoch).warden;
    forall id | id in after.leases ensures FrozenAt(w, after, branch, id) {
    }
  }

  lemma ReclaimFreezes(w: Warden, branch: string, now: real)
    requires Sound(w) && branch in w.revocations
    ensures Frozen(w, ReclaimExpired(w, now).warden, branch)
  {
    var after := ReclaimExpired(w, now).warden;
    forall id | id in after.leases ensures FrozenAt(w, after, branch, id) {
    }
  }

  lemma IssueFreezes(w: Warden, branch: string, c: Call)
    requires Sound(w) && branch in w.revocations && c.IssueRootCall? && FreshCall(w, c)
    ensures Frozen(w, Apply(w, c), branch)
  {
    var after := Apply(w, c);
    forall id | id in after.leases ensures FrozenAt(w, after, branch, id) {
    }
  }

  lemma CallFreezes(w: Warden, branch: string, c: Call)
    requires Sound(w) && branch in w.revocations && FreshCall(w, c)
    ensures Frozen(w, Apply(w, c), branch)
  {
    match c
    case SpawnCall(_, _, _, _, _, _, _, _) => SpawnFreezes(w, branch, c);
    case IssueRootCall(_, _, _, _, _, _, _, _) => IssueFreezes(w, branch, c);
    case RevokeCall(revoked, epoch) => RevokeFreezes(w, branch, revoked, epoch);
    case ReclaimCall(now) => ReclaimFreezes(w, branch, now);
    case CloseCall(_) => CloseFreezes(w, branch, c);
    case _ => ActingFreezes(w, branch, c);
  }

  lemma FrozenTransitive(w: Warden, mid: Warden, after: Warden, branch: string)
    requires Frozen(w, mid, branch) && Frozen(mid, after, branch)
    ensures Frozen(w, after, branch)
  {
    forall id | id in after.leases ensures FrozenAt(w, after, branch, id) {
      assert FrozenAt(mid, after, branch, id);
      if id in mid.leases {
        assert FrozenAt(w, mid, branch, id);
      }
    }
  }

  // ---- solvency ----

  predicate SolventLease(l: Lease) {
    Nonneg(l.residual) && VLeq(l.residual, l.allocation)
  }

  /** No component is negative and no lease holds more than it was allocated. */
  predicate Solvent(w: Warden) {
    && Nonneg(w.pool) && Nonneg(w.consumed)
    && forall id :: id in w.leases ==> SolventLease(w.leases[id])
  }

  /**
   * The source does not reject negative allocations.  A successful issue or spawn leaves the warden
   * solvent if and only if the allocation asked for is nonnegative.
   */
  lemma AllocationDecidesSolvency(w: Warden, c: Call)
    requires Sound(w) && Solvent(w) && FreshCall(w, c) && (c.IssueRootCall? || c.SpawnCall?)
    requires c.id in Apply(w, c).leases
    ensures Solvent(Apply(w, c)) <==> Nonneg(c.allocation)
  {
    var after := Apply(w, c);
    assert after.leases[c.id].residual == c.allocation;
    if Solvent(after) {
      assert SolventLease(after.leases[c.id]);
    }
    if Nonneg(c.allocation) {
      forall id | id in after.leases ensures SolventLease(after.leases[id]) {
        if id != c.id {
          assert SolventLease(w.leases[id]);
        }
      }
    }
  }

  predicate ModestCall(c: Call) {
    c.IssueRootCall? || c.SpawnCall? ==> Nonneg(c.allocation)
  }

  lemma GrantStaysSolvent(w: Warden, c: Call)
    requires Sound(w) && Solvent(w) && FreshCall(w, c) && ModestCall(c) && (c.IssueRootCall? || c.SpawnCall?)
    ensures Solvent(Apply(w, c))
  {
    if c.id in Apply(w, c).leases {
      AllocationDecidesSolvency(w, c);
    } else {
      assert Apply(w, c).leases == w.leases;
    }
  }

  lemma ExecuteStaysSolvent(w: Warden, c: Call)
    requires Sound(w) && Solvent(w) && c.ExecuteCall?
    ensures Solvent(Apply(w, c))
  {
    var r := Execute(w, c.lease, c.name, c.evidence, c.now);
    if r.Done? {
      var l := w.leases[c.lease];
      var m := w.machines[l.machine];
      var t := FindTransition(m, l.state, c.name).value;
      assert Registrable(|w.pool|, m);
      assert exists j :: 0 <= j < |m.transitions| && m.transitions[j] == t;
      assert SolventLease(l);
      forall id | id in r.warden.leases ensures SolventLease(r.warden.leases[id]) {
        if id != c.lease {
          assert SolventLease(w.leases[id]);
        }
      }
    }
  }

  /** A call that changes one lease and neither its residual nor its allocation. */
  lemma TouchStaysSolvent(w: Warden, id: string, after: Warden)
    requires Solvent(w) && id in w.leases && id in after.leases
    requires after == w.(leases := w.leases[id := after.leases[id]])
    requires after.leases[id].residual == w.leases[id].residual && after.leases[id].allocation == w.leases[id].allocation
    ensures Solvent(after)
  {
    forall x | x in after.leases ensures SolventLease(after.leases[x]) {
      assert SolventLease(w.leases[x]);
    }
  }

  lemma StatusStaysSolvent(w: Warden, c: Call)
    requires Sound(w) && Solvent(w) && (c.QuiesceCall? || c.ResumeCall? || c.RenewCall?)
    ensures Solvent(Apply(w, c))
  {
    if c.lease in w.leases && Apply(w, c) != w {
      assert WellKept(w, c.lease);
      TouchStaysSolvent(w, c.lease, Apply(w, c));
    }
  }

  lemma RevokeStaysSolvent(w: Warden, branch: string, epoch: int)
    requires Solvent(w)
    ensures Solvent(RevokeBranch(w, branch, epoch).warden)
  {
    var after := RevokeBranch(w, branch, epoch).warden;
    forall id | id in after.leases ensures SolventLease(after.leases[id]) {
      assert SolventLease(w.leases[id]);
    }
  }

  lemma CloseStaysSolvent(w: Warden, lease: string)
    requires Sound(w) && Solvent(w)
    ensures Solvent(Close(w, lease).warden)
  {
    var after := Close(w, lease).warden;
    if lease in w.leases {
      assert SolventLease(w.leases[lease]);
      forall id | id in after.leases ensures SolventLease(after.leases[id]) {
        assert SolventLease(w.leases[id]);
      }
    }
  }

  lemma ReclaimStaysSolvent(w: Warden, now: real)
    requires Sound(w) && Solvent(w)
    ensures Solvent(ReclaimExpired(w, now).warden)
  {
    var after := ReclaimExpired(w, now).warden;
    ReclaimShape(w, now);
    forall j: nat | j < |w.pool| ensures 0 <= after.pool[j] {
      var lapsed := LapsedRights(w, now, j);
      forall id | id in lapsed ensures 0 <= lapsed[id] {
        assert SolventLease(w.leases[id]);
      }
      MapSums.TotalNonneg(lapsed);
    }
    forall id | id in after.leases ensures SolventLease(after.leases[id]) {
      assert SolventLease(w.leases[id]);
    }
  }

  lemma CallStaysSolvent(w: Warden, c: Call)
    requires Sound(w) && Solvent(w) && FreshCall(w, c) && ModestCall(c)
    ensures Solvent(Apply(w, c))
  {
    match c
    case IssueRootCall(_, _, _, _, _, _, _, _) => GrantStaysSolvent(w, c);
    case SpawnCall(_, _, _, _, _, _, _, _) => GrantStaysSolvent(w, c);
    case ExecuteCall(_, _, _, _) => ExecuteStaysSolvent(w, c);
    case RevokeCall(branch, epoch) => RevokeStaysSolvent(w, branch, epoch);
    case CloseCall(lease) => CloseStaysSolvent(w, lease);
    case ReclaimCall(now) => ReclaimStaysSolvent(w, now);
    case _ => StatusStaysSolvent(w, c);
  }
}
