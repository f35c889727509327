/**
 * How the reference kernel's leases move with one call: every change to a lease takes the next
 * sequence number, a lease that has ended is left alone, revocation epochs do not fall, and spawning
 * and renewing nest the expiry at that moment.  `KernelSafety` carries this over whole runs.
 */
module KernelProgress {
  import opened Common
  import opened KernelSpec
  import opened KernelInvariant
  import opened KernelGuarantees

  /** One call leaves the lease alone or takes its next sequence number, and never touches an ended one. */
  predicate Moves(l: Lease, m: Lease) {
    m == l || (m.sequence == l.sequence + 1 && !Ended(l))
  }

  lemma ActingMoves(w: Warden, c: Call, id: string)
    requires Sound(w) && FreshCall(w, c) && id in w.leases
    requires !c.RevokeCall? && !c.CloseCall? && !c.ReclaimCall?
    ensures id in Apply(w, c).leases && Moves(w.leases[id], Apply(w, c).leases[id])
  {
    if c.RenewCall? {
      RenewMoves(w, c.lease, c.ttl, c.now, id);
    }
  }

  lemma RenewMoves(w: Warden, lease: string, ttl: real, now: real, id: string)
    requires Sound(w) && id in w.leases
    ensures var after := Renew(w, lease, ttl, now).warden;
      id in after.leases && Moves(w.leases[id], after.leases[id])
  {
    if Renew(w, lease, ttl, now).Done? {
      assert WellKept(w, lease);
    }
  }

  lemma CallMoves(w: Warden, c: Call, id: string)
    requires Sound(w) && FreshCall(w, c) && id in w.leases
    ensures id in Apply(w, c).leases && Moves(w.leases[id], Apply(w, c).leases[id])
  {
    if !c.RevokeCall? && !c.CloseCall? && !c.ReclaimCall? {
      ActingMoves(w, c, id);
    }
  }

  /** A call never forgets a revocation and never lowers its epoch. */
  lemma CallKeepsEpochs(w: Warden, c: Call, branch: string)
    requires branch in w.revocations
    ensures branch in Apply(w, c).revocations && w.revocations[branch] <= Apply(w, c).revocations[branch]
  {
  }

  /** A lease just spawned or renewed under a parent expires no later than the parent then does. */
  lemma GrantsNestExpiry(w: Warden, c: Call)
    requires Sound(w) && FreshCall(w, c) && (c.SpawnCall? || c.RenewCall?) && !Raises(w, c)
    ensures var after := Apply(w, c).leases;
      var id := if c.SpawnCall? then c.id else c.lease;
      && id in after
      && (after[id].parent.Some? ==>
            after[id].parent.value in after && after[id].expiresAt <= after[after[id].parent.value].expiresAt)
  {
    if c.RenewCall? {
      assert WellKept(w, c.lease) && LinkedAt(w.leases, c.lease);
    } else {
      assert WellKept(w, c.parent);
    }
  }
}
