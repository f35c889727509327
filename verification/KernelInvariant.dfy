/**
 * What every operation of a warden keeps: its books, the lineage of its leases and the hold of
 * its revocations.
 */
module KernelInvariant {
  import opened Common
  import opened MapSums
  import opened KernelSpec

  // ---- the invariant ----

  predicate MachinesFit(w: Warden) {
    forall digest :: digest in w.machines ==> Registrable(|w.pool|, w.machines[digest])
  }

  /** A lease is filed under its identifier, knows its machine, is signed, and holds nothing once ended. */
  predicate WellKept(w: Warden, id: string)
    requires id in w.leases
  {
    var l := w.leases[id];
    && l.id == id
    && l.machine in w.machines
    && l.signature == PayloadOf(l)
    && (Ended(l) ==> l.residual == Zero(|w.pool|))
  }

  /** The stored path is the parent's path and the parent; capabilities only shrink. */
  predicate LinkedAt(leases: map<string, Lease>, id: string)
    requires id in leases
  {
    var l := leases[id];
    && id !in l.ancestors
    && (forall a :: a in l.ancestors ==> a in leases)
    && match l.parent
       case None => l.ancestors == []
       case Some(p) =>
         p in leases && l.ancestors == leases[p].ancestors + [p] && l.capabilities <= leases[p].capabilities
  }

  /** Nothing at or below a known revocation is active or quiescent. */
  predicate RevocationsHold(w: Warden) {
    forall branch, id :: branch in w.revocations && id in w.leases && IsDescendantOf(w.leases[id], branch) ==>
      w.leases[id].status != Active && w.leases[id].status != Quiescent
  }

  predicate Sound(w: Warden) {
    && Shaped(w) && MachinesFit(w)
    && (forall id {:trigger WellKept(w, id)} :: id in w.leases ==> WellKept(w, id))
    && (forall id {:trigger LinkedAt(w.leases, id)} :: id in w.leases ==> LinkedAt(w.leases, id))
    && RevocationsHold(w)
  }

  function ResidualAt(leases: map<string, Lease>, dim: nat, j: nat): map<string, int>
    requires j < dim && forall id :: id in leases ==> |leases[id].residual| == dim
  {
    map id | id in leases :: leases[id].residual[j]
  }

  /** Everything a warden accounts for in component `j`: pool, consumption and residuals. */
  ghost function Holding(w: Warden, j: nat): int
    requires Shaped(w) && j < |w.pool|
  {
    w.pool[j] + w.consumed[j] + Total(ResidualAt(w.leases, |w.pool|, j))
  }

  /** The books after an operation: still sound, same dimension, and nothing created or lost. */
  ghost predicate Keeps(w: Warden, after: Warden) {
    && Sound(after) && |after.pool| == |w.pool| && Shaped(w)
    && (forall j: nat :: j < |w.pool| ==> Holding(after, j) == Holding(w, j))
  }

  // ---- lease tables that change entry by entry ----

  /** A lease may change its residual, progress, status, expiry and signature, nothing else. */
  predicate Evolves(l: Lease, m: Lease) {
    && m.id == l.id && m.parent == l.parent && m.ancestors == l.ancestors && m.capabilities == l.capabilities
    && m.machine == l.machine && m.allocation == l.allocation && |m.residual| == |l.residual|
    && m.signature == PayloadOf(m)
    && (Ended(m) ==> m.residual == Zero(|l.residual|))
  }

  /** No lease wakes up below a revocation. */
  predicate NoneWakes(w: Warden, l: Lease, m: Lease) {
    m.status == Active || m.status == Quiescent ==>
      l.status == Active || l.status == Quiescent || !RevokedByPrefix(w.revocations, l)
  }

  ghost predicate TableEvolves(w: Warden, after: Warden) {
    && after.leases.Keys == w.leases.Keys
    && after.machines == w.machines && |after.pool| == |w.pool| && |after.consumed| == |w.consumed|
    && (forall id {:trigger Evolves(w.leases[id], after.leases[id])} :: id in w.leases ==>
          Evolves(w.leases[id], after.leases[id]))
  }

  lemma EvolvedLinks(w: Warden, after: Warden)
    requires Sound(w) && TableEvolves(w, after)
    ensures forall id {:trigger LinkedAt(after.leases, id)} :: id in after.leases ==> LinkedAt(after.leases, id)
  {
    forall id | id in after.leases ensures LinkedAt(after.leases, id) {
      assert LinkedAt(w.leases, id) && Evolves(w.leases[id], after.leases[id]);
      if w.leases[id].parent.Some? {
        assert Evolves(w.leases[w.leases[id].parent.value], after.leases[w.leases[id].parent.value]);
      }
    }
  }

  lemma EvolvedKept(w: Warden, after: Warden)
    requires Sound(w) && TableEvolves(w, after)
    ensures Shaped(after) && MachinesFit(after) && forall id {:trigger WellKept(after, id)} :: id in after.leases ==> WellKept(after, id)
  {
    forall id | id in after.leases ensures WellKept(after, id) && |after.leases[id].residual| == |after.pool|
      && |after.leases[id].allocation| == |after.pool|
    {
      assert WellKept(w, id) && Evolves(w.leases[id], after.leases[id]);
    }
    forall digest | digest in after.machines ensures Registrable(|after.pool|, after.machines[digest]) {
      assert Registrable(|w.pool|, w.machines[digest]);
    }
  }

  lemma EvolvedHeld(w: Warden, after: Warden)
    requires Sound(w) && TableEvolves(w, after) && after.revocations == w.revocations
    requires forall id :: id in w.leases ==> NoneWakes(w, w.leases[id], after.leases[id])
    ensures RevocationsHold(after)
  {
    forall branch, id | branch in after.revocations && id in after.leases && IsDescendantOf(after.leases[id], branch)
      ensures after.leases[id].status != Active && after.leases[id].status != Quiescent
    {
      assert Evolves(w.leases[id], after.leases[id]) && NoneWakes(w, w.leases[id], after.leases[id]);
      assert IsDescendantOf(w.leases[id], branch);
      assert RevokedByPrefix(w.revocations, w.leases[id]);
    }
  }

  /** One entry replaced. */
  ghost predicate Touched(w: Warden, id: string, m: Lease, after: Warden) {
    && id in w.leases && Evolves(w.leases[id], m) && NoneWakes(w, w.leases[id], m)
    && after.leases == w.leases[id := m] && after.machines == w.machines
    && after.revocations == w.revocations && |after.pool| == |w.pool| && |after.consumed| == |w.consumed|
  }

  lemma TouchEvolves(w: Warden, id: string, m: Lease, after: Warden)
    requires Touched(w, id, m, after) && forall x {:trigger WellKept(w, x)} :: x in w.leases ==> WellKept(w, x)
    requires Shaped(w)
    ensures TableEvolves(w, after)
    ensures forall x :: x in w.leases ==> NoneWakes(w, w.leases[x], after.leases[x])
  {
    forall x | x in w.leases ensures Evolves(w.leases[x], after.leases[x]) {
      assert WellKept(w, x);
    }
  }

  lemma TouchSound(w: Warden, id: string, m: Lease, after: Warden)
    requires Sound(w) && Touched(w, id, m, after)
    ensures Sound(after)
  {
    TouchEvolves(w, id, m, after);
    EvolvedLinks(w, after);
    EvolvedKept(w, after);
    EvolvedHeld(w, after);
  }

  lemma TouchResidual(leases: map<string, Lease>, dim: nat, id: string, m: Lease, j: nat)
    requires j < dim && (forall x :: x in leases ==> |leases[x].residual| == dim)
    requires id in leases && |m.residual| == dim
    ensures Total(ResidualAt(leases[id := m], dim, j)) ==
            Total(ResidualAt(leases, dim, j)) - leases[id].residual[j] + m.residual[j]
  {
    var was := ResidualAt(leases, dim, j);
    assert ResidualAt(leases[id := m], dim, j) == was[id := m.residual[j]];
    TotalUpdate(was, id, m.residual[j]);
  }

  // ---- registering and adding ----

  lemma RegisterSound(w: Warden, m: MachineSpec)
    requires Sound(w) && Registrable(|w.pool|, m)
    ensures Keeps(w, Register(w, m))
  {
    var after := Register(w, m);
    forall id | id in after.leases ensures WellKept(after, id) && LinkedAt(after.leases, id) {
      assert WellKept(w, id) && LinkedAt(w.leases, id);
    }
    forall digest | digest in after.machines ensures Registrable(|after.pool|, after.machines[digest]) {
      if digest != m.digest {
        assert Registrable(|w.pool|, w.machines[digest]);
      }
    }
  }

  predicate Unused(w: Warden, id: string) {
    id !in w.leases && id !in w.revocations
  }

  /** A new lease filed under an unused identifier. */
  ghost predicate Adds(w: Warden, l: Lease, after: Warden) {
    && Unused(w, l.id) && after == w.(leases := w.leases[l.id := l], pool := after.pool)
    && |after.pool| == |w.pool| == |l.residual| == |l.allocation|
    && l.machine in w.machines && l.signature == PayloadOf(l) && l.status == Active && !RevokedByPrefix(w.revocations, l)
    && LinkedAt(after.leases, l.id)
  }

  lemma AddLinks(w: Warden, l: Lease, after: Warden)
    requires Sound(w) && Adds(w, l, after)
    ensures forall id {:trigger LinkedAt(after.leases, id)} :: id in after.leases ==> LinkedAt(after.leases, id)
  {
    forall id | id in after.leases ensures LinkedAt(after.leases, id) {
      if id != l.id {
        assert LinkedAt(w.leases, id);
      }
    }
  }

  lemma AddKept(w: Warden, l: Lease, after: Warden)
    requires Sound(w) && Adds(w, l, after)
    ensures Shaped(after) && MachinesFit(after) && forall id {:trigger WellKept(after, id)} :: id in after.leases ==> WellKept(after, id)
  {
    forall id | id in after.leases ensures WellKept(after, id) {
      if id != l.id {
        assert WellKept(w, id);
      }
    }
    forall digest | digest in after.machines ensures Registrable(|after.pool|, after.machines[digest]) {
      assert Registrable(|w.pool|, w.machines[digest]);
    }
  }

  lemma AddHeld(w: Warden, l: Lease, after: Warden)
    requires Sound(w) && Adds(w, l, after)
    ensures RevocationsHold(after)
  {
    forall branch, id | branch in after.revocations && id in after.leases && IsDescendantOf(after.leases[id], branch)
      ensures after.leases[id].status != Active && after.leases[id].status != Quiescent
    {
      assert id != l.id;
    }
  }

  lemma AddSound(w: Warden, l: Lease, after: Warden)
    requires Sound(w) && Adds(w, l, after)
    ensures Sound(after)
  {
    AddLinks(w, l, after);
    AddKept(w, l, after);
    AddHeld(w, l, after);
  }

  lemma AddResidual(leases: map<string, Lease>, dim: nat, l: Lease, j: nat)
    requires j < dim && (forall x :: x in leases ==> |leases[x].residual| == dim)
    requires l.id !in leases && |l.residual| == dim
    ensures Total(ResidualAt(leases[l.id := l], dim, j)) == Total(ResidualAt(leases, dim, j)) + l.residual[j]
  {
    AddedAt(leases, dim, l, j);
    TotalInsert(ResidualAt(leases, dim, j), l.id, l.residual[j]);
  }

  lemma AddedAt(leases: map<string, Lease>, dim: nat, l: Lease, j: nat)
    requires j < dim && (forall x :: x in leases ==> |leases[x].residual| == dim) && |l.residual| == dim
    ensures ResidualAt(leases[l.id := l], dim, j) == ResidualAt(leases, dim, j)[l.id := l.residual[j]]
  {
  }
}
