/**
 * When each call on a sound warden succeeds, and what it then does: told by the lease, its parent
 * links, its machine and the amounts component by component, with nothing else changed.  Every
 * warden of every run is sound.
 */
module KernelExactly {
  import opened Common
  import opened KernelSpec
  import opened KernelInvariant
  import opened KernelGuarantees
  import opened KernelLineage
  import opened MapSums

  // ---- leases that may act ----

  /** No revocation is known of the lease or of anything it hangs from. */
  ghost predicate Unrevoked(w: Warden, id: string)
    requires Linked(w.leases) && id in w.leases
  {
    forall branch :: branch in w.revocations ==> !Below(w.leases, id, branch)
  }

  /** On file, active, not expired, and under no known revocation. */
  ghost predicate Living(w: Warden, id: string, now: real)
    requires Linked(w.leases)
  {
    id in w.leases && w.leases[id].status == Active && now < w.leases[id].expiresAt && Unrevoked(w, id)
  }

  lemma RevokedExactly(w: Warden, id: string)
    requires Sound(w) && id in w.leases
    ensures Linked(w.leases) && (RevokedByPrefix(w.revocations, w.leases[id]) <==> !Unrevoked(w, id))
  {
    SoundIds(w);
    forall branch ensures IsDescendantOf(w.leases[id], branch) <==> Below(w.leases, id, branch) {
      PathIsLinks(w.leases, id, branch);
    }
  }

  lemma RefusalExactly(w: Warden, id: string, now: real)
    requires Sound(w)
    ensures Linked(w.leases)
    ensures Refusal(w, id, now) ==
      if Living(w, id, now) then None else if id in w.leases then Some(PermissionError) else Some(KeyError)
  {
    SoundIds(w);
    if id in w.leases {
      RevokedExactly(w, id);
      assert WellKept(w, id);
    }
  }

  /** The two leases agree in everything a signature covers. */
  predicate SignedAlike(l: Lease, m: Lease) {
    && l.id == m.id && l.lineage == m.lineage && l.parent == m.parent && l.subject == m.subject && l.warden == m.warden
    && l.allocation == m.allocation && l.capabilities == m.capabilities && l.machine == m.machine
    && l.ancestors == m.ancestors && l.issuedAt == m.issuedAt && l.expiresAt == m.expiresAt && l.epoch == m.epoch
  }

  /** A lease that bears the signature of `signed` is refused exactly when it differs from it in what a signature covers. */
  lemma ForgeryIsRefused(w: Warden, id: string, now: real, signed: Lease)
    requires id in w.leases && w.leases[id].signature == PayloadOf(signed)
    requires w.leases[id].status == Active && now < w.leases[id].expiresAt && !RevokedByPrefix(w.revocations, w.leases[id])
    ensures Refusal(w, id, now) == if SignedAlike(w.leases[id], signed) then None else Some(PermissionError)
  {
  }

  /** Every component of `a` is within that of `b`. */
  predicate Covers(b: Vector, a: Vector) {
    |a| == |b| && forall i :: 0 <= i < |a| ==> a[i] <= b[i]
  }

  /** `c` is `a` less `b`, component by component. */
  predicate Less(a: Vector, b: Vector, c: Vector) {
    |a| == |b| == |c| && forall i :: 0 <= i < |a| ==> c[i] == a[i] - b[i]
  }

  lemma SubExactly(a: Vector, b: Vector)
    ensures VSub(a, b).Some? <==> Covers(a, b)
    ensures VSub(a, b).Some? ==> Less(a, b, VSub(a, b).value)
    ensures VLeq(b, a) <==> Covers(a, b)
  {
  }

  lemma AddExactly(a: Vector, b: Vector)
    ensures VAdd(a, b).Some? <==> |a| == |b|
    ensures VAdd(a, b).Some? ==> Less(VAdd(a, b).value, b, a)
  {
  }

  // ---- executing ----

  predicate Leaves(t: TransitionSpec, state: string, name: string) {
    t.source == state && t.name == name
  }

  /** Transition `i` is the only one of that name out of the state. */
  predicate OnlyWay(ts: seq<TransitionSpec>, state: string, name: string, i: nat) {
    && i < |ts| && Leaves(ts[i], state, name)
    && forall k :: 0 <= k < |ts| && Leaves(ts[k], state, name) ==> k == i
  }

  lemma {:induction false} NoMatches(ts: seq<TransitionSpec>, state: string, name: string)
    ensures |Matches(ts, state, name)| == 0 <==> forall k :: 0 <= k < |ts| ==> !Leaves(ts[k], state, name)
  {
    if ts != [] {
      var n := |ts| - 1;
      NoMatches(ts[..n], state, name);
      assert forall k :: 0 <= k < n ==> ts[..n][k] == ts[k];
      if forall k :: 0 <= k < n ==> !Leaves(ts[..n][k], state, name) {
        assert forall k :: 0 <= k < n ==> !Leaves(ts[k], state, name);
      } else {
        var k :| 0 <= k < n && Leaves(ts[..n][k], state, name);
        assert Leaves(ts[k], state, name);
      }
    }
  }

  lemma {:induction false} OneMatch(ts: seq<TransitionSpec>, state: string, name: string)
    ensures |Matches(ts, state, name)| == 1 <==> exists i: nat :: OnlyWay(ts, state, name, i)
    ensures forall i: nat :: OnlyWay(ts, state, name, i) ==> Matches(ts, state, name) == [ts[i]]
  {
    if ts != [] {
      var n := |ts| - 1;
      var front := ts[..n];
      assert forall k :: 0 <= k < n ==> front[k] == ts[k];
      OneMatch(front, state, name);
      NoMatches(front, state, name);
      if Leaves(ts[n], state, name) {
        LastMatches(ts, state, name);
      } else {
        forall i: nat ensures OnlyWay(ts, state, name, i) <==> OnlyWay(front, state, name, i) {
          FrontMatches(ts, state, name, i);
        }
      }
    }
  }

  lemma FrontMatches(ts: seq<TransitionSpec>, state: string, name: string, i: nat)
    requires ts != [] && !Leaves(ts[|ts| - 1], state, name)
    ensures OnlyWay(ts, state, name, i) <==> OnlyWay(ts[..|ts| - 1], state, name, i)
  {
    var front := ts[..|ts| - 1];
    assert forall k :: 0 <= k < |front| ==> front[k] == ts[k];
    if OnlyWay(front, state, name, i) {
      forall k | 0 <= k < |ts| && Leaves(ts[k], state, name) ensures k == i {
        assert k < |front| && Leaves(front[k], state, name);
      }
    }
    if OnlyWay(ts, state, name, i) {
      forall k | 0 <= k < |front| && Leaves(front[k], state, name) ensures k == i {
        assert Leaves(ts[k], state, name);
      }
    }
  }

  lemma LastMatches(ts: seq<TransitionSpec>, state: string, name: string)
    requires ts != [] && Leaves(ts[|ts| - 1], state, name)
    ensures forall i: nat :: OnlyWay(ts, state, name, i) ==> i == |ts| - 1
    ensures OnlyWay(ts, state, name, |ts| - 1) <==> |Matches(ts[..|ts| - 1], state, name)| == 0
  {
    var front := ts[..|ts| - 1];
    NoMatches(front, state, name);
    assert forall k :: 0 <= k < |front| ==> front[k] == ts[k];
    if OnlyWay(ts, state, name, |ts| - 1) {
      forall k | 0 <= k < |front| ensures !Leaves(front[k], state, name) {
        assert front[k] == ts[k];
      }
    } else {
      var k :| 0 <= k < |ts| && Leaves(ts[k], state, name) && k != |ts| - 1;
      assert Leaves(front[k], state, name);
    }
  }

  predicate Permits(l: Lease, t: TransitionSpec, evidence: Evidence) {
    t.capability in l.capabilities && (t.guard.Some? ==> t.guard.value(evidence))
  }

  /** The lease may take the transition: the capability, the evidence and the rights are there. */
  predicate Allowed(l: Lease, t: TransitionSpec, evidence: Evidence) {
    Permits(l, t, evidence) && Covers(l.residual, t.cost)
  }

  /** The whole effect of taking transition `t` on lease `id`. */
  ghost predicate Executed(w: Warden, id: string, t: TransitionSpec, after: Warden)
    requires id in w.leases
  {
    && id in after.leases && after == w.(leases := w.leases[id := after.leases[id]], consumed := after.consumed)
    && Less(after.consumed, t.cost, w.consumed)
    && var l, m := w.leases[id], after.leases[id];
       && Less(l.residual, t.cost, m.residual)
       && m == l.(residual := m.residual, state := t.target, sequence := l.sequence + 1)
  }

  /** The only transition of that name out of the state of lease `id` is `i`. */
  ghost predicate WayOf(w: Warden, id: string, name: string, i: nat)
    requires id in w.leases
  {
    w.leases[id].machine in w.machines
    && OnlyWay(w.machines[w.leases[id].machine].transitions, w.leases[id].state, name, i)
  }

  lemma WayFound(w: Warden, id: string, name: string, i: nat)
    requires Sound(w) && id in w.leases && WayOf(w, id, name, i)
    ensures var m := w.machines[w.leases[id].machine];
      FindTransition(m, w.leases[id].state, name) == Some(m.transitions[i]) && |m.transitions[i].cost| == |w.pool|
  {
    OneMatch(w.machines[w.leases[id].machine].transitions, w.leases[id].state, name);
    assert Registrable(|w.pool|, w.machines[w.leases[id].machine]);
  }

  /** Executing with the one transition there is: it succeeds exactly when it is allowed. */
  lemma ExecuteKnownWay(w: Warden, id: string, name: string, evidence: Evidence, now: real, i: nat)
    requires Sound(w) && Linked(w.leases) && Living(w, id, now) && WayOf(w, id, name, i)
    ensures var l := w.leases[id]; var t := w.machines[l.machine].transitions[i];
      var r := Execute(w, id, name, evidence, now);
      && (r.Done? <==> Allowed(l, t, evidence))
      && (r.Done? ==> Executed(w, id, t, r.warden) && r.value == r.warden.leases[id])
      && (r.Raised? ==> r.warden == w && r.error == if Permits(l, t, evidence) then ValueError else PermissionError)
  {
    RefusalExactly(w, id, now);
    WayFound(w, id, name, i);
    var l := w.leases[id];
    var t := w.machines[l.machine].transitions[i];
    SubExactly(l.residual, t.cost);
    AddExactly(w.consumed, t.cost);
  }

  /** Without a living lease or without exactly one transition, nothing is executed. */
  lemma ExecuteNoWay(w: Warden, id: string, name: string, evidence: Evidence, now: real)
    requires Sound(w) && Linked(w.leases)
    requires !Living(w, id, now) || forall i: nat :: !WayOf(w, id, name, i)
    ensures var r := Execute(w, id, name, evidence, now);
      && r.Raised? && r.warden == w
      && r.error == if Living(w, id, now) then ValueError else if id in w.leases then PermissionError else KeyError
  {
    RefusalExactly(w, id, now);
    if Living(w, id, now) {
      assert WellKept(w, id);
      var m := w.machines[w.leases[id].machine];
      OneMatch(m.transitions, w.leases[id].state, name);
      assert forall i: nat :: OnlyWay(m.transitions, w.leases[id].state, name, i) ==> WayOf(w, id, name, i);
    }
  }

  /** The lease lives and may take transition `i` of its machine under that name. */
  ghost predicate MayExecute(w: Warden, id: string, name: string, evidence: Evidence, now: real, i: nat)
    requires Linked(w.leases)
  {
    Living(w, id, now) && WayOf(w, id, name, i)
    && Allowed(w.leases[id], w.machines[w.leases[id].machine].transitions[i], evidence)
  }

  /**
   * An execution succeeds exactly when the lease lives and the one transition of that name out of its
   * state is allowed; then the state is the target, the cost has gone from the residual to the
   * consumption, and nothing else differs.  Otherwise nothing differs at all.
   */
  lemma ExecutesExactlyWhen(w: Warden, id: string, name: string, evidence: Evidence, now: real)
    requires Sound(w)
    ensures Linked(w.leases)
    ensures var r := Execute(w, id, name, evidence, now);
      && (r.Done? <==> exists i: nat :: MayExecute(w, id, name, evidence, now, i))
      && (r.Raised? ==> r.warden == w && (r.error == KeyError <==> id !in w.leases))
      && (forall i: nat :: MayExecute(w, id, name, evidence, now, i) ==>
            Executed(w, id, w.machines[w.leases[id].machine].transitions[i], r.warden) && r.Done? && r.value == r.warden.leases[id])
  {
    SoundIds(w);
    if i: nat :| Living(w, id, now) && WayOf(w, id, name, i) {
      ExecuteKnownWay(w, id, name, evidence, now, i);
      assert Allowed(w.leases[id], w.machines[w.leases[id].machine].transitions[i], evidence) <==>
        MayExecute(w, id, name, evidence, now, i);
    } else {
      ExecuteNoWay(w, id, name, evidence, now);
    }
  }

  // ---- granting ----

  /** No transition of the machine has a negative cost. */
  predicate Priced(m: MachineSpec) {
    forall i, c :: 0 <= i < |m.transitions| && 0 <= c < |m.transitions[i].cost| ==> 0 <= m.transitions[i].cost[c]
  }

  /** Every cost of the machine has the warden's dimension. */
  predicate Sized(w: Warden, m: MachineSpec) {
    forall i :: 0 <= i < |m.transitions| ==> |m.transitions[i].cost| == |w.pool|
  }

  lemma RegistrableExactly(w: Warden, m: MachineSpec)
    ensures Registrable(|w.pool|, m) <==> Sized(w, m) && Priced(m)
  {
    if Sized(w, m) && Priced(m) {
      forall i | 0 <= i < |m.transitions| ensures Nonneg(m.transitions[i].cost) {
      }
    }
    if Registrable(|w.pool|, m) {
      forall i, c | 0 <= i < |m.transitions| && 0 <= c < |m.transitions[i].cost| ensures 0 <= m.transitions[i].cost[c] {
        assert Nonneg(m.transitions[i].cost);
      }
    }
  }

  /** A lease as it is when it is granted: active, unused, signed, in its machine's first state. */
  predicate Granted(l: Lease, w: Warden, id: string, subject: string, allocation: Vector, capabilities: set<string>,
                    machine: MachineSpec, now: real) {
    && l.id == id && l.subject == subject && l.warden == w.id
    && l.allocation == allocation && l.residual == allocation && l.capabilities == capabilities
    && l.machine == machine.digest && l.state == machine.initialState
    && l.issuedAt == now && l.status == Active && l.signature == PayloadOf(l) && l.sequence == 0
  }

  /**
   * A root is issued exactly when its machine fits the warden and the pool covers the allocation; then
   * the pool pays for it.  The machine stays on file also when the pool does not cover it.
   */
  lemma IssuesExactlyWhen(w: Warden, id: string, lineage: string, subject: string, allocation: Vector,
                          capabilities: set<string>, machine: MachineSpec, ttl: real, now: real)
    ensures var r := IssueRoot(w, id, lineage, subject, allocation, capabilities, machine, ttl, now);
      && (r.Done? <==> Sized(w, machine) && Priced(machine) && Covers(w.pool, allocation))
      && (r.Raised? ==> r.error == ValueError)
      && (r.Raised? ==> r.warden == if Sized(w, machine) && Priced(machine) then Register(w, machine) else w)
      && (r.Done? ==>
            && r.warden == w.(pool := r.warden.pool, leases := w.leases[id := r.value],
                              machines := w.machines[machine.digest := machine])
            && Less(w.pool, allocation, r.warden.pool)
            && Granted(r.value, w, id, subject, allocation, capabilities, machine, now)
            && r.value.lineage == lineage && r.value.parent == None && r.value.ancestors == []
            && r.value.expiresAt == now + ttl && r.value.epoch == 0)
  {
    RegistrableExactly(w, machine);
    SubExactly(w.pool, allocation);
  }

  /** The parent lives, holds the capabilities and covers the allocation; a machine of its own fits. */
  ghost predicate MaySpawn(w: Warden, parent: string, allocation: Vector, capabilities: set<string>,
                           machine: Option<MachineSpec>, now: real)
    requires Linked(w.leases)
  {
    && Living(w, parent, now)
    && (forall c :: c in capabilities ==> c in w.leases[parent].capabilities)
    && Covers(w.leases[parent].residual, allocation)
    && (machine.Some? ==> Sized(w, machine.value) && Priced(machine.value))
  }

  /** The effect of a spawn: the parent pays for the child and takes its next sequence number. */
  ghost predicate Spawned(w: Warden, parent: string, child: Lease, after: Warden, spec: MachineSpec)
    requires parent in w.leases
  {
    && parent in after.leases
    && after == w.(leases := w.leases[parent := after.leases[parent]][child.id := child],
                   machines := w.machines[spec.digest := spec])
    && var l, m := w.leases[parent], after.leases[parent];
       && m == l.(residual := m.residual, sequence := l.sequence + 1) && Less(l.residual, child.allocation, m.residual)
       && child.lineage == l.lineage && child.parent == Some(parent) && child.epoch == l.epoch
  }

  lemma SpawnUnder(w: Warden, parent: string, id: string, subject: string, allocation: Vector,
                   capabilities: set<string>, machine: Option<MachineSpec>, ttl: real, now: real, spec: MachineSpec)
    requires Sound(w) && Linked(w.leases) && Living(w, parent, now)
    requires w.leases[parent].machine in w.machines
    requires spec == if machine.Some? then machine.value else w.machines[w.leases[parent].machine]
    ensures var r := SpawnLocal(w, parent, id, subject, allocation, capabilities, machine, ttl, now);
      && (r.Done? <==> MaySpawn(w, parent, allocation, capabilities, machine, now))
      && (r.Raised? ==> r.warden == w && r.error == if capabilities <= w.leases[parent].capabilities then ValueError else PermissionError)
      && (r.Done? ==> r.value == ChildLease(w.id, w.leases[parent], id, subject, allocation, capabilities, spec, ttl, now))
  {
    RefusalExactly(w, parent, now);
    RegistrableExactly(w, spec);
    SubExactly(w.leases[parent].residual, allocation);
    assert MachinesFit(w);
  }

  lemma SpawnEffect(w: Warden, parent: string, id: string, subject: string, allocation: Vector,
                    capabilities: set<string>, machine: Option<MachineSpec>, ttl: real, now: real, spec: MachineSpec)
    requires Sound(w) && id !in w.leases && parent in w.leases && w.leases[parent].machine in w.machines
    requires spec == if machine.Some? then machine.value else w.machines[w.leases[parent].machine]
    requires SpawnLocal(w, parent, id, subject, allocation, capabilities, machine, ttl, now).Done?
    ensures var r := SpawnLocal(w, parent, id, subject, allocation, capabilities, machine, ttl, now);
      && Spawned(w, parent, r.value, r.warden, spec)
      && Granted(r.value, w, id, subject, allocation, capabilities, spec, now)
      && r.value.expiresAt == (if now + ttl < w.leases[parent].expiresAt then now + ttl else w.leases[parent].expiresAt)
  {
    SubExactly(w.leases[parent].residual, allocation);
    assert WellKept(w, parent);
  }

  /**
   * A child is spawned exactly when the parent lives, holds its capabilities and covers its
   * allocation, and its machine fits; then the parent pays, the child expires no later than the
   * parent, and it hangs exactly from the parent and what the parent hangs from.
   */
  lemma SpawnsExactlyWhen(w: Warden, parent: string, id: string, subject: string, allocation: Vector,
                          capabilities: set<string>, machine: Option<MachineSpec>, ttl: real, now: real)
    requires Sound(w) && Unused(w, id)
    ensures Linked(w.leases)
    ensures var r := SpawnLocal(w, parent, id, subject, allocation, capabilities, machine, ttl, now);
      && (r.Done? <==> MaySpawn(w, parent, allocation, capabilities, machine, now))
      && (r.Raised? ==> r.warden == w)
      && (r.Raised? ==> (r.error == KeyError <==> parent !in w.leases))
      && (r.Raised? ==> (r.error == ValueError <==> Living(w, parent, now) && capabilities <= w.leases[parent].capabilities))
      && (r.Raised? ==> r.error in {KeyError, ValueError, PermissionError})
      && (r.Done? ==>
            var spec := if machine.Some? then machine.value else w.machines[w.leases[parent].machine];
            && Spawned(w, parent, r.value, r.warden, spec)
            && Granted(r.value, w, id, subject, allocation, capabilities, spec, now)
            && r.value.expiresAt == (if now + ttl < w.leases[parent].expiresAt then now + ttl else w.leases[parent].expiresAt))
  {
    RefusalExactly(w, parent, now);
    if Living(w, parent, now) {
      assert WellKept(w, parent);
      var spec := if machine.Some? then machine.value else w.machines[w.leases[parent].machine];
      SpawnUnder(w, parent, id, subject, allocation, capabilities, machine, ttl, now, spec);
      if MaySpawn(w, parent, allocation, capabilities, machine, now) {
        SpawnEffect(w, parent, id, subject, allocation, capabilities, machine, ttl, now, spec);
      }
    }
  }

  /** In the new table the child is below exactly itself and what the parent is below. */
  lemma SpawnHangs(w: Warden, parent: string, id: string, subject: string, allocation: Vector,
                   capabilities: set<string>, machine: Option<MachineSpec>, ttl: real, now: real, branch: string)
    requires Sound(w) && Unused(w, id)
    requires SpawnLocal(w, parent, id, subject, allocation, capabilities, machine, ttl, now).Done?
    ensures Linked(w.leases) && parent in w.leases
    ensures var after := SpawnLocal(w, parent, id, subject, allocation, capabilities, machine, ttl, now).warden;
      Linked(after.leases) && id in after.leases && (Below(after.leases, id, branch) <==> branch == id || Below(w.leases, parent, branch))
  {
    var c := SpawnCall(parent, id, subject, allocation, capabilities, machine, ttl, now);
    var after := SpawnLocal(w, parent, id, subject, allocation, capabilities, machine, ttl, now).warden;
    ApplyKeeps(w, c);
    assert Apply(w, c) == after;
    SoundIds(w);
    SoundIds(after);
    PathIsLinks(after.leases, id, branch);
    PathIsLinks(w.leases, parent, branch);
  }

  // ---- status and expiry ----

  /** Only this lease differs, and it takes its next sequence number. */
  ghost predicate OnlyLease(w: Warden, id: string, after: Warden) {
    && id in w.leases && id in after.leases
    && after == w.(leases := w.leases[id := after.leases[id]])
    && after.leases[id].sequence == w.leases[id].sequence + 1
  }

  /** A lease goes quiescent exactly when it lives. */
  lemma QuiescesExactlyWhen(w: Warden, id: string, now: real)
    requires Sound(w)
    ensures Linked(w.leases)
    ensures var r := SetQuiescent(w, id, now);
      && (r.Done? <==> Living(w, id, now)) && (r.Raised? ==> r.warden == w)
      && (r.Raised? ==> r.error == if id in w.leases then PermissionError else KeyError)
      && (r.Done? ==>
            && OnlyLease(w, id, r.warden)
            && r.warden.leases[id] == w.leases[id].(status := Quiescent, sequence := r.warden.leases[id].sequence))
  {
    RefusalExactly(w, id, now);
  }

  /** It resumes exactly when it is quiescent, not expired and under no known revocation. */
  lemma ResumesExactlyWhen(w: Warden, id: string, now: real)
    requires Sound(w)
    ensures Linked(w.leases)
    ensures var r := Resume(w, id, now);
      && (r.Done? <==> id in w.leases && w.leases[id].status == Quiescent && now < w.leases[id].expiresAt && Unrevoked(w, id))
      && (r.Raised? ==> r.warden == w)
      && (r.Raised? ==> (r.error == KeyError <==> id !in w.leases) && r.error in {KeyError, ValueError, PermissionError})
      && (r.Raised? ==> (r.error == PermissionError <==> id in w.leases && w.leases[id].status == Quiescent))
      && (r.Done? ==>
            && OnlyLease(w, id, r.warden)
            && r.warden.leases[id] == w.leases[id].(status := Active, sequence := r.warden.leases[id].sequence))
  {
    SoundIds(w);
    if id in w.leases {
      RevokedExactly(w, id);
    }
  }

  /** Going quiescent and resuming while the lease has not expired gives it back, two numbers on. */
  lemma ResumeUndoesQuiesce(w: Warden, id: string, now: real, later: real)
    requires Sound(w) && SetQuiescent(w, id, now).Done? && later < w.leases[id].expiresAt
    ensures var r := Resume(SetQuiescent(w, id, now).warden, id, later);
      r.Done? && r.warden == w.(leases := w.leases[id := w.leases[id].(sequence := w.leases[id].sequence + 2)])
  {
    var mid := SetQuiescent(w, id, now).warden;
    assert WellKept(w, id);
    assert IsDescendantOf(mid.leases[id], id);
    forall branch ensures IsDescendantOf(mid.leases[id], branch) <==> IsDescendantOf(w.leases[id], branch) {
    }
    assert !RevokedByPrefix(mid.revocations, mid.leases[id]);
  }

  /** The parent of the lease, if it has one, has neither ended nor been revoked nor expired. */
  ghost predicate Holds(w: Warden, id: string, now: real)
    requires Linked(w.leases) && id in w.leases
  {
    w.leases[id].parent.Some? ==>
      var p := w.leases[id].parent.value;
      p in w.leases && w.leases[p].status !in {Revoked, Expired, Closed} && now < w.leases[p].expiresAt
  }

  /** The expiry asked for, and never beyond the parent's. */
  ghost function NewExpiry(w: Warden, id: string, ttl: real, now: real): real
    requires id in w.leases
  {
    var parent := w.leases[id].parent;
    if parent.Some? && parent.value in w.leases && w.leases[parent.value].expiresAt < now + ttl
    then w.leases[parent.value].expiresAt else now + ttl
  }

  /** A living lease hangs from nothing revoked, so its parent does not either. */
  lemma ParentUnrevoked(w: Warden, id: string)
    requires Sound(w) && Linked(w.leases) && id in w.leases && Unrevoked(w, id) && w.leases[id].parent.Some?
    ensures w.leases[id].parent.value in w.leases && Unrevoked(w, w.leases[id].parent.value)
  {
    assert LinkedAt(w.leases, id);
    forall branch | branch in w.revocations ensures !Below(w.leases, w.leases[id].parent.value, branch) {
      assert !Below(w.leases, id, branch);
    }
  }

  /** A lease is renewed exactly when the term is positive, it lives, and its parent still holds. */
  lemma RenewsExactlyWhen(w: Warden, id: string, ttl: real, now: real)
    requires Sound(w)
    ensures Linked(w.leases)
    ensures var r := Renew(w, id, ttl, now);
      && (r.Done? <==> 0.0 < ttl && Living(w, id, now) && Holds(w, id, now))
      && (r.Raised? ==> r.warden == w)
      && (r.Raised? ==> r.error == if ttl <= 0.0 then ValueError else if id in w.leases then PermissionError else KeyError)
      && (r.Done? ==>
            && OnlyLease(w, id, r.warden)
            && var l, m := w.leases[id], r.warden.leases[id];
               && m.signature == PayloadOf(m)
               && m == l.(issuedAt := now, expiresAt := NewExpiry(w, id, ttl, now), signature := m.signature, sequence := m.sequence))
  {
    RefusalExactly(w, id, now);
    if 0.0 < ttl && Living(w, id, now) {
      assert WellKept(w, id) && LinkedAt(w.leases, id);
      if w.leases[id].parent.Some? {
        ParentUnrevoked(w, id);
        RevokedExactly(w, w.leases[id].parent.value);
      }
    }
  }

  // ---- revoking, closing, reclaiming ----

  /** What a revocation makes of a lease. */
  ghost predicate RevokedTo(w: Warden, branch: string, id: string, m: Lease)
    requires Linked(w.leases) && id in w.leases
  {
    var l := w.leases[id];
    if Below(w.leases, id, branch) && (l.status == Active || l.status == Quiescent) then
      m == l.(status := Revoked, sequence := l.sequence + 1)
    else m == l
  }

  /** An epoch is news when it is above the one known, or, of a branch not yet revoked, not negative. */
  predicate News(w: Warden, branch: string, epoch: int) {
    if branch in w.revocations then w.revocations[branch] < epoch else 0 <= epoch
  }

  /**
   * A revocation that is news is on record afterwards with its epoch, every lease that hangs from the
   * branch and was active or quiescent is revoked, and the answer counts them; one that is not news
   * changes nothing.
   */
  lemma RevokesExactly(w: Warden, branch: string, epoch: int)
    requires Sound(w)
    ensures Linked(w.leases)
    ensures var r := RevokeBranch(w, branch, epoch);
      && r.Done?
      && (!News(w, branch, epoch) ==> r.warden == w && r.value == 0)
      && (News(w, branch, epoch) ==>
            && r.warden == w.(revocations := w.revocations[branch := epoch], leases := r.warden.leases)
            && r.warden.leases.Keys == w.leases.Keys
            && (forall id :: id in w.leases ==> RevokedTo(w, branch, id, r.warden.leases[id]))
            && r.value == |set id | id in w.leases && r.warden.leases[id] != w.leases[id]|)
  {
    SoundIds(w);
    if News(w, branch, epoch) {
      RevokedTable(w, branch);
      RevokedCount(w, branch, RevokeBranch(w, branch, epoch).warden.leases);
    }
  }

  lemma RevokedTable(w: Warden, branch: string)
    requires Sound(w) && Linked(w.leases)
    ensures forall id :: id in w.leases ==> RevokedTo(w, branch, id, RevokedLease(w.leases[id], branch))
  {
    SoundIds(w);
    forall id | id in w.leases ensures RevokedTo(w, branch, id, RevokedLease(w.leases[id], branch)) {
      PathIsLinks(w.leases, id, branch);
    }
  }

  lemma RevokedCount(w: Warden, branch: string, after: map<string, Lease>)
    requires after == map id | id in w.leases :: RevokedLease(w.leases[id], branch)
    ensures (set id | id in w.leases && Revocable(w.leases[id], branch)) == set id | id in w.leases && after[id] != w.leases[id]
  {
    forall id | id in w.leases ensures Revocable(w.leases[id], branch) <==> after[id] != w.leases[id] {
    }
  }

  /** Closing gives the whole residual of a lease that has not ended back to the pool, once. */
  lemma ClosesExactly(w: Warden, id: string)
    requires Sound(w)
    ensures var r := Close(w, id);
      && (r.Done? <==> id in w.leases)
      && (r.Raised? ==> r.warden == w && r.error == KeyError)
      && (r.Done? && (w.leases[id].status == Closed || w.leases[id].status == Expired) ==>
            r.warden == w && r.value == Zero(|w.pool|))
      && (r.Done? && w.leases[id].status != Closed && w.leases[id].status != Expired ==>
            && id in r.warden.leases && r.value == w.leases[id].residual
            && r.warden == w.(pool := r.warden.pool, leases := w.leases[id := r.warden.leases[id]])
            && Less(r.warden.pool, w.leases[id].residual, w.pool)
            && var l, m := w.leases[id], r.warden.leases[id];
               m == l.(residual := Zero(|w.pool|), status := Closed, sequence := l.sequence + 1))
  {
    if id in w.leases {
      AddExactly(w.pool, w.leases[id].residual);
    }
  }

  /** The lease has run out and has not ended before. */
  predicate RunOut(l: Lease, now: real) {
    l.status != Closed && l.status != Expired && l.expiresAt <= now
  }

  /** Reclaiming ends exactly the leases that have run out and gives what they held to the pool. */
  lemma ReclaimsExactly(w: Warden, now: real)
    requires Sound(w)
    ensures LapsedFit(w, now)
    ensures var r := ReclaimExpired(w, now);
      && r.Done? && |r.value| == |w.pool|
      && r.warden == w.(pool := r.warden.pool, leases := r.warden.leases)
      && Less(r.warden.pool, r.value, w.pool)
      && r.warden.leases.Keys == w.leases.Keys
      && (forall id :: id in w.leases ==>
            var l := w.leases[id];
            r.warden.leases[id] ==
              if RunOut(l, now) then l.(residual := Zero(|w.pool|), status := Expired, sequence := l.sequence + 1) else l)
      && (forall j: nat :: j < |w.pool| ==>
            r.value[j] == Total(map id | id in w.leases && RunOut(w.leases[id], now) :: w.leases[id].residual[j]))
  {
    var r := ReclaimExpired(w, now);
    AddExactly(w.pool, r.value);
    forall j: nat | j < |w.pool|
      ensures r.value[j] == Total(map id | id in w.leases && RunOut(w.leases[id], now) :: w.leases[id].residual[j])
    {
      assert LapsedRights(w, now, j) == map id | id in w.leases && RunOut(w.leases[id], now) :: w.leases[id].residual[j];
    }
  }
}
