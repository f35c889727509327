/**
 * The reference kernel as the source has it: lease objects on the heap, filed in a dictionary and
 * updated in place by the warden's methods, in the order the source writes.  Each method is proved
 * to do, on the values held by the objects, exactly what the corresponding function of `KernelSpec`
 * does, also when it raises between two writes.
 */
module KernelHeap {
  import opened Common
  import opened MapSums
  import opened KernelSpec
  import opened KernelInvariant

  class LeaseObject {
    const id: string
    const lineage: string
    const parent: Option<string>
    const subject: string
    const warden: string
    const allocation: Vector
    const capabilities: set<string>
    const machine: string
    const ancestors: seq<string>
    const epoch: int
    var residual: Vector
    var state: string
    var issuedAt: real
    var expiresAt: real
    var status: LeaseStatus
    var signature: Payload
    var sequence: int

    function Value(): Lease
      reads this
    {
      Lease(id, lineage, parent, subject, warden, allocation, residual, capabilities, machine, state,
            ancestors, issuedAt, expiresAt, epoch, status, signature, sequence)
    }

    constructor (l: Lease)
      ensures Value() == l
    {
      id, lineage, parent, subject, warden := l.id, l.lineage, l.parent, l.subject, l.warden;
      allocation, capabilities, machine, ancestors := l.allocation, l.capabilities, l.machine, l.ancestors;
      epoch, residual, state, issuedAt, expiresAt := l.epoch, l.residual, l.state, l.issuedAt, l.expiresAt;
      status, signature, sequence := l.status, l.signature, l.sequence;
    }

    /** Writes the mutable fields. */
    method Set(l: Lease)
      requires SameIdentity(l, Value())
      modifies this
      ensures Value() == l
    {
      residual, state, issuedAt, expiresAt := l.residual, l.state, l.issuedAt, l.expiresAt;
      status, signature, sequence := l.status, l.signature, l.sequence;
    }
  }

  /** Two leases that agree on everything a lease object never changes. */
  predicate SameIdentity(l: Lease, m: Lease) {
    && l.id == m.id && l.lineage == m.lineage && l.parent == m.parent && l.subject == m.subject
    && l.warden == m.warden && l.allocation == m.allocation && l.capabilities == m.capabilities
    && l.machine == m.machine && l.ancestors == m.ancestors && l.epoch == m.epoch
  }

  class WardenObject {
    const id: string
    var freePool: Vector
    var consumed: Vector
    var leases: map<string, LeaseObject>
    var machines: map<string, MachineSpec>
    var revocations: map<string, int>
    var accepted: set<string>

    /** No two identifiers share a lease object. */
    ghost predicate Valid()
      reads this`leases
    {
      forall a, b :: a in leases && b in leases && a != b ==> leases[a] != leases[b]
    }

    function Table(): map<string, Lease>
      reads this`leases, leases.Values
    {
      map x | x in leases :: leases[x].Value()
    }

    /** The values this warden and its lease objects hold. */
    function View(): Warden
      reads this, leases.Values
    {
      Warden(id, freePool, consumed, Table(), machines, revocations, accepted)
    }

    constructor (id: string, share: Vector)
      ensures Valid() && View() == Warden(id, share, Zero(|share|), map[], map[], map[], {})
    {
      this.id := id;
      freePool, consumed, leases := share, Zero(|share|), map[];
      machines, revocations, accepted := map[], map[], {};
    }

    /** Transfers change a warden's pool and the set of transfers it accepted, and nothing else. */
    method SetPool(pool: Vector, ids: set<string>)
      modifies this`freePool, this`accepted
      ensures View() == old(View()).(pool := pool, accepted := ids)
    {
      freePool, accepted := pool, ids;
    }

    /** What `_require_actionable` raises, if anything. */
    function Refuses(lease: string, now: real): (r: Option<Error>)
      requires Valid()
      reads this, leases.Values
      ensures r == Refusal(View(), lease, now)
    {
      if lease !in leases then Some(KeyError)
      else
        var l := leases[lease].Value();
        assert l == View().leases[lease];
        if l.status != Active || now >= l.expiresAt || RevokedByPrefix(revocations, l) || l.signature != PayloadOf(l)
        then Some(PermissionError) else None
    }

    /** Writes a lease's mutable fields through its object; no other lease is touched. */
    method Store(lease: string, l: Lease)
      requires Valid() && lease in leases && SameIdentity(l, leases[lease].Value())
      modifies leases[lease]
      ensures Table() == old(Table())[lease := l]
    {
      leases[lease].Set(l);
    }

    /** Allocates a lease object and files it. */
    method File(lease: string, l: Lease) returns (o: LeaseObject)
      requires Valid() && lease !in leases
      modifies this`leases
      ensures Valid() && fresh(o) && leases == old(leases)[lease := o] && o.Value() == l
      ensures Table() == old(Table())[lease := l]
    {
      o := new LeaseObject(l);
      leases := leases[lease := o];
    }

    /** Debits the pool and files a root lease. */
    method CommitRoot(lease: string, l: Lease, pool: Vector) returns (o: LeaseObject)
      requires Valid() && lease !in leases
      modifies this`leases, this`freePool
      ensures Valid() && fresh(o) && leases == old(leases)[lease := o] && o.Value() == l
      ensures View() == old(View()).(pool := pool, leases := old(View()).leases[lease := l])
    {
      freePool := pool;
      o := File(lease, l);
    }

    /** Registers the machine, debits the parent in place and files its child. */
    method CommitChild(parent: string, debited: Lease, lease: string, child: Lease, machine: MachineSpec)
      returns (o: LeaseObject)
      requires Valid() && lease !in leases && parent in leases && SameIdentity(debited, leases[parent].Value())
      modifies this`leases, this`machines, leases[parent]
      ensures Valid() && fresh(o) && leases == old(leases)[lease := o] && o.Value() == child
      ensures View() == Register(old(View()), machine).(leases := old(View()).leases[parent := debited][lease := child])
    {
      o := FileChild(parent, debited, lease, child);
      machines := machines[machine.digest := machine];
    }

    method FileChild(parent: string, debited: Lease, lease: string, child: Lease) returns (o: LeaseObject)
      requires Valid() && lease !in leases && parent in leases && SameIdentity(debited, leases[parent].Value())
      modifies this`leases, leases[parent]
      ensures Valid() && fresh(o) && leases == old(leases)[lease := o] && o.Value() == child
      ensures Table() == old(Table())[parent := debited][lease := child]
    {
      Store(parent, debited);
      o := File(lease, child);
    }

    // ---- single writes ----

    method Put(lease: string, l: Lease)
      requires Valid() && lease in leases && SameIdentity(l, leases[lease].Value())
      modifies leases[lease]
      ensures View() == old(View()).(leases := old(View()).leases[lease := l]) && leases[lease].Value() == l
    {
      Store(lease, l);
      assert Table()[lease] == leases[lease].Value();
    }

    method SetFree(pool: Vector)
      modifies this`freePool
      ensures View() == old(View()).(pool := pool)
    {
      freePool := pool;
    }

    method SetConsumed(spent: Vector)
      modifies this`consumed
      ensures View() == old(View()).(consumed := spent)
    {
      consumed := spent;
    }

    method RegisterMachine(machine: MachineSpec)
      modifies this`machines
      ensures View() == Register(old(View()), machine)
    {
      machines := machines[machine.digest := machine];
    }

    /** The tests of `issue_root`, before anything is changed. */
    method PlanRoot(lease: string, lineage: string, subject: string, allocation: Vector,
                    capabilities: set<string>, machine: MachineSpec, ttl: real, now: real)
      returns (registered: bool, plan: Option<(Vector, Lease)>)
      requires Valid()
      ensures var spec := KernelSpec.IssueRoot(View(), lease, lineage, subject, allocation, capabilities, machine, ttl, now);
        match (registered, plan)
        case (false, _) => plan.None? && spec == Raised(View(), ValueError)
        case (true, None) => spec == Raised(Register(View(), machine), ValueError)
        case (true, Some((pool, l))) =>
          spec == Done(Register(View(), machine).(pool := pool, leases := View().leases[lease := l]), l)
    {
      if !Registrable(|freePool|, machine) {
        return false, None;
      }
      var rest := VSub(freePool, allocation);
      if rest.None? {
        return true, None;
      }
      var l := RootLease(id, lease, lineage, subject, allocation, capabilities, machine, ttl, now);
      return true, Some((rest.value, l));
    }

    method IssueRoot(lease: string, lineage: string, subject: string, allocation: Vector,
                     capabilities: set<string>, machine: MachineSpec, ttl: real, now: real)
      returns (r: Option<LeaseObject>)
      requires Valid() && lease !in leases
      modifies this
      ensures Valid()
      ensures var spec := old(KernelSpec.IssueRoot(View(), lease, lineage, subject, allocation, capabilities, machine, ttl, now));
        && View() == spec.warden && (r.Some? <==> spec.Done?)
        && (r.Some? ==> fresh(r.value) && leases == old(leases)[lease := r.value] && r.value.Value() == spec.value)
      ensures r.None? ==> freePool == old(freePool) && consumed == old(consumed) && leases == old(leases)
    {
      var registered, plan := PlanRoot(lease, lineage, subject, allocation, capabilities, machine, ttl, now);
      if registered {
        RegisterMachine(machine);
      }
      r := None;
      if plan.Some? {
        var o := CommitRoot(lease, plan.value.1, plan.value.0);
        r := Some(o);
      }
    }

    /** The tests of `spawn_local`: the machine to register, the debited parent and the child. */
    method PlanSpawn(parent: string, lease: string, subject: string, allocation: Vector,
                     capabilities: set<string>, machine: Option<MachineSpec>, ttl: real, now: real)
      returns (plan: Option<(MachineSpec, Lease, Lease)>)
      requires Valid()
      ensures var spec := KernelSpec.SpawnLocal(View(), parent, lease, subject, allocation, capabilities, machine, ttl, now);
        match plan
        case None => spec.Raised? && spec.warden == View()
        case Some((m, debited, child)) =>
          && parent in leases && SameIdentity(debited, leases[parent].Value())
          && spec == Done(Register(View(), m).(leases := View().leases[parent := debited][lease := child]), child)
    {
      if Refuses(parent, now).Some? {
        return None;
      }
      var p := leases[parent].Value();
      assert View().leases[parent] == p;
      if !(capabilities <= p.capabilities) || !VLeq(allocation, p.residual)
         || (machine.None? && p.machine !in machines) {
        return None;
      }
      var spec := if machine.Some? then machine.value else machines[p.machine];
      if !Registrable(|freePool|, spec) {
        return None;
      }
      var rest := VSub(p.residual, allocation);
      var debited := p.(residual := rest.value, sequence := p.sequence + 1);
      return Some((spec, debited, ChildLease(id, p, lease, subject, allocation, capabilities, spec, ttl, now)));
    }

    method SpawnLocal(parent: string, lease: string, subject: string, allocation: Vector,
                      capabilities: set<string>, machine: Option<MachineSpec>, ttl: real, now: real)
      returns (r: Option<LeaseObject>)
      requires Valid() && lease !in leases
      modifies this, leases.Values
      ensures Valid()
      ensures var spec := old(KernelSpec.SpawnLocal(View(), parent, lease, subject, allocation, capabilities, machine, ttl, now));
        && View() == spec.warden && (r.Some? <==> spec.Done?)
        && (r.Some? ==> fresh(r.value) && leases == old(leases)[lease := r.value] && r.value.Value() == spec.value)
      ensures r.None? ==> View() == old(View()) && leases == old(leases)
    {
      var plan := PlanSpawn(parent, lease, subject, allocation, capabilities, machine, ttl, now);
      r := None;
      if plan.Some? {
        var o := CommitChild(parent, plan.value.1, lease, plan.value.2, plan.value.0);
        r := Some(o);
      }
    }

    /** The tests of `execute`: the charged lease and the transition to take. */
    method PlanExecute(lease: string, name: string, evidence: Evidence, now: real)
      returns (plan: Option<(Lease, TransitionSpec)>)
      requires Valid()
      ensures var spec := KernelSpec.Execute(View(), lease, name, evidence, now);
        match plan
        case None => spec.Raised? && spec.warden == View()
        case Some((charged, t)) =>
          && lease in leases && SameIdentity(charged, leases[lease].Value())
          && spec == Charged(View(), lease, charged, t)
    {
      if Refuses(lease, now).Some? {
        return None;
      }
      var l := leases[lease].Value();
      assert View().leases[lease] == l;
      if l.machine !in machines {
        return None;
      }
      var found := FindTransition(machines[l.machine], l.state, name);
      if found.None? {
        return None;
      }
      var t := found.value;
      if t.capability !in l.capabilities || (t.guard.Some? && !t.guard.value(evidence)) || !VLeq(t.cost, l.residual) {
        return None;
      }
      var rest := VSub(l.residual, t.cost);
      if rest.None? {
        return None;
      }
      return Some((l.(residual := rest.value), t));
    }

    method Execute(lease: string, name: string, evidence: Evidence, now: real) returns (r: Option<LeaseObject>)
      requires Valid()
      modifies this`consumed, leases.Values
      ensures Valid() && leases == old(leases)
      ensures var spec := old(KernelSpec.Execute(View(), lease, name, evidence, now));
        && View() == spec.warden && (r.Some? <==> spec.Done?)
        && (r.Some? ==> lease in leases && leases[lease] == r.value && r.value.Value() == spec.value)
    {
      var plan := PlanExecute(lease, name, evidence, now);
      if plan.None? {
        return None;
      }
      var done := Charge(lease, plan.value.0, plan.value.1);
      if !done {
        return None;
      }
      assert View().leases[lease] == leases[lease].Value();
      r := Some(leases[lease]);
    }

    /** The writes of `execute`: the residual, then the consumption, then the state and sequence. */
    method Charge(lease: string, charged: Lease, t: TransitionSpec) returns (done: bool)
      requires Valid() && lease in leases && SameIdentity(charged, leases[lease].Value())
      modifies this`consumed, leases[lease]
      ensures View() == Charged(old(View()), lease, charged, t).warden
      ensures done == Charged(old(View()), lease, charged, t).Done?
    {
      ghost var before := View();
      Put(lease, charged);
      var spent := VAdd(consumed, t.cost);
      done := spent.Some?;
      if done {
        MoveOn(lease, Moved(charged, t), spent.value);
        ChargedInTwo(before, lease, charged, t);
      }
    }

    method MoveOn(lease: string, moved: Lease, spent: Vector)
      requires Valid() && lease in leases && SameIdentity(moved, leases[lease].Value())
      modifies this`consumed, leases[lease]
      ensures View() == old(View()).(leases := old(View()).leases[lease := moved], consumed := spent)
    {
      SetConsumed(spent);
      Put(lease, moved);
    }

    method SetQuiescent(lease: string, now: real) returns (error: Option<Error>)
      requires Valid()
      modifies leases.Values
      ensures Valid() && leases == old(leases)
      ensures var spec := old(KernelSpec.SetQuiescent(View(), lease, now));
        View() == spec.warden && error == if spec.Raised? then Some(spec.error) else None
    {
      ghost var before := View();
      error := Refuses(lease, now);
      if error.None? {
        var l := leases[lease];
        assert before.leases[lease] == l.Value();
        l.status := Quiescent;
        l.sequence := l.sequence + 1;
        assert Table() == before.leases[lease := l.Value()];
      }
    }

    method Resume(lease: string, now: real) returns (error: Option<Error>)
      requires Valid()
      modifies leases.Values
      ensures Valid() && leases == old(leases)
      ensures var spec := old(KernelSpec.Resume(View(), lease, now));
        View() == spec.warden && error == if spec.Raised? then Some(spec.error) else None
    {
      ghost var before := View();
      if lease !in leases {
        return Some(KeyError);
      }
      var l := leases[lease];
      assert before.leases[lease] == l.Value();
      if l.status != Quiescent {
        return Some(ValueError);
      }
      if now >= l.expiresAt || RevokedByPrefix(revocations, l.Value()) {
        return Some(PermissionError);
      }
      l.status := Active;
      l.sequence := l.sequence + 1;
      assert Table() == before.leases[lease := l.Value()];
      error := None;
    }

    /** The tests of `renew`, and the lease it would store. */
    method PlanRenew(lease: string, ttl: real, now: real) returns (error: Option<Error>, renewed: Lease)
      requires Valid() && lease in leases && leases[lease].id == lease && 0.0 < ttl && Refuses(lease, now).None?
      ensures var spec := KernelSpec.Renew(View(), lease, ttl, now);
        match error
        case Some(e) => spec == Raised(View(), e)
        case None =>
          && SameIdentity(renewed, leases[lease].Value())
          && spec == Done(View().(leases := View().leases[lease := renewed]), ())
    {
      var l := leases[lease].Value();
      assert View().leases[lease] == l;
      renewed := l;
      var expiry := now + ttl;
      if l.parent.Some? {
        if l.parent.value !in leases {
          return Some(RuntimeError), l;
        }
        var p := leases[l.parent.value].Value();
        assert View().leases[l.parent.value] == p;
        if p.status in {Revoked, Expired, Closed} || now >= p.expiresAt || RevokedByPrefix(revocations, p) {
          return Some(PermissionError), l;
        }
        expiry := if expiry <= p.expiresAt then expiry else p.expiresAt;
      }
      var signed := Sign(l.(expiresAt := expiry, issuedAt := now));
      return None, signed.(sequence := l.sequence + 1);
    }

    method Renew(lease: string, ttl: real, now: real) returns (error: Option<Error>)
      requires Valid() && (lease in leases ==> leases[lease].id == lease)
      modifies leases.Values
      ensures Valid() && leases == old(leases)
      ensures var spec := old(KernelSpec.Renew(View(), lease, ttl, now));
        View() == spec.warden && error == if spec.Raised? then Some(spec.error) else None
    {
      if ttl <= 0.0 {
        return Some(ValueError);
      }
      error := Refuses(lease, now);
      if error.None? {
        var renewed;
        error, renewed := PlanRenew(lease, ttl, now);
        if error.None? {
          Store(lease, renewed);
        }
      }
    }

    method Close(lease: string) returns (returned: Option<Vector>)
      requires Valid()
      modifies this`freePool, leases.Values
      ensures Valid() && leases == old(leases)
      ensures var spec := old(KernelSpec.Close(View(), lease));
        && View() == spec.warden && (returned.Some? <==> spec.Done?)
        && (returned.Some? ==> returned.value == spec.value)
    {
      if lease !in leases {
        return None;
      }
      var l := leases[lease].Value();
      assert Table()[lease] == l;
      if l.status == Closed || l.status == Expired {
        return Some(Zero(|freePool|));
      }
      Put(lease, l.(residual := Zero(|freePool|), status := Closed, sequence := l.sequence + 1));
      var pool := VAdd(freePool, l.residual);
      if pool.None? {
        return None;
      }
      SetFree(pool.value);
      returned := Some(l.residual);
    }

    /** The body of the revocation loop. */
    method RevokeOne(x: string, branch: string) returns (hit: bool)
      requires Valid() && x in leases
      modifies leases[x]
      ensures Table() == old(Table())[x := RevokedLease(old(Table())[x], branch)]
      ensures hit == Revocable(old(Table())[x], branch)
    {
      var l := leases[x].Value();
      assert Table()[x] == l;
      hit := (branch == l.id || branch in l.ancestors) && (l.status == Active || l.status == Quiescent);
      if hit {
        Store(x, l.(status := Revoked, sequence := l.sequence + 1));
      } else {
        assert Table() == Table()[x := l];
      }
    }

    /** The loop visits every lease once, in any order. */
    method RevokeBranch(branch: string, epoch: int) returns (affected: nat)
      requires Valid()
      modifies this`revocations, leases.Values
      ensures Valid() && leases == old(leases)
      ensures var spec := old(KernelSpec.RevokeBranch(View(), branch, epoch));
        View() == spec.warden && affected == spec.value
    {
      var previous := if branch in revocations then revocations[branch] else -1;
      if epoch <= previous {
        return 0;
      }
      RevokedAll(View(), branch, epoch);
      affected := RevokeAll(branch);
      Note(branch, epoch);
    }

    method Note(branch: string, epoch: int)
      modifies this`revocations
      ensures View() == old(View()).(revocations := old(revocations)[branch := epoch])
    {
      revocations := revocations[branch := epoch];
    }

    method RevokeAll(branch: string) returns (affected: nat)
      requires Valid()
      modifies leases.Values
      ensures Valid() && leases == old(leases)
      ensures Table() == RevokedExcept(old(Table()), branch, {})
      ensures affected == |RevocableExcept(old(Table()), branch, {})|
    {
      ghost var before := Table();
      affected := 0;
      var todo := leases.Keys;
      RevokedNone(before, branch);
      while todo != {}
        invariant Valid() && leases == old(leases) && todo <= before.Keys == leases.Keys
        invariant Table() == RevokedExcept(before, branch, todo)
        invariant affected == |RevocableExcept(before, branch, todo)|
        decreases todo
      {
        var x :| x in todo;
        var hit := RevokeOne(x, branch);
        RevokedOneMore(before, branch, todo, x);
        if hit {
          affected := affected + 1;
        }
        todo := todo - {x};
      }
    }

    /** What the reclaiming loop adds for a lease: its residual, if it has lapsed. */
    method LapsedResidual(x: string, now: real) returns (given: Option<Vector>)
      requires Valid() && x in leases
      ensures given == if Lapsed(Table()[x], now) then Some(Table()[x].residual) else None
    {
      var l := leases[x].Value();
      assert Table()[x] == l;
      given := if l.status != Closed && l.status != Expired && now >= l.expiresAt then Some(l.residual) else None;
    }

    /** The writes of the loop body. */
    method ExpireOne(x: string, now: real)
      requires Valid() && x in leases && Lapsed(Table()[x], now)
      modifies leases[x]
      ensures Table() == old(Table())[x := ExpiredLease(old(Table())[x], now, |freePool|)]
    {
      var l := leases[x].Value();
      assert Table()[x] == l;
      Store(x, l.(residual := Zero(|freePool|), status := Expired, sequence := l.sequence + 1));
    }

    /**
     * Raises in the middle of its loop exactly when a lapsed lease has a residual of another
     * dimension than the pool; the leases visited before it are then expired and the pool is not
     * credited.
     */
    method ReclaimExpired(now: real) returns (reclaimed: Option<Vector>)
      requires Valid()
      modifies this`freePool, leases.Values
      ensures Valid() && leases == old(leases)
      ensures reclaimed.Some? <==> old(LapsedFit(View(), now))
      ensures reclaimed.Some? ==> View() == old(KernelSpec.ReclaimExpired(View(), now)).warden
      ensures reclaimed.Some? ==> reclaimed.value == old(Reclaimed(View(), now))
      ensures reclaimed.None? ==> exists todo: set<string> ::
        View() == old(View()).(leases := ExpiredExcept(old(View()), now, todo))
    {
      ghost var todo: set<string>;
      reclaimed, todo := ExpireAll(now);
      if reclaimed.Some? {
        ExpiredAll(old(View()), now);
        freePool := VAdd(freePool, reclaimed.value).value;
      }
    }

    /** The body of the loop: `None` when the residual of a lapsed lease cannot be added. */
    method Visit(x: string, now: real, total: Vector, ghost before: Warden, ghost left: set<string>)
      returns (sum: Option<Vector>)
      requires Valid() && x in leases && x in left && x in before.leases && |freePool| == |before.pool|
      requires Table() == ExpiredExcept(before, now, left) && SweptSoFar(before, now, left, total)
      modifies leases[x]
      ensures sum.None? ==> Table() == old(Table())
      ensures sum.None? ==> Lapsed(before.leases[x], now) && |before.leases[x].residual| != |before.pool|
      ensures sum.Some? ==> Table() == ExpiredExcept(before, now, left - {x}) && SweptSoFar(before, now, left - {x}, sum.value)
    {
      ExpiredOneMore(before, now, left, x);
      var given := LapsedResidual(x, now);
      if given.None? {
        SweptOne(before, now, left, x, total);
        return Some(total);
      }
      sum := VAdd(total, given.value);
      if sum.Some? {
        SweptOne(before, now, left, x, total);
        ExpireOne(x, now);
      }
    }

    /** The loop; `todo` are the leases not visited when a dimension does not fit. */
    method ExpireAll(now: real) returns (reclaimed: Option<Vector>, ghost todo: set<string>)
      requires Valid()
      modifies leases.Values
      ensures Valid() && leases == old(leases)
      ensures reclaimed.Some? <==> old(LapsedFit(View(), now))
      ensures Table() == ExpiredExcept(old(View()), now, todo)
      ensures reclaimed.Some? ==> todo == {} && reclaimed.value == old(Reclaimed(View(), now))
    {
      ghost var before := View();
      var total := Zero(|freePool|);
      var left := leases.Keys;
      SweptNothing(before, now, left);
      assert Table() == ExpiredExcept(before, now, left);
      while left != {}
        invariant Valid() && leases == old(leases) && left <= before.leases.Keys == leases.Keys
        invariant Table() == ExpiredExcept(before, now, left)
        invariant SweptSoFar(before, now, left, total)
        decreases left
      {
        var x :| x in left;
        var sum := Visit(x, now, total, before, left);
        if sum.None? {
          return None, left;
        }
        total := sum.value;
        left := left - {x};
      }
      SweptAll(before, now, total);
      return Some(total), {};
    }
  }

  // ---- sweeps over a dictionary of leases ----

  function RevokedExcept(leases: map<string, Lease>, branch: string, todo: set<string>): map<string, Lease> {
    map x | x in leases :: if x in todo then leases[x] else RevokedLease(leases[x], branch)
  }

  function RevocableExcept(leases: map<string, Lease>, branch: string, todo: set<string>): set<string> {
    set x | x in leases && x !in todo && Revocable(leases[x], branch)
  }

  lemma RevokedNone(leases: map<string, Lease>, branch: string)
    ensures RevokedExcept(leases, branch, leases.Keys) == leases && RevocableExcept(leases, branch, leases.Keys) == {}
  {
  }

  lemma RevokedAll(w: Warden, branch: string, epoch: int)
    requires epoch > if branch in w.revocations then w.revocations[branch] else -1
    ensures RevokeBranch(w, branch, epoch) ==
            Done(w.(revocations := w.revocations[branch := epoch], leases := RevokedExcept(w.leases, branch, {})),
                 |RevocableExcept(w.leases, branch, {})|)
  {
    assert RevocableExcept(w.leases, branch, {}) == set x | x in w.leases && Revocable(w.leases[x], branch);
    assert RevokedExcept(w.leases, branch, {}) == map x | x in w.leases :: RevokedLease(w.leases[x], branch);
  }

  lemma RevokedOneMore(leases: map<string, Lease>, branch: string, todo: set<string>, x: string)
    requires x in todo && x in leases
    ensures var table := RevokedExcept(leases, branch, todo);
      table[x := RevokedLease(table[x], branch)] == RevokedExcept(leases, branch, todo - {x})
    ensures RevokedExcept(leases, branch, todo)[x] == leases[x]
    ensures |RevocableExcept(leases, branch, todo - {x})| ==
            |RevocableExcept(leases, branch, todo)| + if Revocable(leases[x], branch) then 1 else 0
  {
    var was := RevocableExcept(leases, branch, todo);
    if Revocable(leases[x], branch) {
      assert RevocableExcept(leases, branch, todo - {x}) == was + {x};
    } else {
      assert RevocableExcept(leases, branch, todo - {x}) == was;
    }
  }

  /** What becomes of a charged lease: the consumption is added up, and then the lease moves on. */
  function Charged(w: Warden, lease: string, charged: Lease, t: TransitionSpec): Reply<Lease> {
    var spent := VAdd(w.consumed, t.cost);
    if spent.None? then Raised(w.(leases := w.leases[lease := charged]), ValueError) else
      Done(w.(leases := w.leases[lease := Moved(charged, t)], consumed := spent.value), Moved(charged, t))
  }

  lemma ChargedInTwo(w: Warden, lease: string, charged: Lease, t: TransitionSpec)
    requires VAdd(w.consumed, t.cost).Some?
    ensures var half := w.(leases := w.leases[lease := charged]);
      Charged(w, lease, charged, t).warden ==
      half.(leases := half.leases[lease := Moved(charged, t)], consumed := VAdd(w.consumed, t.cost).value)
  {
  }

  function Moved(charged: Lease, t: TransitionSpec): Lease {
    charged.(state := t.target, sequence := charged.sequence + 1)
  }

  function ExpiredExcept(w: Warden, now: real, todo: set<string>): map<string, Lease> {
    map x | x in w.leases :: if x in todo then w.leases[x] else ExpiredLease(w.leases[x], now, |w.pool|)
  }

  lemma ExpiredAll(w: Warden, now: real)
    requires LapsedFit(w, now)
    ensures VAdd(w.pool, Reclaimed(w, now)).Some?
    ensures ReclaimExpired(w, now).warden ==
            w.(pool := VAdd(w.pool, Reclaimed(w, now)).value, leases := ExpiredExcept(w, now, {}))
  {
    assert ExpiredExcept(w, now, {}) == map x | x in w.leases :: ExpiredLease(w.leases[x], now, |w.pool|);
  }

  lemma ExpiredOneMore(w: Warden, now: real, todo: set<string>, x: string)
    requires x in todo && x in w.leases
    ensures var table := ExpiredExcept(w, now, todo);
      table[x := ExpiredLease(table[x], now, |w.pool|)] == ExpiredExcept(w, now, todo - {x})
    ensures ExpiredExcept(w, now, todo)[x] == w.leases[x]
    ensures !Lapsed(w.leases[x], now) ==> ExpiredExcept(w, now, todo - {x}) == ExpiredExcept(w, now, todo)
  {
  }

  /** The lapsed leases already visited have the pool's dimension. */
  predicate VisitedFit(w: Warden, now: real, todo: set<string>) {
    forall id :: id in w.leases && id !in todo && Lapsed(w.leases[id], now) ==> |w.leases[id].residual| == |w.pool|
  }

  /** What the leases already visited gave back, in component `j`. */
  function VisitedRights(w: Warden, now: real, todo: set<string>, j: nat): map<string, int>
    requires VisitedFit(w, now, todo) && j < |w.pool|
  {
    map x | x in w.leases && x !in todo && Lapsed(w.leases[x], now) :: w.leases[x].residual[j]
  }

  ghost predicate SweptSoFar(w: Warden, now: real, todo: set<string>, reclaimed: Vector) {
    && VisitedFit(w, now, todo) && |reclaimed| == |w.pool|
    && forall j: nat :: j < |w.pool| ==> reclaimed[j] == Total(VisitedRights(w, now, todo, j))
  }

  lemma SweptNothing(w: Warden, now: real, todo: set<string>)
    requires w.leases.Keys <= todo
    ensures SweptSoFar(w, now, todo, Zero(|w.pool|))
  {
    forall j: nat | j < |w.pool| ensures Total(VisitedRights(w, now, todo, j)) == 0 {
      assert VisitedRights(w, now, todo, j) == map[];
    }
  }

  lemma SweptOne(w: Warden, now: real, todo: set<string>, x: string, reclaimed: Vector)
    requires SweptSoFar(w, now, todo, reclaimed) && x in todo && x in w.leases
    requires Lapsed(w.leases[x], now) ==> |w.leases[x].residual| == |w.pool|
    ensures Lapsed(w.leases[x], now) ==>
      SweptSoFar(w, now, todo - {x}, VAdd(reclaimed, w.leases[x].residual).value)
    ensures !Lapsed(w.leases[x], now) ==> SweptSoFar(w, now, todo - {x}, reclaimed)
  {
    forall j: nat | j < |w.pool|
      ensures Total(VisitedRights(w, now, todo - {x}, j)) ==
              reclaimed[j] + if Lapsed(w.leases[x], now) then w.leases[x].residual[j] else 0
    {
      SweptOneAt(w, now, todo, x, j);
    }
  }

  lemma SweptOneAt(w: Warden, now: real, todo: set<string>, x: string, j: nat)
    requires VisitedFit(w, now, todo) && x in todo && x in w.leases && j < |w.pool|
    requires Lapsed(w.leases[x], now) ==> |w.leases[x].residual| == |w.pool|
    ensures Total(VisitedRights(w, now, todo - {x}, j)) == Total(VisitedRights(w, now, todo, j))
      + if Lapsed(w.leases[x], now) then w.leases[x].residual[j] else 0
  {
    var was := VisitedRights(w, now, todo, j);
    if Lapsed(w.leases[x], now) {
      assert VisitedRights(w, now, todo - {x}, j) == was[x := w.leases[x].residual[j]];
      TotalInsert(was, x, w.leases[x].residual[j]);
    } else {
      assert VisitedRights(w, now, todo - {x}, j) == was;
    }
  }

  lemma SweptAll(w: Warden, now: real, reclaimed: Vector)
    requires SweptSoFar(w, now, {}, reclaimed)
    ensures LapsedFit(w, now) && reclaimed == Reclaimed(w, now)
  {
    forall j: nat | j < |w.pool| ensures reclaimed[j] == Total(LapsedRights(w, now, j)) {
      assert VisitedRights(w, now, {}, j) == LapsedRights(w, now, j);
    }
  }
}
