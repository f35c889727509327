/**
 * The reference kernel as functions on values: resource vectors, leases with their stored ancestor
 * path, and one warden's operations.  Every operation answers with the warden's new state, also
 * when it raises.  Identifiers, the clock and machine digests are inputs; a signature is modelled
 * as the payload that was signed, and verifies when it is the lease's present payload.
 */
module KernelSpec {
  import opened Common
  import opened MapSums

  // ---- resource vectors ----

  type Vector = seq<int>

  function Zero(dim: nat): Vector {
    seq(dim, _ => 0)
  }

  /** `None` is the dimension error. */
  function VAdd(a: Vector, b: Vector): Option<Vector> {
    if |a| != |b| then None else Some(seq(|a|, i requires 0 <= i < |a| && |a| == |b| => a[i] + b[i]))
  }

  /** `None` is the dimension error or an insufficient component. */
  function VSub(a: Vector, b: Vector): Option<Vector> {
    if |a| != |b| || exists i :: 0 <= i < |a| && a[i] < b[i] then None
    else Some(seq(|a|, i requires 0 <= i < |a| && |a| == |b| => a[i] - b[i]))
  }

  predicate Nonneg(a: Vector) {
    forall i :: 0 <= i < |a| ==> 0 <= a[i]
  }

  /** Componentwise order on vectors of one dimension. */
  predicate VLeq(a: Vector, b: Vector) {
    |a| == |b| && forall i :: 0 <= i < |a| ==> a[i] <= b[i]
  }

  // ---- machines, leases, wardens ----

  datatype LeaseStatus = Active | Quiescent | Revoked | Expired | Closed | Migrating

  type Evidence = Option<map<string, string>>

  datatype TransitionSpec = TransitionSpec(
    name: string,
    source: string,
    target: string,
    cost: Vector,
    capability: string,
    guard: Option<Evidence -> bool>)

  datatype MachineSpec = MachineSpec(digest: string, initialState: string, transitions: seq<TransitionSpec>)

  function Matches(ts: seq<TransitionSpec>, state: string, name: string): (r: seq<TransitionSpec>)
    ensures forall i :: 0 <= i < |r| ==> exists j :: 0 <= j < |ts| && ts[j] == r[i]
    ensures forall i :: 0 <= i < |r| ==> r[i].source == state && r[i].name == name
  {
    if ts == [] then [] else
      var t := ts[|ts| - 1];
      Matches(ts[..|ts| - 1], state, name) + if t.source == state && t.name == name then [t] else []
  }

  /** Enabled only when exactly one transition of that name leaves the state. */
  function FindTransition(m: MachineSpec, state: string, name: string): Option<TransitionSpec> {
    var found := Matches(m.transitions, state, name);
    if |found| == 1 then Some(found[0]) else None
  }

  datatype Payload = Payload(
    id: string,
    lineage: string,
    parent: Option<string>,
    subject: string,
    warden: string,
    allocation: Vector,
    capabilities: set<string>,
    machine: string,
    ancestors: seq<string>,
    issuedAt: real,
    expiresAt: real,
    epoch: int)

  datatype Lease = Lease(
    id: string,
    lineage: string,
    parent: Option<string>,
    subject: string,
    warden: string,
    allocation: Vector,
    residual: Vector,
    capabilities: set<string>,
    machine: string,
    state: string,
    ancestors: seq<string>,
    issuedAt: real,
    expiresAt: real,
    epoch: int,
    status: LeaseStatus,
    signature: Payload,
    sequence: int)

  function PayloadOf(l: Lease): Payload {
    Payload(l.id, l.lineage, l.parent, l.subject, l.warden, l.allocation, l.capabilities, l.machine,
            l.ancestors, l.issuedAt, l.expiresAt, l.epoch)
  }

  function Sign(l: Lease): Lease {
    l.(signature := PayloadOf(l))
  }

  /** The stored-path test: is this lease `branch` or below it? */
  predicate IsDescendantOf(l: Lease, branch: string) {
    branch == l.id || branch in l.ancestors
  }

  datatype Warden = Warden(
    id: string,
    pool: Vector,
    consumed: Vector,
    leases: map<string, Lease>,
    machines: map<string, MachineSpec>,
    revocations: map<string, int>,
    accepted: set<string>)

  datatype Error = KeyError | ValueError | PermissionError | RuntimeError

  datatype Reply<+T> = Done(warden: Warden, value: T) | Raised(warden: Warden, error: Error)

  // ---- operations ----

  predicate Registrable(dim: nat, m: MachineSpec) {
    forall i :: 0 <= i < |m.transitions| ==>
      |m.transitions[i].cost| == dim && Nonneg(m.transitions[i].cost)
  }

  function Register(w: Warden, m: MachineSpec): Warden {
    w.(machines := w.machines[m.digest := m])
  }

  predicate RevokedByPrefix(revocations: map<string, int>, l: Lease) {
    exists branch :: branch in revocations && IsDescendantOf(l, branch)
  }

  function Refusal(w: Warden, id: string, now: real): Option<Error> {
    if id !in w.leases then Some(KeyError)
    else
      var l := w.leases[id];
      if l.status != Active || now >= l.expiresAt || RevokedByPrefix(w.revocations, l) || l.signature != PayloadOf(l)
      then Some(PermissionError) else None
  }

  function RootLease(warden: string, id: string, lineage: string, subject: string, allocation: Vector,
                     capabilities: set<string>, machine: MachineSpec, ttl: real, now: real): Lease {
    var unsigned := Lease(id, lineage, None, subject, warden, allocation, allocation, capabilities,
                          machine.digest, machine.initialState, [], now, now + ttl, 0, Active,
                          Payload("", "", None, "", "", [], {}, "", [], 0.0, 0.0, 0), 0);
    Sign(unsigned)
  }

  function ChildLease(warden: string, parent: Lease, id: string, subject: string, allocation: Vector,
                      capabilities: set<string>, machine: MachineSpec, ttl: real, now: real): Lease {
    var expiry := if parent.expiresAt <= now + ttl then parent.expiresAt else now + ttl;
    var unsigned := Lease(id, parent.lineage, Some(parent.id), subject, warden, allocation, allocation, capabilities,
                          machine.digest, machine.initialState, parent.ancestors + [parent.id], now, expiry,
                          parent.epoch, Active,
                          Payload("", "", None, "", "", [], {}, "", [], 0.0, 0.0, 0), 0);
    Sign(unsigned)
  }

  /** The machine is registered before the pool is debited, so it stays registered on failure. */
  function IssueRoot(w: Warden, id: string, lineage: string, subject: string, allocation: Vector,
                     capabilities: set<string>, machine: MachineSpec, ttl: real, now: real): Reply<Lease> {
    if !Registrable(|w.pool|, machine) then Raised(w, ValueError) else
      var registered := Register(w, machine);
      var rest := VSub(w.pool, allocation);
      if rest.None? then Raised(registered, ValueError) else
        var l := RootLease(w.id, id, lineage, subject, allocation, capabilities, machine, ttl, now);
        Done(registered.(pool := rest.value, leases := w.leases[id := l]), l)
  }

  function SpawnLocal(w: Warden, parentId: string, id: string, subject: string, allocation: Vector,
                      capabilities: set<string>, machine: Option<MachineSpec>, ttl: real, now: real): Reply<Lease> {
    var refusal := Refusal(w, parentId, now);
    if refusal.Some? then Raised(w, refusal.value) else
      var parent := w.leases[parentId];
      if !(capabilities <= parent.capabilities) then Raised(w, PermissionError)
      else if !VLeq(allocation, parent.residual) then Raised(w, ValueError)
      else if machine.None? && parent.machine !in w.machines then Raised(w, KeyError)
      else
        var spec := if machine.Some? then machine.value else w.machines[parent.machine];
        if !Registrable(|w.pool|, spec) then Raised(w, ValueError) else
          var rest := VSub(parent.residual, allocation);
          if rest.None? then Raised(Register(w, spec), ValueError) else
            var debited := parent.(residual := rest.value, sequence := parent.sequence + 1);
            var child := ChildLease(w.id, parent, id, subject, allocation, capabilities, spec, ttl, now);
            Done(Register(w, spec).(leases := w.leases[parentId := debited][id := child]), child)
  }

  /** The lease is charged before the consumption is added up, so a failing addition leaves it charged. */
  function Execute(w: Warden, id: string, name: string, evidence: Evidence, now: real): Reply<Lease> {
    var refusal := Refusal(w, id, now);
    if refusal.Some? then Raised(w, refusal.value) else
      var l := w.leases[id];
      if l.machine !in w.machines then Raised(w, RuntimeError) else
        var found := FindTransition(w.machines[l.machine], l.state, name);
        if found.None? then Raised(w, ValueError) else
          var t := found.value;
          if t.capability !in l.capabilities then Raised(w, PermissionError)
          else if t.guard.Some? && !t.guard.value(evidence) then Raised(w, PermissionError)
          else if !VLeq(t.cost, l.residual) then Raised(w, ValueError)
          else
            var rest := VSub(l.residual, t.cost);
            if rest.None? then Raised(w, ValueError) else
              var charged := l.(residual := rest.value);
              var spent := VAdd(w.consumed, t.cost);
              if spent.None? then Raised(w.(leases := w.leases[id := charged]), ValueError) else
                var moved := charged.(state := t.target, sequence := l.sequence + 1);
                Done(w.(leases := w.leases[id := moved], consumed := spent.value), moved)
  }

  function SetQuiescent(w: Warden, id: string, now: real): Reply<()> {
    var refusal := Refusal(w, id, now);
    if refusal.Some? then Raised(w, refusal.value) else
      var l := w.leases[id];
      Done(w.(leases := w.leases[id := l.(status := Quiescent, sequence := l.sequence + 1)]), ())
  }

  function Resume(w: Warden, id: string, now: real): Reply<()> {
    if id !in w.leases then Raised(w, KeyError) else
      var l := w.leases[id];
      if l.status != Quiescent then Raised(w, ValueError)
      else if now >= l.expiresAt || RevokedByPrefix(w.revocations, l) then Raised(w, PermissionError)
      else Done(w.(leases := w.leases[id := l.(status := Active, sequence := l.sequence + 1)]), ())
  }

  /** A root may be renewed to an earlier expiry; a child never beyond its parent's. */
  function Renew(w: Warden, id: string, ttl: real, now: real): Reply<()> {
    if ttl <= 0.0 then Raised(w, ValueError) else
      var refusal := Refusal(w, id, now);
      if refusal.Some? then Raised(w, refusal.value) else
        var l := w.leases[id];
        if l.parent.None? then Done(Renewed(w, l, now + ttl, now), ())
        else if l.parent.value !in w.leases then Raised(w, RuntimeError)
        else
          var parent := w.leases[l.parent.value];
          if parent.status in {Revoked, Expired, Closed} || now >= parent.expiresAt || RevokedByPrefix(w.revocations, parent)
          then Raised(w, PermissionError)
          else Done(Renewed(w, l, if now + ttl <= parent.expiresAt then now + ttl else parent.expiresAt, now), ())
  }

  function Renewed(w: Warden, l: Lease, expiry: real, now: real): Warden {
    var signed := Sign(l.(expiresAt := expiry, issuedAt := now));
    w.(leases := w.leases[l.id := signed.(sequence := l.sequence + 1)])
  }

  predicate Revocable(l: Lease, branch: string) {
    IsDescendantOf(l, branch) && (l.status == Active || l.status == Quiescent)
  }

  function RevokedLease(l: Lease, branch: string): Lease {
    if Revocable(l, branch) then l.(status := Revoked, sequence := l.sequence + 1) else l
  }

  /** Marks every active or quiescent lease of the branch, unless the epoch is not news. */
  function RevokeBranch(w: Warden, branch: string, epoch: int): Reply<nat> {
    var previous := if branch in w.revocations then w.revocations[branch] else -1;
    if epoch <= previous then Done(w, 0) else
      var affected := set id | id in w.leases && Revocable(w.leases[id], branch);
      Done(w.(revocations := w.revocations[branch := epoch],
              leases := map id | id in w.leases :: RevokedLease(w.leases[id], branch)), |affected|)
  }

  predicate Ended(l: Lease) {
    l.status == Closed || l.status == Expired
  }

  /** The lease is emptied and closed before the pool is credited. */
  function Close(w: Warden, id: string): Reply<Vector> {
    if id !in w.leases then Raised(w, KeyError) else
      var l := w.leases[id];
      if Ended(l) then Done(w, Zero(|w.pool|)) else
        var ended := l.(residual := Zero(|w.pool|), status := Closed, sequence := l.sequence + 1);
        var closed := w.(leases := w.leases[id := ended]);
        var pool := VAdd(w.pool, l.residual);
        if pool.None? then Raised(closed, ValueError) else Done(closed.(pool := pool.value), l.residual)
  }

  predicate Lapsed(l: Lease, now: real) {
    !Ended(l) && now >= l.expiresAt
  }

  function ExpiredLease(l: Lease, now: real, dim: nat): Lease {
    if Lapsed(l, now) then l.(residual := Zero(dim), status := Expired, sequence := l.sequence + 1) else l
  }

  /** All vectors a warden holds have one dimension. */
  predicate Shaped(w: Warden) {
    && |w.consumed| == |w.pool|
    && forall id :: id in w.leases ==>
         |w.leases[id].residual| == |w.pool| && |w.leases[id].allocation| == |w.pool|
  }

  /** The leases that have lapsed hold vectors of the pool's dimension. */
  predicate LapsedFit(w: Warden, now: real) {
    forall id :: id in w.leases && Lapsed(w.leases[id], now) ==> |w.leases[id].residual| == |w.pool|
  }

  function LapsedRights(w: Warden, now: real, j: nat): map<string, int>
    requires LapsedFit(w, now) && j < |w.pool|
  {
    map id | id in w.leases && Lapsed(w.leases[id], now) :: w.leases[id].residual[j]
  }

  /** Component by component, what the lapsed leases hold together. */
  ghost function Reclaimed(w: Warden, now: real): Vector
    requires LapsedFit(w, now)
  {
    seq(|w.pool|, j requires 0 <= j < |w.pool| => Total(LapsedRights(w, now, j)))
  }

  ghost function ReclaimExpired(w: Warden, now: real): Reply<Vector>
    requires LapsedFit(w, now)
  {
    var reclaimed := Reclaimed(w, now);
    Done(w.(pool := VAdd(w.pool, reclaimed).value,
            leases := map id | id in w.leases :: ExpiredLease(w.leases[id], now, |w.pool|)), reclaimed)
  }
}
