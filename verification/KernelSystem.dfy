/**
 * Several wardens: the division of a budget into shares, two-phase transfers, and conservation of
 * every component over every interleaving of warden calls and transfers.
 */
module KernelSystem {
  import opened Common
  import opened MapSums
  import opened Shares
  import opened KernelSpec
  import opened KernelInvariant
  import opened KernelGuarantees

  datatype Transfer = Transfer(source: string, target: string, amount: Vector, accepted: bool)

  datatype System = System(budget: Vector, wardens: map<string, Warden>, transfers: map<string, Transfer>)

  // ---- shares ----

  /** Warden `i` of `n` gets the quotient, and one more while the remainder lasts. */
  function Share(budget: Vector, n: nat, i: nat): Vector
    requires n > 0
  {
    seq(|budget|, j requires 0 <= j < |budget| => Part(budget[j], n, i))
  }

  function NewWarden(id: string, share: Vector): Warden {
    Warden(id, share, Zero(|share|), map[], map[], map[], {})
  }

  function FirstWardens(budget: Vector, ids: seq<string>, k: nat): map<string, Warden>
    requires k <= |ids| && |ids| > 0
  {
    if k == 0 then map[]
    else FirstWardens(budget, ids, k - 1)[ids[k - 1] := NewWarden(ids[k - 1], Share(budget, |ids|, k - 1))]
  }

  /** `None` is the error for no wardens or a negative share. */
  function NewSystem(budget: Vector, ids: seq<string>): Option<System> {
    if ids == [] || exists i :: 0 <= i < |ids| && !Nonneg(Share(budget, |ids|, i)) then None
    else Some(System(budget, FirstWardens(budget, ids, |ids|), map[]))
  }

  // ---- transfers ----

  datatype Outcome<+T> = Did(system: System, value: T) | Failed(error: Error)

  /** The target is looked up only when the transfer is accepted. */
  function PrepareTransfer(s: System, id: string, source: string, target: string, amount: Vector): Outcome<Transfer> {
    if source == target then Failed(ValueError)
    else if source !in s.wardens then Failed(KeyError)
    else
      var w := s.wardens[source];
      var rest := VSub(w.pool, amount);
      if rest.None? then Failed(ValueError) else
        var t := Transfer(source, target, amount, false);
        Did(s.(wardens := s.wardens[source := w.(pool := rest.value)], transfers := s.transfers[id := t]), t)
  }

  function AcceptTransfer(s: System, id: string): Outcome<bool> {
    if id !in s.transfers then Failed(KeyError) else
      var t := s.transfers[id];
      if t.target !in s.wardens then Failed(KeyError) else
        var w := s.wardens[t.target];
        if id in w.accepted || t.accepted then Did(s, false) else
          var pool := VAdd(w.pool, t.amount);
          if pool.None? then Failed(ValueError) else
            var credited := w.(pool := pool.value, accepted := w.accepted + {id});
            Did(s.(wardens := s.wardens[t.target := credited],
                   transfers := s.transfers[id := t.(accepted := true)]), true)
  }

  datatype Move =
    | OnWarden(warden: string, call: Call)
    | Prepare(id: string, source: string, target: string, amount: Vector)
    | Accept(id: string)

  ghost function Step(s: System, m: Move): System {
    match m
    case OnWarden(warden, call) =>
      if warden in s.wardens then s.(wardens := s.wardens[warden := Apply(s.wardens[warden], call)]) else s
    case Prepare(id, source, target, amount) =>
      var r := PrepareTransfer(s, id, source, target, amount);
      if r.Did? then r.system else s
    case Accept(id) =>
      var r := AcceptTransfer(s, id);
      if r.Did? then r.system else s
  }

  predicate FreshMove(s: System, m: Move) {
    match m
    case OnWarden(warden, call) => warden in s.wardens ==> FreshCall(s.wardens[warden], call)
    case Prepare(id, _, _, _) => id !in s.transfers
    case Accept(_) => true
  }

  ghost function RunMoves(s: System, moves: seq<Move>): System
    decreases |moves|
  {
    if moves == [] then s else RunMoves(Step(s, moves[0]), moves[1..])
  }

  ghost predicate FreshMoves(s: System, moves: seq<Move>)
    decreases |moves|
  {
    moves != [] ==> FreshMove(s, moves[0]) && FreshMoves(Step(s, moves[0]), moves[1..])
  }

  // ---- the invariant ----

  predicate SoundAt(s: System, id: string)
    requires id in s.wardens
  {
    Sound(s.wardens[id]) && |s.wardens[id].pool| == |s.budget|
  }

  /** The two records of an acceptance, at the transfer and at its target, agree. */
  predicate AcceptedAt(s: System, id: string)
    requires id in s.transfers
  {
    var t := s.transfers[id];
    |t.amount| == |s.budget| && (t.target in s.wardens ==> (t.accepted <==> id in s.wardens[t.target].accepted))
  }

  predicate Consistent(s: System) {
    && (forall id {:trigger SoundAt(s, id)} :: id in s.wardens ==> SoundAt(s, id))
    && (forall id {:trigger AcceptedAt(s, id)} :: id in s.transfers ==> AcceptedAt(s, id))
    && (forall w, id :: w in s.wardens && id in s.wardens[w].accepted ==> id in s.transfers)
  }

  ghost function HeldAt(s: System, j: nat): map<string, int>
    requires Consistent(s) && j < |s.budget|
  {
    map id | id in s.wardens :: HeldBy(s, id, j)
  }

  ghost function HeldBy(s: System, id: string, j: nat): int
    requires Consistent(s) && j < |s.budget| && id in s.wardens
  {
    assert SoundAt(s, id);
    Holding(s.wardens[id], j)
  }

  function FlyingAt(s: System, j: nat): map<string, int>
    requires Consistent(s) && j < |s.budget|
  {
    map id | id in s.transfers ::
      assert AcceptedAt(s, id); if s.transfers[id].accepted then 0 else s.transfers[id].amount[j]
  }

  /** Free pools, residuals, consumption and transfers in flight of component `j`. */
  ghost function Accounted(s: System, j: nat): int
    requires Consistent(s) && j < |s.budget|
  {
    Total(HeldAt(s, j)) + Total(FlyingAt(s, j))
  }

  ghost predicate Conserved(s: System) {
    Consistent(s) && forall j: nat :: j < |s.budget| ==> Accounted(s, j) == s.budget[j]
  }

  /** Replacing one warden moves the holdings by what that warden gained. */
  lemma HeldReplaced(s: System, after: System, id: string, j: nat)
    requires Consistent(s) && Consistent(after) && after.budget == s.budget && j < |s.budget|
    requires id in s.wardens && id in after.wardens && after.wardens == s.wardens[id := after.wardens[id]]
    ensures SoundAt(s, id) && SoundAt(after, id)
    ensures Total(HeldAt(after, j)) == Total(HeldAt(s, j)) - Holding(s.wardens[id], j) + Holding(after.wardens[id], j)
  {
    assert SoundAt(s, id) && SoundAt(after, id);
    var held, now := HeldAt(s, j), HeldBy(after, id, j);
    HeldDiffers(s, after, id, j);
    TotalUpdate(held, id, now);
  }

  lemma HeldDiffers(s: System, after: System, id: string, j: nat)
    requires Consistent(s) && Consistent(after) && after.budget == s.budget && j < |s.budget|
    requires id in after.wardens && after.wardens == s.wardens[id := after.wardens[id]]
    ensures HeldAt(after, j) == HeldAt(s, j)[id := HeldBy(after, id, j)]
  {
    forall x | x in s.wardens && x != id ensures HeldBy(after, x, j) == HeldBy(s, x, j) {
      assert after.wardens[x] == s.wardens[x];
    }
  }

  lemma FlyingSame(s: System, after: System, j: nat)
    requires Consistent(s) && Consistent(after) && after.budget == s.budget && j < |s.budget|
    requires after.transfers == s.transfers
    ensures Total(FlyingAt(after, j)) == Total(FlyingAt(s, j))
  {
    assert FlyingAt(after, j) == FlyingAt(s, j);
  }

  lemma FlyingStarts(s: System, after: System, id: string, t: Transfer, j: nat)
    requires Consistent(s) && Consistent(after) && after.budget == s.budget && j < |s.budget|
    requires id !in s.transfers && !t.accepted && after.transfers == s.transfers[id := t]
    ensures AcceptedAt(after, id) && Total(FlyingAt(after, j)) == Total(FlyingAt(s, j)) + t.amount[j]
  {
    assert AcceptedAt(after, id);
    StartsAt(s, after, id, t, j);
    TotalInsert(FlyingAt(s, j), id, t.amount[j]);
  }

  lemma StartsAt(s: System, after: System, id: string, t: Transfer, j: nat)
    requires Consistent(s) && Consistent(after) && after.budget == s.budget && j < |s.budget| == |t.amount|
    requires id !in s.transfers && !t.accepted && after.transfers == s.transfers[id := t]
    ensures FlyingAt(after, j) == FlyingAt(s, j)[id := t.amount[j]]
  {
    forall x | x in s.transfers ensures |s.transfers[x].amount| == |s.budget| {
      assert AcceptedAt(s, x);
    }
  }

  lemma FlyingLands(s: System, after: System, id: string, j: nat)
    requires Consistent(s) && Consistent(after) && after.budget == s.budget && j < |s.budget|
    requires id in s.transfers && !s.transfers[id].accepted
    requires after.transfers == s.transfers[id := s.transfers[id].(accepted := true)]
    ensures AcceptedAt(s, id) && Total(FlyingAt(after, j)) == Total(FlyingAt(s, j)) - s.transfers[id].amount[j]
  {
    assert AcceptedAt(s, id);
    assert FlyingAt(after, j) == FlyingAt(s, j)[id := 0];
    TotalUpdate(FlyingAt(s, j), id, 0);
  }

  // ---- the initial division ----

  /** Earlier wardens get no less, and nobody gets more than one right above anybody else. */
  lemma SharesAreFair(budget: Vector, n: nat, i: nat, k: nat, j: nat)
    requires i <= k < n && j < |budget|
    ensures Share(budget, n, k)[j] <= Share(budget, n, i)[j] <= Share(budget, n, k)[j] + 1
  {
  }

  /** The shares add up to the budget, component by component, whatever the remainders. */
  lemma SharesAddUp(budget: Vector, n: nat, j: nat)
    requires n > 0 && j < |budget|
    ensures Sum(seq(n, i requires 0 <= i < n => Share(budget, n, i)[j])) == budget[j]
  {
    assert seq(n, i requires 0 <= i < n => Share(budget, n, i)[j]) == Parts(budget[j], n, n);
    PartsAddUp(budget[j], n);
  }

  lemma NewWardenSound(id: string, share: Vector, j: nat)
    requires j < |share|
    ensures Sound(NewWarden(id, share)) && Holding(NewWarden(id, share), j) == share[j]
  {
    var w := NewWarden(id, share);
    assert ResidualAt(w.leases, |share|, j) == map[];
  }

  lemma {:induction false} FirstWardensKnown(budget: Vector, ids: seq<string>, k: nat)
    requires Distinct(ids) && 0 < |ids| && k <= |ids|
    ensures forall id :: id in FirstWardens(budget, ids, k) <==> exists i :: 0 <= i < k && ids[i] == id
    ensures forall i :: 0 <= i < k ==> FirstWardens(budget, ids, k)[ids[i]] == NewWarden(ids[i], Share(budget, |ids|, i))
  {
    if k > 0 {
      FirstWardensKnown(budget, ids, k - 1);
    }
  }

  lemma FreshConsistent(budget: Vector, ids: seq<string>, k: nat)
    requires Distinct(ids) && 0 < |ids| && k <= |ids|
    ensures Consistent(System(budget, FirstWardens(budget, ids, k), map[]))
  {
    var s := System(budget, FirstWardens(budget, ids, k), map[]);
    FirstWardensKnown(budget, ids, k);
    forall id | id in s.wardens ensures SoundAt(s, id) && s.wardens[id].accepted == {} {
      var i :| 0 <= i < k && ids[i] == id;
      assert Sound(NewWarden(id, Share(budget, |ids|, i)));
    }
  }

  lemma NotYetJoined(budget: Vector, ids: seq<string>, k: nat)
    requires Distinct(ids) && k < |ids|
    ensures ids[k] !in FirstWardens(budget, ids, k)
  {
    FirstWardensKnown(budget, ids, k);
  }

  lemma WardenJoins(s: System, after: System, id: string, share: Vector, j: nat)
    requires Consistent(s) && Consistent(after) && after.budget == s.budget && j < |s.budget| == |share|
    requires id !in s.wardens && after.wardens == s.wardens[id := NewWarden(id, share)]
    ensures Total(HeldAt(after, j)) == Total(HeldAt(s, j)) + share[j]
  {
    NewWardenSound(id, share, j);
    HeldDiffers(s, after, id, j);
    TotalInsert(HeldAt(s, j), id, share[j]);
  }

  lemma {:induction false} FirstWardensHold(budget: Vector, ids: seq<string>, k: nat, j: nat)
    requires Distinct(ids) && 0 < |ids| && k <= |ids| && j < |budget|
    ensures var s := System(budget, FirstWardens(budget, ids, k), map[]);
      Consistent(s) && Total(HeldAt(s, j)) == Sum(Parts(budget[j], |ids|, k))
  {
    FreshConsistent(budget, ids, k);
    var s := System(budget, FirstWardens(budget, ids, k), map[]);
    if k == 0 {
      assert HeldAt(s, j) == map[];
    } else {
      FirstWardensHold(budget, ids, k - 1, j);
      NotYetJoined(budget, ids, k - 1);
      var before := System(budget, FirstWardens(budget, ids, k - 1), map[]);
      WardenJoins(before, s, ids[k - 1], Share(budget, |ids|, k - 1), j);
      PartsGrow(budget[j], |ids|, k - 1);
    }
  }

  lemma NewSystemConserves(budget: Vector, ids: seq<string>)
    requires Distinct(ids) && NewSystem(budget, ids).Some?
    ensures Conserved(NewSystem(budget, ids).value)
  {
    var s := NewSystem(budget, ids).value;
    FreshConsistent(budget, ids, |ids|);
    forall j: nat | j < |budget| ensures Accounted(s, j) == budget[j] {
      FirstWardensHold(budget, ids, |ids|, j);
      PartsAddUp(budget[j], |ids|);
      assert FlyingAt(s, j) == map[];
    }
  }

  // ---- every move conserves ----

  /** A warden call: one entry of the holdings is recomputed, to the same value. */
  lemma WardenMoveConserves(s: System, id: string, c: Call)
    requires Conserved(s) && id in s.wardens && FreshCall(s.wardens[id], c)
    ensures Conserved(Step(s, OnWarden(id, c)))
  {
    assert SoundAt(s, id);
    var w := s.wardens[id];
    ApplyKeeps(w, c);
    var after := Step(s, OnWarden(id, c));
    CallsAcceptNothing(w, c);
    ReplacedConsistent(s, id, Apply(w, c));
    forall j: nat | j < |s.budget| ensures Accounted(after, j) == s.budget[j] {
      HeldReplaced(s, after, id, j);
      FlyingSame(s, after, j);
    }
  }

  lemma CallsAcceptNothing(w: Warden, c: Call)
    ensures Apply(w, c).accepted == w.accepted
  {
  }

  lemma ReplacedConsistent(s: System, id: string, w: Warden)
    requires Consistent(s) && id in s.wardens && Sound(w) && |w.pool| == |s.budget|
    requires w.accepted == s.wardens[id].accepted
    ensures Consistent(s.(wardens := s.wardens[id := w]))
  {
    var after := s.(wardens := s.wardens[id := w]);
    forall x | x in after.wardens ensures SoundAt(after, x) {
      assert SoundAt(s, x);
    }
    forall x | x in after.transfers ensures AcceptedAt(after, x) {
      assert AcceptedAt(s, x);
    }
  }

  lemma PoolChangeSound(w: Warden, pool: Vector, accepted: set<string>)
    requires Sound(w) && |pool| == |w.pool|
    ensures var after := w.(pool := pool, accepted := accepted);
      Sound(after) && forall j: nat :: j < |pool| ==> Holding(after, j) == Holding(w, j) - w.pool[j] + pool[j]
  {
    var after := w.(pool := pool, accepted := accepted);
    EvolvedByPool(w, after);
    forall j: nat | j < |pool| ensures Holding(after, j) == Holding(w, j) - w.pool[j] + pool[j] {
      assert ResidualAt(after.leases, |pool|, j) == ResidualAt(w.leases, |pool|, j);
    }
  }

  lemma EvolvedByPool(w: Warden, after: Warden)
    requires Sound(w) && after == w.(pool := after.pool, accepted := after.accepted) && |after.pool| == |w.pool|
    ensures Sound(after)
  {
    forall id | id in after.leases ensures WellKept(after, id) && LinkedAt(after.leases, id) {
      assert WellKept(w, id) && LinkedAt(w.leases, id);
    }
    forall digest | digest in after.machines ensures Registrable(|after.pool|, after.machines[digest]) {
      assert Registrable(|w.pool|, w.machines[digest]);
    }
  }

  lemma PrepareConsistent(s: System, id: string, source: string, target: string, amount: Vector)
    requires Consistent(s) && id !in s.transfers && PrepareTransfer(s, id, source, target, amount).Did?
    ensures Consistent(PrepareTransfer(s, id, source, target, amount).system)
  {
    var after := PrepareTransfer(s, id, source, target, amount).system;
    assert SoundAt(s, source);
    PoolChangeSound(s.wardens[source], after.wardens[source].pool, s.wardens[source].accepted);
    forall x | x in after.wardens ensures SoundAt(after, x) {
      assert SoundAt(s, x);
    }
    forall x | x in after.transfers ensures AcceptedAt(after, x) {
      if x != id {
        assert AcceptedAt(s, x);
      } else if target in s.wardens && id in s.wardens[target].accepted {
        assert false;
      }
    }
  }

  lemma PrepareConserves(s: System, id: string, source: string, target: string, amount: Vector)
    requires Conserved(s) && id !in s.transfers && PrepareTransfer(s, id, source, target, amount).Did?
    ensures Conserved(PrepareTransfer(s, id, source, target, amount).system)
  {
    var after := PrepareTransfer(s, id, source, target, amount).system;
    PrepareConsistent(s, id, source, target, amount);
    assert SoundAt(s, source);
    PoolChangeSound(s.wardens[source], after.wardens[source].pool, s.wardens[source].accepted);
    forall j: nat | j < |s.budget| ensures Accounted(after, j) == s.budget[j] {
      HeldReplaced(s, after, source, j);
      FlyingStarts(s, after, id, after.transfers[id], j);
    }
  }

  lemma AcceptConsistent(s: System, id: string)
    requires Consistent(s) && AcceptTransfer(s, id).Did? && AcceptTransfer(s, id).value
    ensures Consistent(AcceptTransfer(s, id).system)
  {
    var after := AcceptTransfer(s, id).system;
    var target := s.transfers[id].target;
    assert SoundAt(s, target) && AcceptedAt(s, id);
    PoolChangeSound(s.wardens[target], after.wardens[target].pool, after.wardens[target].accepted);
    forall x | x in after.wardens ensures SoundAt(after, x) {
      assert SoundAt(s, x);
    }
    forall x | x in after.transfers ensures AcceptedAt(after, x) {
      assert AcceptedAt(s, x);
    }
  }

  lemma AcceptConserves(s: System, id: string)
    requires Conserved(s) && AcceptTransfer(s, id).Did?
    ensures Conserved(AcceptTransfer(s, id).system)
  {
    var r := AcceptTransfer(s, id);
    if r.value {
      var after, t := r.system, s.transfers[id];
      AcceptConsistent(s, id);
      assert SoundAt(s, t.target);
      PoolChangeSound(s.wardens[t.target], after.wardens[t.target].pool, after.wardens[t.target].accepted);
      forall j: nat | j < |s.budget| ensures Accounted(after, j) == s.budget[j] {
        HeldReplaced(s, after, t.target, j);
        FlyingLands(s, after, id, j);
      }
    }
  }

  lemma StepConserves(s: System, m: Move)
    requires Conserved(s) && FreshMove(s, m)
    ensures Conserved(Step(s, m)) && Step(s, m).budget == s.budget
  {
    match m
    case OnWarden(warden, call) =>
      if warden in s.wardens {
        WardenMoveConserves(s, warden, call);
      }
    case Prepare(id, source, target, amount) =>
      if PrepareTransfer(s, id, source, target, amount).Did? {
        PrepareConserves(s, id, source, target, amount);
      }
    case Accept(id) =>
      if AcceptTransfer(s, id).Did? {
        AcceptConserves(s, id);
      }
  }

  lemma {:induction false} RunConserves(s: System, moves: seq<Move>)
    requires Conserved(s) && FreshMoves(s, moves)
    ensures Conserved(RunMoves(s, moves)) && RunMoves(s, moves).budget == s.budget
    decreases |moves|
  {
    if moves != [] {
      StepConserves(s, moves[0]);
      RunConserves(Step(s, moves[0]), moves[1..]);
    }
  }

  /**
   * From the division of any budget among any wardens, through every interleaving of calls and
   * transfers, free + residual + consumed + in flight equals the budget in every component.
   */
  lemma EveryRunConserves(budget: Vector, ids: seq<string>, moves: seq<Move>, j: nat)
    requires Distinct(ids) && NewSystem(budget, ids).Some? && FreshMoves(NewSystem(budget, ids).value, moves)
    requires j < |budget|
    ensures var s := RunMoves(NewSystem(budget, ids).value, moves);
      Consistent(s) && s.budget == budget && Accounted(s, j) == budget[j]
  {
    NewSystemConserves(budget, ids);
    RunConserves(NewSystem(budget, ids).value, moves);
  }
}
