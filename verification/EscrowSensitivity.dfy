/**
 * The validator of histories, check by check, and the proof that no history the model can record is
 * ever rejected by it.
 */
module EscrowSensitivity {
  import opened Common
  import opened Escrow
  import opened EscrowInvariant
  import opened EscrowValidate
  import opened EscrowHistory
  import opened EscrowGuarantees
  import opened EscrowLineage

  datatype Failure =
    | InactiveAncestor
    | ClaimedTwice
    | StaleAuthorization
    | ForeignInbound
    | UnfinalizedCheckpoint
    | CoreViolation(violated: Invariant)

  // ---- the checks, as statements ----

  ghost predicate AncestorsHold(leases: seq<Lease>) {
    forall i :: 0 <= i < |leases| && leases[i].active ==> AncestorsActive(KnownLeases(leases), leases[i])
  }

  predicate Current(e: AuthorizationEvent) {
    e.expected == e.prior
  }

  /** The transfers by identifier. */
  function TransferTable(transfers: seq<Transfer>): map<int, Transfer> {
    if transfers == [] then map[] else
      var last := transfers[|transfers| - 1];
      TransferTable(transfers[..|transfers| - 1])[last.id := last]
  }

  predicate Originates(table: map<int, Transfer>, e: InboundEvent) {
    && e.hasSourceVoucher && e.transfer in table
    && table[e.transfer].source == e.source && table[e.transfer].target == e.target
    && table[e.transfer].sequence == e.sequence && !table[e.transfer].status.Prepared?
  }

  predicate Contiguous(transfers: seq<Transfer>, c: CheckpointEvent) {
    forall q :: 1 <= q <= c.through ==> FinalizedAt(StreamTable(transfers, c.source, c.target), q)
  }

  /** The first check that fails, in the validator's order. */
  ghost function FirstFailure(h: History, budget: int): Option<Failure> {
    if !AncestorsHold(h.core.leases) then Some(InactiveAncestor)
    else if !Distinct(h.claims) then Some(ClaimedTwice)
    else if exists i :: 0 <= i < |h.authorizations| && !Current(h.authorizations[i]) then Some(StaleAuthorization)
    else if exists i :: 0 <= i < |h.inbound| && !Originates(TransferTable(h.core.transfers), h.inbound[i])
    then Some(ForeignInbound)
    else if exists i :: 0 <= i < |h.checkpoints| && !Contiguous(h.core.transfers, h.checkpoints[i])
    then Some(UnfinalizedCheckpoint)
    else
      var violated := FirstViolation(h.core, budget);
      if violated.Some? then Some(CoreViolation(violated.value)) else None
  }

  // ---- the validator ----

  method CheckAuthorizations(events: seq<AuthorizationEvent>) returns (ok: bool)
    ensures ok <==> forall i :: 0 <= i < |events| ==> Current(events[i])
  {
    for i := 0 to |events|
      invariant forall k :: 0 <= k < i ==> Current(events[k])
    {
      if events[i].expected != events[i].prior {
        return false;
      }
    }
    return true;
  }

  method CheckInbound(transfers: seq<Transfer>, events: seq<InboundEvent>) returns (ok: bool)
    ensures ok <==> forall i :: 0 <= i < |events| ==> Originates(TransferTable(transfers), events[i])
  {
    var table := TransferTable(transfers);
    for i := 0 to |events|
      invariant forall k :: 0 <= k < i ==> Originates(table, events[k])
    {
      var e := events[i];
      if !e.hasSourceVoucher || e.transfer !in table {
        return false;
      }
      var t := table[e.transfer];
      if t.source != e.source || t.target != e.target || t.sequence != e.sequence || t.status.Prepared? {
        return false;
      }
    }
    return true;
  }

  method CheckCheckpoint(transfers: seq<Transfer>, c: CheckpointEvent) returns (ok: bool)
    ensures ok <==> Contiguous(transfers, c)
  {
    var table := StreamTable(transfers, c.source, c.target);
    var q := 1;
    while q <= c.through
      invariant 1 <= q && forall k :: 1 <= k < q ==> FinalizedAt(table, k)
      decreases c.through - q
    {
      if q !in table || !table[q].status.Finalized? {
        assert !FinalizedAt(table, q);
        return false;
      }
      q := q + 1;
    }
    return true;
  }

  method CheckCheckpoints(transfers: seq<Transfer>, checkpoints: seq<CheckpointEvent>) returns (ok: bool)
    ensures ok <==> forall i :: 0 <= i < |checkpoints| ==> Contiguous(transfers, checkpoints[i])
  {
    for i := 0 to |checkpoints|
      invariant forall k :: 0 <= k < i ==> Contiguous(transfers, checkpoints[k])
    {
      var good := CheckCheckpoint(transfers, checkpoints[i]);
      if !good {
        return false;
      }
    }
    return true;
  }

  /** Reports the first failing check, the checker of the escrow state itself coming last. */
  method ValidateSensitivity(h: History, budget: int) returns (failure: Option<Failure>)
    ensures failure == FirstFailure(h, budget)
  {
    var ancestors, guard := CheckActiveAncestors(h.core.leases);
    if !ancestors {
      return Some(InactiveAncestor);
    }
    var once := CheckDistinct(h.claims);
    if !once {
      return Some(ClaimedTwice);
    }
    var current := CheckAuthorizations(h.authorizations);
    if !current {
      return Some(StaleAuthorization);
    }
    var origin := CheckInbound(h.core.transfers, h.inbound);
    if !origin {
      return Some(ForeignInbound);
    }
    var contiguous := CheckCheckpoints(h.core.transfers, h.checkpoints);
    if !contiguous {
      return Some(UnfinalizedCheckpoint);
    }
    var violated := Validate(h.core, budget);
    return if violated.Some? then Some(CoreViolation(violated.value)) else None;
  }

  // ---- histories and runs ----

  /** The actions among the moves. */
  function Actions(moves: seq<Move>): seq<Action> {
    if moves == [] then [] else
      var last := moves[|moves| - 1];
      Actions(moves[..|moves| - 1]) + if last.CoreMove? then [last.action] else []
  }

  /** Recording events and taking checkpoints does not disturb the run they are taken of. */
  lemma {:induction false} ReplayIsRun(shares: seq<int>, moves: seq<Move>)
    ensures Replay(InitialHistory(shares), moves).core == Run(InitialState(shares), Actions(moves))
  {
    if moves != [] {
      var front, last := moves[..|moves| - 1], moves[|moves| - 1];
      ReplayIsRun(shares, front);
      if last.CoreMove? {
        assert Actions(moves)[..|Actions(moves)| - 1] == Actions(front);
      } else {
        assert Actions(moves) == Actions(front);
      }
    }
  }

  // ---- every history passes ----

  lemma {:induction false} TableById(transfers: seq<Transfer>, id: int)
    requires forall i :: 0 <= i < |transfers| ==> transfers[i].id == i + 1
    ensures id in TransferTable(transfers) <==> 1 <= id <= |transfers|
    ensures 1 <= id <= |transfers| ==> TransferTable(transfers)[id] == transfers[id - 1]
  {
    if transfers != [] {
      TableById(transfers[..|transfers| - 1], id);
    }
  }

  lemma InboundOriginates(h: History, budget: int, i: nat)
    requires Recorded(h, budget) && i < |h.inbound|
    ensures Originates(TransferTable(h.core.transfers), h.inbound[i])
  {
    assert InboundAt(h.core.transfers, h.inbound[i]);
    TableById(h.core.transfers, h.inbound[i].transfer);
  }

  lemma CheckpointIsContiguous(h: History, budget: int, i: nat)
    requires Recorded(h, budget) && i < |h.checkpoints|
    ensures Contiguous(h.core.transfers, h.checkpoints[i])
  {
    var ts, c := h.core.transfers, h.checkpoints[i];
    assert CheckpointHolds(ts, c);
    forall q | 1 <= q <= c.through ensures FinalizedAt(StreamTable(ts, c.source, c.target), q) {
      assert FinalizedOnStream(ts, c.source, c.target, q);
      FinalizedIsListed(ts, c.source, c.target, q);
    }
  }

  /** Whatever is done, in whatever order, and whenever checkpoints are taken: the validator accepts. */
  lemma EveryHistoryPasses(shares: seq<int>, moves: seq<Move>)
    requires forall w :: 0 <= w < |shares| ==> 0 <= shares[w]
    ensures FirstFailure(Replay(InitialHistory(shares), moves), Sum(shares)) == None
  {
    InitialRecorded(shares);
    ReplayRecorded(InitialHistory(shares), Sum(shares), moves);
    AncestorsAlwaysHold(shares, moves);
    RecordedPasses(Replay(InitialHistory(shares), moves), Sum(shares));
  }

  lemma RecordedPasses(h: History, budget: int)
    requires Recorded(h, budget) && AncestorsHold(h.core.leases)
    ensures FirstFailure(h, budget) == None
  {
    forall i | 0 <= i < |h.inbound| ensures Originates(TransferTable(h.core.transfers), h.inbound[i]) {
      InboundOriginates(h, budget, i);
    }
    forall i | 0 <= i < |h.checkpoints| ensures Contiguous(h.core.transfers, h.checkpoints[i]) {
      CheckpointIsContiguous(h, budget, i);
    }
    InvIsValid(h.core, budget);
  }

  lemma AncestorsAlwaysHold(shares: seq<int>, moves: seq<Move>)
    requires forall w :: 0 <= w < |shares| ==> 0 <= shares[w]
    ensures AncestorsHold(Replay(InitialHistory(shares), moves).core.leases)
  {
    ReplayIsRun(shares, moves);
    var leases := Replay(InitialHistory(shares), moves).core.leases;
    forall i | 0 <= i < |leases| && leases[i].active ensures AncestorsActive(KnownLeases(leases), leases[i]) {
      ActiveLeasesHaveActiveAncestors(shares, Actions(moves), i);
    }
  }
}
