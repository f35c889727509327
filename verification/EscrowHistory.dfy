/**
 * Histories: the escrow model together with the events it records -- claims, authorizations,
 * inbound acceptances and stream checkpoints -- and what every run guarantees about them.
 */
module EscrowHistory {
  import opened Common
  import opened Escrow
  import opened EscrowInvariant
  import opened EscrowValidate

  datatype AuthorizationEvent = AuthorizationEvent(receipt: int, expected: int, prior: int)

  datatype InboundEvent = InboundEvent(
    transfer: int,
    source: nat,
    target: nat,
    sequence: int,
    hasSourceVoucher: bool)

  datatype CheckpointEvent = CheckpointEvent(source: nat, target: nat, through: int)

  /** Checkpoints are kept in the order they were taken; the source keeps the same ones sorted. */
  datatype History = History(
    core: State,
    claims: seq<int>,
    authorizations: seq<AuthorizationEvent>,
    inbound: seq<InboundEvent>,
    checkpoints: seq<CheckpointEvent>)

  datatype Move = CoreMove(action: Action) | CheckpointMove(source: nat, target: nat)

  function InitialHistory(shares: seq<int>): History {
    History(InitialState(shares), [], [], [], [])
  }

  // ---- events read off a transition ----

  lemma {:induction false} LeastExists(s: set<int>)
    requires s != {}
    ensures exists m :: m in s && forall x :: x in s ==> m <= x
  {
    if forall a: int :: a !in s {
      assert false;
    }
    var a :| a in s;
    var rest := s - {a};
    if rest == {} {
      assert forall x :: x in s ==> x == a || x in rest;
    } else {
      LeastExists(rest);
      var m :| m in rest && forall x :: x in rest ==> m <= x;
      var least := if a < m then a else m;
      assert least in s;
      forall x | x in s ensures least <= x {
        assert x == a || x in rest;
      }
    }
  }

  function Ascending(s: set<int>): seq<int> {
    if s == {} then [] else
      LeastExists(s);
      var m :| m in s && forall x :: x in s ==> m <= x;
      [m] + Ascending(s - {m})
  }

  function NewClaims(before: State, after: State): seq<int> {
    Ascending(after.claimedReceipts - before.claimedReceipts)
  }

  /** One event per receipt not known before, carrying the sequence its lease had then. */
  function NewAuthorizations(before: State, receipts: seq<Receipt>): seq<AuthorizationEvent> {
    if receipts == [] then [] else
      var r := receipts[|receipts| - 1];
      var lease := LeaseIndex(before.leases, r.lease);
      NewAuthorizations(before, receipts[..|receipts| - 1]) +
      if ReceiptIndex(before.receipts, r.id).Some? || lease.None? then []
      else [AuthorizationEvent(r.id, before.leases[lease.value].sequence, before.leases[lease.value].sequence)]
  }

  /** One event per transfer that went from prepared to accepted. */
  function NewInbound(before: State, transfers: seq<Transfer>): seq<InboundEvent> {
    if transfers == [] then [] else
      var t := transfers[|transfers| - 1];
      var previous := TransferIndex(before.transfers, t.id);
      NewInbound(before, transfers[..|transfers| - 1]) +
      if previous.Some? && before.transfers[previous.value].status.Prepared? && t.status.Accepted?
      then [InboundEvent(t.id, t.source, t.target, t.sequence, true)]
      else []
  }

  // ---- checkpoints ----

  /** The vouchers of one stream by sequence. */
  function StreamTable(transfers: seq<Transfer>, source: nat, target: nat): map<int, Transfer> {
    if transfers == [] then map[] else
      var t := transfers[|transfers| - 1];
      var table := StreamTable(transfers[..|transfers| - 1], source, target);
      if OnStream(t, source, target) then table[t.sequence := t] else table
  }

  function Above(table: map<int, Transfer>, through: int): set<int> {
    set q | q in table && through < q
  }

  predicate FinalizedAt(table: map<int, Transfer>, q: int) {
    q in table && table[q].status.Finalized?
  }

  /** The end of the finalized prefix that starts after `through`. */
  function FinalizedThrough(table: map<int, Transfer>, through: int): (r: int)
    ensures through <= r && !FinalizedAt(table, r + 1)
    ensures forall q :: through < q <= r ==> FinalizedAt(table, q)
    decreases Above(table, through)
  {
    if FinalizedAt(table, through + 1) then
      assert through + 1 in Above(table, through) && through + 1 !in Above(table, through + 1);
      FinalizedThrough(table, through + 1)
    else through
  }

  predicate OfStream(c: CheckpointEvent, source: nat, target: nat) {
    c.source == source && c.target == target
  }

  function LastCheckpoint(checkpoints: seq<CheckpointEvent>, source: nat, target: nat): (r: int)
    ensures 0 <= r
    ensures forall i :: 0 <= i < |checkpoints| && OfStream(checkpoints[i], source, target) ==>
      checkpoints[i].through <= r
  {
    if checkpoints == [] then 0 else
      var c := checkpoints[|checkpoints| - 1];
      var rest := LastCheckpoint(checkpoints[..|checkpoints| - 1], source, target);
      if OfStream(c, source, target) && rest < c.through then c.through else rest
  }

  /** The checkpoint loop, which terminates on every table and finds the whole finalized prefix. */
  method ScanPrefix(table: map<int, Transfer>) returns (through: int)
    ensures through == FinalizedThrough(table, 0)
  {
    through := 0;
    while through + 1 in table && table[through + 1].status.Finalized?
      invariant FinalizedThrough(table, through) == FinalizedThrough(table, 0)
      decreases Above(table, through)
    {
      assert through + 1 in Above(table, through) && through + 1 !in Above(table, through + 1);
      through := through + 1;
    }
  }

  function Record(h: History, m: Move): History {
    match m
    case CoreMove(a) =>
      var next := Step(h.core, a);
      if next.None? then h else
        History(next.value,
                h.claims + NewClaims(h.core, next.value),
                h.authorizations + NewAuthorizations(h.core, next.value.receipts),
                h.inbound + NewInbound(h.core, next.value.transfers),
                h.checkpoints)
    case CheckpointMove(source, target) =>
      var through := FinalizedThrough(StreamTable(h.core.transfers, source, target), 0);
      if LastCheckpoint(h.checkpoints, source, target) < through then
        h.(checkpoints := h.checkpoints + [CheckpointEvent(source, target, through)])
      else h
  }

  function Replay(h: History, moves: seq<Move>): History
    decreases |moves|
  {
    if moves == [] then h else Record(Replay(h, moves[..|moves| - 1]), moves[|moves| - 1])
  }

  // ---- steps only move forward ----

  predicate NoEarlier(a: Status, b: Status) {
    match a
    case Prepared => true
    case Accepted => !b.Prepared?
    case Finalized => b.Finalized?
  }

  predicate TransfersAdvance(ts: seq<Transfer>, us: seq<Transfer>) {
    && |ts| <= |us|
    && forall k :: 0 <= k < |ts| ==>
         us[k] == ts[k].(status := us[k].status) && NoEarlier(ts[k].status, us[k].status)
  }

  predicate LeasesAdvance(ls: seq<Lease>, ms: seq<Lease>) {
    && |ls| <= |ms|
    && forall i :: 0 <= i < |ls| ==>
         && ms[i].id == ls[i].id && ms[i].warden == ls[i].warden
         && ms[i].parent == ls[i].parent && ms[i].remote == ls[i].remote
         && ls[i].sequence <= ms[i].sequence && (ms[i].active ==> ls[i].active)
         && ms[i].residual <= ls[i].residual
  }

  ghost predicate Advances(s: State, t: State) {
    && LeasesAdvance(s.leases, t.leases)
    && TransfersAdvance(s.transfers, t.transfers)
    && s.receipts <= t.receipts
    && s.consumed <= t.consumed
    && s.claimedReceipts <= t.claimedReceipts
    && (forall lease :: Watermark(s, lease) <= Watermark(t, lease))
  }

  lemma {:induction false} AdvancesTransitive(s: State, t: State, u: State)
    requires Advances(s, t) && Advances(t, u)
    ensures Advances(s, u)
  {
    forall k | 0 <= k < |s.transfers| ensures u.transfers[k] == s.transfers[k].(status := u.transfers[k].status)
      && NoEarlier(s.transfers[k].status, u.transfers[k].status)
    {
      assert t.transfers[k] == s.transfers[k].(status := t.transfers[k].status);
    }
    forall i | 0 <= i < |s.leases| ensures u.leases[i].residual <= s.leases[i].residual {
      assert t.leases[i].residual <= s.leases[i].residual;
    }
  }

  lemma LeaseActionAdvances(s: State, budget: int, a: Action)
    requires Inv(s, budget) && Step(s, a).Some?
    requires a.SpawnAction? || a.SpawnRemoteAction? || a.AuthorizeAction? || a.CloseAction?
    ensures Advances(s, Step(s, a).value)
  {
    if a.CloseAction? {
      LookupLease(s, a.lease);
      var l := s.leases[a.lease - 1];
      ReplaceLeaseAt(s, a.lease - 1, l.(residual := 0, active := false, sequence := l.sequence + 1));
    } else {
      DebitAdvances(s, budget, a);
    }
  }

  lemma DebitAdvances(s: State, budget: int, a: Action)
    requires Inv(s, budget) && Step(s, a).Some?
    requires a.SpawnAction? || a.SpawnRemoteAction? || a.AuthorizeAction?
    ensures Advances(s, Step(s, a).value)
  {
    var id := if a.AuthorizeAction? then a.lease else a.parent;
    LookupLease(s, id);
    ReplaceLeaseAt(s, id - 1, Debited(s.leases[id - 1], if a.AuthorizeAction? then a.cost else a.amount));
  }

  lemma TransferActionAdvances(s: State, budget: int, a: Action)
    requires Inv(s, budget) && Step(s, a).Some?
    requires a.AcceptAction? || a.FinalizeAction?
    ensures Advances(s, Step(s, a).value)
  {
    if a.AcceptAction? {
      AcceptAdvances(s, budget, a.transfer);
    } else {
      FinalizeAdvances(s, budget, a.transfer);
    }
  }

  lemma AcceptAdvances(s: State, budget: int, id: int)
    requires Inv(s, budget) && AcceptTransfer(s, id).Some?
    ensures Advances(s, AcceptTransfer(s, id).value)
  {
    LookupTransfer(s, id);
    ReplaceTransferAt(s, id - 1, s.transfers[id - 1].(status := Accepted));
  }

  lemma FinalizeAdvances(s: State, budget: int, id: int)
    requires Inv(s, budget) && FinalizeTransfer(s, id).Some?
    ensures Advances(s, FinalizeTransfer(s, id).value)
  {
    LookupTransfer(s, id);
    ReplaceTransferAt(s, id - 1, s.transfers[id - 1].(status := Finalized));
  }

  lemma StepAdvances(s: State, budget: int, a: Action)
    requires Inv(s, budget)
    ensures Advances(s, After(s, a))
  {
    if Step(s, a).Some? {
      match a
      case AcceptAction(_) => TransferActionAdvances(s, budget, a);
      case FinalizeAction(_) => TransferActionAdvances(s, budget, a);
      case SpawnAction(_, _) => LeaseActionAdvances(s, budget, a);
      case SpawnRemoteAction(_, _, _) => LeaseActionAdvances(s, budget, a);
      case AuthorizeAction(_, _) => LeaseActionAdvances(s, budget, a);
      case CloseAction(_) => LeaseActionAdvances(s, budget, a);
      case ClaimAction(id) => ClaimAdvances(s, budget, id);
      case _ =>
    }
  }

  lemma ClaimAdvances(s: State, budget: int, id: int)
    requires Inv(s, budget) && ClaimReceipt(s, id).Some?
    ensures Advances(s, ClaimReceipt(s, id).value)
  {
    LookupReceipt(s, id);
    var t := ClaimReceipt(s, id).value;
    forall lease ensures Watermark(s, lease) <= Watermark(t, lease) {
    }
  }
}
