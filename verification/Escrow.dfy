/**
 * The distributed escrow model: wardens hold pools of rights, leases take rights
 * out of a pool or out of a parent lease, vouchers carry rights or a child lease
 * between wardens, and an executor claims receipts.  Every action is a partial
 * function on states; `None` is the source's "not enabled" error.
 */
module Escrow {
  import opened Common

  datatype Lease = Lease(
    id: int,
    warden: nat,
    parent: Option<int>,
    residual: int,
    active: bool,
    sequence: int,
    remote: bool)

  datatype Status = Prepared | Accepted | Finalized

  datatype Kind = PoolKind | LeaseKind

  datatype Transfer = Transfer(
    id: int,
    source: nat,
    target: nat,
    sequence: int,
    amount: int,
    status: Status,
    kind: Kind,
    parent: Option<int>)

  datatype Receipt = Receipt(id: int, lease: int, warden: nat, sequence: int, nonce: int)

  datatype State = State(
    pools: seq<int>,
    leases: seq<Lease>,
    consumed: int,
    transfers: seq<Transfer>,
    receipts: seq<Receipt>,
    claimedReceipts: set<int>,
    claimedNonces: set<int>,
    watermarks: map<int, int>,
    nextLease: int,
    nextTransfer: int,
    nextReceipt: int)

  function InitialState(shares: seq<int>): State {
    State(shares, [], 0, [], [], {}, {}, map[], 1, 1, 1)
  }

  // ---- lookup and replacement by identifier ----

  /** The position of the first lease carrying `id`, searching from position `from`. */
  function LeaseIndexFrom(leases: seq<Lease>, id: int, from: nat): (r: Option<nat>)
    requires from <= |leases|
    ensures r.Some? ==> from <= r.value < |leases| && leases[r.value].id == id
    ensures r.Some? ==> forall j :: from <= j < r.value ==> leases[j].id != id
    ensures r.None? ==> forall j :: from <= j < |leases| ==> leases[j].id != id
    decreases |leases| - from
  {
    if from == |leases| then None
    else if leases[from].id == id then Some(from)
    else LeaseIndexFrom(leases, id, from + 1)
  }

  function LeaseIndex(leases: seq<Lease>, id: int): (r: Option<nat>)
    ensures r.Some? ==> r.value < |leases| && leases[r.value].id == id
    ensures r.Some? ==> forall j :: 0 <= j < r.value ==> leases[j].id != id
    ensures r.None? ==> forall j :: 0 <= j < |leases| ==> leases[j].id != id
  {
    LeaseIndexFrom(leases, id, 0)
  }

  function TransferIndexFrom(transfers: seq<Transfer>, id: int, from: nat): (r: Option<nat>)
    requires from <= |transfers|
    ensures r.Some? ==> from <= r.value < |transfers| && transfers[r.value].id == id
    ensures r.Some? ==> forall j :: from <= j < r.value ==> transfers[j].id != id
    ensures r.None? ==> forall j :: from <= j < |transfers| ==> transfers[j].id != id
    decreases |transfers| - from
  {
    if from == |transfers| then None
    else if transfers[from].id == id then Some(from)
    else TransferIndexFrom(transfers, id, from + 1)
  }

  function TransferIndex(transfers: seq<Transfer>, id: int): (r: Option<nat>)
    ensures r.Some? ==> r.value < |transfers| && transfers[r.value].id == id
    ensures r.Some? ==> forall j :: 0 <= j < r.value ==> transfers[j].id != id
    ensures r.None? ==> forall j :: 0 <= j < |transfers| ==> transfers[j].id != id
  {
    TransferIndexFrom(transfers, id, 0)
  }

  function ReceiptIndexFrom(receipts: seq<Receipt>, id: int, from: nat): (r: Option<nat>)
    requires from <= |receipts|
    ensures r.Some? ==> from <= r.value < |receipts| && receipts[r.value].id == id
    ensures r.Some? ==> forall j :: from <= j < r.value ==> receipts[j].id != id
    ensures r.None? ==> forall j :: from <= j < |receipts| ==> receipts[j].id != id
    decreases |receipts| - from
  {
    if from == |receipts| then None
    else if receipts[from].id == id then Some(from)
    else ReceiptIndexFrom(receipts, id, from + 1)
  }

  function ReceiptIndex(receipts: seq<Receipt>, id: int): (r: Option<nat>)
    ensures r.Some? ==> r.value < |receipts| && receipts[r.value].id == id
    ensures r.Some? ==> forall j :: 0 <= j < r.value ==> receipts[j].id != id
    ensures r.None? ==> forall j :: 0 <= j < |receipts| ==> receipts[j].id != id
  {
    ReceiptIndexFrom(receipts, id, 0)
  }

  function ReplaceLease(leases: seq<Lease>, changed: Lease): seq<Lease> {
    seq(|leases|, i requires 0 <= i < |leases| =>
      if leases[i].id == changed.id then changed else leases[i])
  }

  function ReplaceTransfer(transfers: seq<Transfer>, changed: Transfer): seq<Transfer> {
    seq(|transfers|, i requires 0 <= i < |transfers| =>
      if transfers[i].id == changed.id then changed else transfers[i])
  }

  function Watermark(s: State, lease: int): int {
    if lease in s.watermarks then s.watermarks[lease] else 0
  }

  /** One more than the highest sequence used on the stream from `source` to `target`. */
  function NextStreamSequence(transfers: seq<Transfer>, source: nat, target: nat): int {
    MaxStreamSequence(transfers, source, target) + 1
  }

  predicate OnStream(t: Transfer, source: nat, target: nat) {
    t.source == source && t.target == target
  }

  function MaxStreamSequence(transfers: seq<Transfer>, source: nat, target: nat): int {
    if transfers == [] then 0 else
      var last := transfers[|transfers| - 1];
      var rest := MaxStreamSequence(transfers[..|transfers| - 1], source, target);
      if !OnStream(last, source, target) then rest
      else if NoneOnStream(transfers[..|transfers| - 1], source, target) then last.sequence
      else if rest < last.sequence then last.sequence
      else rest
  }

  predicate NoneOnStream(transfers: seq<Transfer>, source: nat, target: nat) {
    forall i :: 0 <= i < |transfers| ==> !OnStream(transfers[i], source, target)
  }

  predicate PendingRemoteChild(transfers: seq<Transfer>, parent: int) {
    exists i :: 0 <= i < |transfers| && transfers[i].kind.LeaseKind?
      && transfers[i].parent == Some(parent) && transfers[i].status.Prepared?
  }

  predicate LiveChild(leases: seq<Lease>, parent: int) {
    exists i :: 0 <= i < |leases| && leases[i].parent == Some(parent) && leases[i].active
  }

  // ---- the nine actions ----

  function IssueRoot(s: State, warden: nat, amount: int): Option<State> {
    if warden >= |s.pools| || amount <= 0 || s.pools[warden] < amount then None
    else
      Some(s.(pools := s.pools[warden := s.pools[warden] - amount],
              leases := s.leases + [Lease(s.nextLease, warden, None, amount, true, 0, false)],
              nextLease := s.nextLease + 1))
  }

  function Spawn(s: State, parentId: int, amount: int): Option<State> {
    var index := LeaseIndex(s.leases, parentId);
    if index.None? then None else
      var parent := s.leases[index.value];
      if !parent.active || amount <= 0 || parent.residual < amount then None
      else
        var changed := parent.(residual := parent.residual - amount, sequence := parent.sequence + 1);
        var child := Lease(s.nextLease, parent.warden, Some(parent.id), amount, true, 0, false);
        Some(s.(leases := ReplaceLease(s.leases, changed) + [child], nextLease := s.nextLease + 1))
  }

  function SpawnRemote(s: State, parentId: int, target: nat, amount: int): Option<State> {
    var index := LeaseIndex(s.leases, parentId);
    if index.None? then None else
      var parent := s.leases[index.value];
      if !parent.active || amount <= 0 || parent.residual < amount
         || target == parent.warden || target >= |s.pools| then None
      else
        var changed := parent.(residual := parent.residual - amount, sequence := parent.sequence + 1);
        var transfer := Transfer(s.nextTransfer, parent.warden, target,
                                 NextStreamSequence(s.transfers, parent.warden, target),
                                 amount, Prepared, LeaseKind, Some(parent.id));
        Some(s.(leases := ReplaceLease(s.leases, changed),
                transfers := s.transfers + [transfer],
                nextTransfer := s.nextTransfer + 1))
  }

  function Authorize(s: State, leaseId: int, cost: int): Option<State> {
    var index := LeaseIndex(s.leases, leaseId);
    if index.None? then None else
      var lease := s.leases[index.value];
      if !lease.active || cost <= 0 || lease.residual < cost then None
      else
        var changed := lease.(residual := lease.residual - cost, sequence := lease.sequence + 1);
        var receipt := Receipt(s.nextReceipt, lease.id, lease.warden, lease.sequence + 1, s.nextReceipt);
        Some(s.(leases := ReplaceLease(s.leases, changed),
                consumed := s.consumed + cost,
                receipts := s.receipts + [receipt],
                nextReceipt := s.nextReceipt + 1))
  }

  function CloseLease(s: State, leaseId: int): Option<State> {
    var index := LeaseIndex(s.leases, leaseId);
    if index.None? then None else
      var lease := s.leases[index.value];
      if !lease.active || LiveChild(s.leases, leaseId) || PendingRemoteChild(s.transfers, leaseId)
         || lease.warden >= |s.pools| then None
      else
        var changed := lease.(residual := 0, active := false, sequence := lease.sequence + 1);
        Some(s.(pools := s.pools[lease.warden := s.pools[lease.warden] + lease.residual],
                leases := ReplaceLease(s.leases, changed)))
  }

  /** The target is not range-checked here, as in the source; acceptance is. */
  function PrepareTransfer(s: State, source: nat, target: nat, amount: int): Option<State> {
    if source == target || amount <= 0 || source >= |s.pools| || s.pools[source] < amount then None
    else
      var transfer := Transfer(s.nextTransfer, source, target,
                               NextStreamSequence(s.transfers, source, target),
                               amount, Prepared, PoolKind, None);
      Some(s.(pools := s.pools[source := s.pools[source] - amount],
              transfers := s.transfers + [transfer],
              nextTransfer := s.nextTransfer + 1))
  }

  function AcceptTransfer(s: State, transferId: int): Option<State> {
    var index := TransferIndex(s.transfers, transferId);
    if index.None? then None else
      var transfer := s.transfers[index.value];
      if !transfer.status.Prepared? then Some(s)
      else
        var transfers := ReplaceTransfer(s.transfers, transfer.(status := Accepted));
        if transfer.kind.LeaseKind? then
          var child := Lease(s.nextLease, transfer.target, transfer.parent, transfer.amount, true, 0, true);
          Some(s.(leases := s.leases + [child], transfers := transfers, nextLease := s.nextLease + 1))
        else if transfer.target >= |s.pools| then None
        else
          var credited := s.pools[transfer.target] + transfer.amount;
          Some(s.(pools := s.pools[transfer.target := credited], transfers := transfers))
  }

  function FinalizeTransfer(s: State, transferId: int): Option<State> {
    var index := TransferIndex(s.transfers, transferId);
    if index.None? then None else
      var transfer := s.transfers[index.value];
      if transfer.status.Finalized? then Some(s)
      else if !transfer.status.Accepted? then None
      else Some(s.(transfers := ReplaceTransfer(s.transfers, transfer.(status := Finalized))))
  }

  function ClaimReceipt(s: State, receiptId: int): Option<State> {
    var index := ReceiptIndex(s.receipts, receiptId);
    if index.None? then None else
      var receipt := s.receipts[index.value];
      if receipt.id in s.claimedReceipts || receipt.nonce in s.claimedNonces then Some(s)
      else if receipt.sequence <= Watermark(s, receipt.lease) then Some(s)
      else Some(s.(claimedReceipts := s.claimedReceipts + {receipt.id},
                   claimedNonces := s.claimedNonces + {receipt.nonce},
                   watermarks := s.watermarks[receipt.lease := receipt.sequence]))
  }

  datatype Action =
    | IssueRootAction(warden: nat, amount: int)
    | SpawnAction(parent: int, amount: int)
    | SpawnRemoteAction(parent: int, target: nat, amount: int)
    | AuthorizeAction(lease: int, cost: int)
    | CloseAction(lease: int)
    | PrepareAction(source: nat, target: nat, amount: int)
    | AcceptAction(transfer: int)
    | FinalizeAction(transfer: int)
    | ClaimAction(receipt: int)

  function Step(s: State, a: Action): Option<State> {
    match a
    case IssueRootAction(warden, amount) => IssueRoot(s, warden, amount)
    case SpawnAction(parent, amount) => Spawn(s, parent, amount)
    case SpawnRemoteAction(parent, target, amount) => SpawnRemote(s, parent, target, amount)
    case AuthorizeAction(lease, cost) => Authorize(s, lease, cost)
    case CloseAction(lease) => CloseLease(s, lease)
    case PrepareAction(source, target, amount) => PrepareTransfer(s, source, target, amount)
    case AcceptAction(transfer) => AcceptTransfer(s, transfer)
    case FinalizeAction(transfer) => FinalizeTransfer(s, transfer)
    case ClaimAction(receipt) => ClaimReceipt(s, receipt)
  }

  /** A call that raises leaves the state it was made in. */
  function After(s: State, a: Action): State {
    var next := Step(s, a);
    if next.Some? then next.value else s
  }

  /** The state after a whole run, any interleaving of calls in any order. */
  function Run(s: State, actions: seq<Action>): State
    decreases |actions|
  {
    if actions == [] then s else After(Run(s, actions[..|actions| - 1]), actions[|actions| - 1])
  }

  // ---- rights ----

  function Residuals(leases: seq<Lease>): seq<int> {
    seq(|leases|, i requires 0 <= i < |leases| => leases[i].residual)
  }

  function InFlight(transfers: seq<Transfer>): seq<int> {
    seq(|transfers|, i requires 0 <= i < |transfers| =>
      if transfers[i].status.Prepared? then transfers[i].amount else 0)
  }

  function ConservedRights(s: State): int {
    Sum(s.pools) + Sum(Residuals(s.leases)) + s.consumed + Sum(InFlight(s.transfers))
  }
}
