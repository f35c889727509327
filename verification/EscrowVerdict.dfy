/**
 * What it means that a validator accepts, for any state or history at all, reachable or not: a
 * statement about single leases, vouchers, receipts and events, with cardinalities for counts.
 */
module EscrowVerdict {
  import opened Common
  import opened Escrow
  import opened EscrowInvariant
  import opened EscrowValidate
  import opened EscrowHistory
  import opened EscrowGuarantees
  import opened EscrowLineage
  import opened EscrowSensitivity

  // ---- states ----

  /** Nothing is negative, and what is held, spent and in flight is the budget. */
  predicate Funds(s: State, budget: int) {
    && Sum(s.pools) + Sum(Residuals(s.leases)) + s.consumed + Sum(InFlight(s.transfers)) == budget
    && 0 <= s.consumed
    && (forall w :: 0 <= w < |s.pools| ==> 0 <= s.pools[w])
    && (forall i :: 0 <= i < |s.leases| ==> 0 <= s.leases[i].residual)
  }

  /** No two leases, vouchers or receipts can be mistaken for each other. */
  predicate ToldApart(s: State) {
    && (forall i, j :: 0 <= i < j < |s.leases| ==> s.leases[i].id != s.leases[j].id)
    && (forall i, j :: 0 <= i < j < |s.transfers| ==> s.transfers[i].id != s.transfers[j].id)
    && (forall i, j :: 0 <= i < j < |s.transfers| && OnStream(s.transfers[i], s.transfers[j].source, s.transfers[j].target) ==>
          s.transfers[i].sequence != s.transfers[j].sequence)
    && (forall i, j :: 0 <= i < j < |s.receipts| ==> s.receipts[i].id != s.receipts[j].id)
    && (forall i, j :: 0 <= i < j < |s.receipts| ==> s.receipts[i].nonce != s.receipts[j].nonce)
    && (forall i, j :: 0 <= i < j < |s.receipts| && s.receipts[i].lease == s.receipts[j].lease ==>
          s.receipts[i].sequence != s.receipts[j].sequence)
  }

  predicate IsParent(parent: Lease, l: Lease) {
    Some(parent.id) == l.parent && parent.id < l.id && (l.remote <==> parent.warden != l.warden)
  }

  /** A lease without a parent is at home; one with a parent names an older lease, at home exactly with it. */
  predicate Rooted(leases: seq<Lease>, i: nat)
    requires i < |leases|
  {
    if leases[i].parent.None? then !leases[i].remote
    else exists k :: 0 <= k < |leases| && IsParent(leases[k], leases[i])
  }

  predicate Lawful(t: Transfer) {
    t.source != t.target && 0 < t.amount && (t.kind == LeaseKind <==> t.parent != None)
  }

  function ChildrenAt(leases: seq<Lease>, parent: int, warden: nat): set<int> {
    set i | 0 <= i < |leases| && leases[i].remote && leases[i].parent == Some(parent) && leases[i].warden == warden
  }

  function RedeemedAt(transfers: seq<Transfer>, parent: int, warden: nat): set<int> {
    set k | 0 <= k < |transfers| && transfers[k].kind == LeaseKind && transfers[k].parent == Some(parent)
      && transfers[k].target == warden && transfers[k].status != Prepared
  }

  /** The claims name receipts, each by its id and its nonce. */
  predicate ClaimsBind(s: State) {
    && (forall id :: id in s.claimedReceipts ==> exists k :: 0 <= k < |s.receipts| && s.receipts[k].id == id)
    && (forall nonce :: nonce in s.claimedNonces ==> exists k :: 0 <= k < |s.receipts| && s.receipts[k].nonce == nonce)
    && (forall k :: 0 <= k < |s.receipts| ==> (s.receipts[k].id in s.claimedReceipts <==> s.receipts[k].nonce in s.claimedNonces))
  }

  /** A watermark is the highest sequence claimed on its lease, and not below zero. */
  ghost predicate MarksStand(s: State) {
    && (forall k :: 0 <= k < |s.receipts| && s.receipts[k].id in s.claimedReceipts ==>
          s.receipts[k].lease in s.watermarks && s.receipts[k].sequence <= s.watermarks[s.receipts[k].lease])
    && (forall lease :: lease in s.watermarks ==> 0 <= s.watermarks[lease] && ClaimedOn(s, lease, s.watermarks[lease]))
  }

  /** Some claim on the lease reaches `mark`; a mark of zero asks for any claim. */
  predicate ClaimedOn(s: State, lease: int, mark: int) {
    exists k :: 0 <= k < |s.receipts| && s.receipts[k].id in s.claimedReceipts && s.receipts[k].lease == lease
      && (mark == 0 || s.receipts[k].sequence == mark)
  }

  /** The lease that signed the receipt is at its warden and has got as far as its sequence. */
  predicate Signed(leases: seq<Lease>, r: Receipt) {
    exists i :: 0 <= i < |leases| && leases[i].id == r.lease && leases[i].warden == r.warden && leases[i].sequence >= r.sequence
  }

  ghost predicate Acceptable(s: State, budget: int) {
    && Funds(s, budget) && ToldApart(s)
    && (forall i :: 0 <= i < |s.leases| ==> Rooted(s.leases, i))
    && (forall k :: 0 <= k < |s.transfers| ==> Lawful(s.transfers[k]))
    && (forall p: int, w: nat :: |ChildrenAt(s.leases, p, w)| == |RedeemedAt(s.transfers, p, w)|)
    && ClaimsBind(s) && MarksStand(s)
    && (forall k :: 0 <= k < |s.receipts| ==> Signed(s.leases, s.receipts[k]))
  }

  // ---- counting ----

  lemma {:induction false} MarksCount(marks: seq<int>, marked: set<int>)
    requires forall i :: 0 <= i < |marks| ==> marks[i] == if i in marked then 1 else 0
    requires forall i :: i in marked ==> 0 <= i < |marks|
    ensures Sum(marks) == |marked|
  {
    if marks == [] {
      assert forall i :: i !in marked;
      assert marked == {};
    } else {
      var n := |marks| - 1;
      var fewer := marked - {n};
      MarksCount(marks[..n], fewer);
      assert n in marked ==> marked == fewer + {n};
      assert n !in marked ==> marked == fewer;
    }
  }

  lemma RemoteCounts(leases: seq<Lease>, transfers: seq<Transfer>, p: int, w: nat)
    ensures Sum(RemoteMarks(leases, p, w)) == |ChildrenAt(leases, p, w)|
    ensures Sum(VoucherMarks(transfers, p, w)) == |RedeemedAt(transfers, p, w)|
  {
    MarksCount(RemoteMarks(leases, p, w), ChildrenAt(leases, p, w));
    MarksCount(VoucherMarks(transfers, p, w), RedeemedAt(transfers, p, w));
  }

  lemma RemoteExactly(leases: seq<Lease>, transfers: seq<Transfer>)
    ensures RemoteMatch(leases, transfers) <==>
      forall p: int, w: nat :: |ChildrenAt(leases, p, w)| == |RedeemedAt(transfers, p, w)|
  {
    forall p: int, w: nat
      ensures Sum(RemoteMarks(leases, p, w)) == |ChildrenAt(leases, p, w)|
      ensures Sum(VoucherMarks(transfers, p, w)) == |RedeemedAt(transfers, p, w)|
    {
      RemoteCounts(leases, transfers, p, w);
    }
  }

  // ---- identities ----

  lemma LeasesApart(s: State)
    ensures Distinct(LeaseIds(s.leases)) <==> forall i, j :: 0 <= i < j < |s.leases| ==> s.leases[i].id != s.leases[j].id
  {
    var ids := LeaseIds(s.leases);
    assert forall i :: 0 <= i < |s.leases| ==> ids[i] == s.leases[i].id;
  }

  lemma TransfersApart(s: State)
    ensures Distinct(TransferIds(s.transfers)) <==>
      forall i, j :: 0 <= i < j < |s.transfers| ==> s.transfers[i].id != s.transfers[j].id
    ensures Distinct(StreamSequences(s.transfers)) <==>
      forall i, j :: 0 <= i < j < |s.transfers| && OnStream(s.transfers[i], s.transfers[j].source, s.transfers[j].target) ==>
        s.transfers[i].sequence != s.transfers[j].sequence
  {
    var ids, streams := TransferIds(s.transfers), StreamSequences(s.transfers);
    assert forall i :: 0 <= i < |s.transfers| ==> ids[i] == s.transfers[i].id;
    assert forall i :: 0 <= i < |s.transfers| ==>
      streams[i] == (s.transfers[i].source, s.transfers[i].target, s.transfers[i].sequence);
  }

  lemma ReceiptsApart(s: State)
    ensures Distinct(ReceiptIds(s.receipts)) <==> forall i, j :: 0 <= i < j < |s.receipts| ==> s.receipts[i].id != s.receipts[j].id
    ensures Distinct(Nonces(s.receipts)) <==> forall i, j :: 0 <= i < j < |s.receipts| ==> s.receipts[i].nonce != s.receipts[j].nonce
    ensures Distinct(LeaseSequences(s.receipts)) <==>
      forall i, j :: 0 <= i < j < |s.receipts| && s.receipts[i].lease == s.receipts[j].lease ==>
        s.receipts[i].sequence != s.receipts[j].sequence
  {
    var ids, nonces, sequences := ReceiptIds(s.receipts), Nonces(s.receipts), LeaseSequences(s.receipts);
    assert forall i :: 0 <= i < |s.receipts| ==> ids[i] == s.receipts[i].id && nonces[i] == s.receipts[i].nonce;
    assert forall i :: 0 <= i < |s.receipts| ==> sequences[i] == (s.receipts[i].lease, s.receipts[i].sequence);
  }

  lemma ApartExactly(s: State)
    ensures ToldApart(s) <==>
      (Distinct(LeaseIds(s.leases)) && Distinct(TransferIds(s.transfers)) && Distinct(StreamSequences(s.transfers))
       && Distinct(ReceiptIds(s.receipts)) && Distinct(Nonces(s.receipts)) && Distinct(LeaseSequences(s.receipts)))
  {
    LeasesApart(s);
    TransfersApart(s);
    ReceiptsApart(s);
  }

  lemma RootedExactly(s: State)
    ensures LineagePlaced(s.leases) <==> forall i :: 0 <= i < |s.leases| ==> Rooted(s.leases, i)
  {
    forall i | 0 <= i < |s.leases| ensures WellPlaced(s.leases, s.leases[i]) <==> Rooted(s.leases, i) {
      RootedOne(s.leases, i);
    }
  }

  lemma RootedOne(leases: seq<Lease>, i: nat)
    requires i < |leases|
    ensures WellPlaced(leases, leases[i]) <==> Rooted(leases, i)
  {
    if leases[i].parent.Some? {
      var l := leases[i];
      forall k | 0 <= k < |leases|
        ensures (leases[k].id == l.parent.value && leases[k].id < l.id && ((leases[k].warden != l.warden) == l.remote)) <==>
          IsParent(leases[k], l)
      {
      }
    }
  }

  lemma SignedExactly(s: State)
    ensures ReceiptsBacked(s) <==> forall k :: 0 <= k < |s.receipts| ==> Signed(s.leases, s.receipts[k])
  {
    forall k | 0 <= k < |s.receipts| ensures ReceiptBacked(s, s.receipts[k]) <==> Signed(s.leases, s.receipts[k]) {
      SignedOne(s, s.receipts[k]);
    }
  }

  lemma SignedOne(s: State, r: Receipt)
    ensures ReceiptBacked(s, r) <==> Signed(s.leases, r)
  {
    if ReceiptBacked(s, r) {
      var i :| 0 <= i < |s.leases| && s.leases[i].id == r.lease && s.leases[i].warden == r.warden && r.sequence <= s.leases[i].sequence;
      assert s.leases[i].sequence >= r.sequence;
    }
    if Signed(s.leases, r) {
      var i :| 0 <= i < |s.leases| && s.leases[i].id == r.lease && s.leases[i].warden == r.warden && s.leases[i].sequence >= r.sequence;
      assert r.sequence <= s.leases[i].sequence;
    }
  }

  // ---- claims ----

  lemma InElements(s: State)
    ensures forall id :: id in ElementSet(ReceiptIds(s.receipts)) <==> exists k :: 0 <= k < |s.receipts| && s.receipts[k].id == id
    ensures forall n :: n in ElementSet(Nonces(s.receipts)) <==> exists k :: 0 <= k < |s.receipts| && s.receipts[k].nonce == n
  {
    var ids, nonces := ReceiptIds(s.receipts), Nonces(s.receipts);
    forall k | 0 <= k < |s.receipts| ensures s.receipts[k].id in ElementSet(ids) && s.receipts[k].nonce in ElementSet(nonces) {
      assert ids[k] == s.receipts[k].id && nonces[k] == s.receipts[k].nonce;
    }
    forall id | id in ElementSet(ids) ensures exists k :: 0 <= k < |s.receipts| && s.receipts[k].id == id {
      var k :| 0 <= k < |ids| && ids[k] == id;
      assert s.receipts[k].id == id;
    }
    forall n | n in ElementSet(nonces) ensures exists k :: 0 <= k < |s.receipts| && s.receipts[k].nonce == n {
      var k :| 0 <= k < |nonces| && nonces[k] == n;
      assert s.receipts[k].nonce == n;
    }
  }

  lemma BindExactly(s: State)
    requires ToldApart(s)
    ensures ClaimsKnown(s) && s.claimedNonces == BoundNonces(s) <==> ClaimsBind(s)
  {
    InElements(s);
    if ClaimsKnown(s) && s.claimedNonces == BoundNonces(s) {
      forall k | 0 <= k < |s.receipts| && s.receipts[k].nonce in s.claimedNonces ensures s.receipts[k].id in s.claimedReceipts {
        var j :| 0 <= j < |s.receipts| && s.receipts[j].id in s.claimedReceipts && s.receipts[j].nonce == s.receipts[k].nonce;
        assert j == k;
      }
    }
    if ClaimsBind(s) {
      forall n ensures n in s.claimedNonces <==> n in BoundNonces(s) {
        if n in s.claimedNonces {
          var k :| 0 <= k < |s.receipts| && s.receipts[k].nonce == n;
          assert s.receipts[k].id in s.claimedReceipts;
        }
      }
      assert s.claimedNonces == BoundNonces(s);
      forall id | id in s.claimedReceipts ensures id in ElementSet(ReceiptIds(s.receipts)) {
        var k :| 0 <= k < |s.receipts| && s.receipts[k].id == id;
        assert ReceiptIds(s.receipts)[k] == id;
      }
      forall n | n in s.claimedNonces ensures n in ElementSet(Nonces(s.receipts)) {
        var k :| 0 <= k < |s.receipts| && s.receipts[k].nonce == n;
        assert Nonces(s.receipts)[k] == n;
      }
    }
  }

  lemma MarksExactly(s: State)
    ensures HighestClaimed(s, |s.receipts|, s.watermarks) <==> MarksStand(s)
  {
    forall lease | lease in s.watermarks
      ensures HighestReached(s, |s.receipts|, s.watermarks, lease) <==>
        (0 <= s.watermarks[lease] && ClaimedOn(s, lease, s.watermarks[lease]))
    {
    }
  }

  /** All checks hold, read as the checker reads them. */
  ghost predicate AllHold(s: State, budget: int) {
    && ConservedRights(s) == budget && Nonnegative(s)
    && (Distinct(LeaseIds(s.leases)) && Distinct(TransferIds(s.transfers)) && Distinct(StreamSequences(s.transfers))
        && Distinct(ReceiptIds(s.receipts)) && Distinct(Nonces(s.receipts)) && Distinct(LeaseSequences(s.receipts)))
    && LineagePlaced(s.leases) && (KindMatchesParent(s.transfers) && WellFormedTransfers(s.transfers))
    && RemoteMatch(s.leases, s.transfers) && (ClaimsKnown(s) && s.claimedNonces == BoundNonces(s))
    && HighestClaimed(s, |s.receipts|, s.watermarks) && ReceiptsBacked(s)
  }

  lemma NoneViolated(s: State, budget: int)
    ensures FirstViolation(s, budget) == None <==> AllHold(s, budget)
  {
  }

  lemma LawfulExactly(ts: seq<Transfer>)
    ensures (KindMatchesParent(ts) && WellFormedTransfers(ts)) <==> forall k :: 0 <= k < |ts| ==> Lawful(ts[k])
  {
  }

  /** The checker of states accepts exactly the acceptable ones, whatever state it is given. */
  lemma PassesExactlyWhen(s: State, budget: int)
    ensures FirstViolation(s, budget) == None <==> Acceptable(s, budget)
  {
    NoneViolated(s, budget);
    ApartExactly(s);
    RootedExactly(s);
    RemoteExactly(s.leases, s.transfers);
    MarksExactly(s);
    SignedExactly(s);
    LawfulExactly(s.transfers);
    if ToldApart(s) {
      BindExactly(s);
    }
  }

  // ---- histories ----

  /** An active lease hangs from an active one. */
  predicate HangsFromActive(leases: seq<Lease>) {
    forall i, k :: 0 <= i < |leases| && 0 <= k < |leases| && leases[i].active && leases[i].parent == Some(leases[k].id) ==>
      leases[k].active
  }

  predicate Accounted(transfers: seq<Transfer>, e: InboundEvent) {
    e.hasSourceVoucher && exists k :: 0 <= k < |transfers| && Backs(transfers[k], e)
  }

  predicate Backs(t: Transfer, e: InboundEvent) {
    t.id == e.transfer && OnStream(t, e.source, e.target) && t.sequence == e.sequence && t.status != Prepared
  }

  ghost predicate AcceptableHistory(h: History, budget: int) {
    && Acceptable(h.core, budget) && HangsFromActive(h.core.leases)
    && (forall i, j :: 0 <= i < j < |h.claims| ==> h.claims[i] != h.claims[j])
    && (forall i :: 0 <= i < |h.authorizations| ==> h.authorizations[i].expected == h.authorizations[i].prior)
    && (forall i :: 0 <= i < |h.inbound| ==> Accounted(h.core.transfers, h.inbound[i]))
    && (forall i :: 0 <= i < |h.checkpoints| ==> CheckpointHolds(h.core.transfers, h.checkpoints[i]))
  }

  /** Where ids differ, looking a lease up by its id finds it. */
  lemma KnownExactly(s: State, budget: int)
    requires Acceptable(s, budget)
    ensures forall i :: 0 <= i < |s.leases| ==> s.leases[i].id in KnownLeases(s.leases) && KnownLeases(s.leases)[s.leases[i].id] == s.leases[i]
  {
    LeasesApart(s);
    forall i | 0 <= i < |s.leases| ensures s.leases[i].id in KnownLeases(s.leases) && KnownLeases(s.leases)[s.leases[i].id] == s.leases[i] {
      KnownIsUnique(s.leases, i);
    }
  }

  predicate ParentActiveAt(known: map<int, Lease>, id: int) {
    id in known && known[id].active ==> ActiveAt(known, known[id].parent)
  }

  ghost predicate ParentsActive(known: map<int, Lease>) {
    forall id :: ParentActiveAt(known, id)
  }

  lemma {:induction false} ClimbsActive(known: map<int, Lease>, start: Option<int>, n: nat)
    requires ActiveAt(known, start) && ParentsActive(known)
    ensures ActiveAt(known, Climb(known, start, n))
  {
    if n > 0 {
      ClimbsActive(known, start, n - 1);
      var here := Climb(known, start, n - 1);
      assert here.Some? ==> ParentActiveAt(known, here.value);
    }
  }

  lemma ParentActive(s: State, budget: int, i: nat)
    requires Acceptable(s, budget) && HangsFromActive(s.leases) && i < |s.leases| && s.leases[i].active
    ensures ActiveAt(KnownLeases(s.leases), s.leases[i].parent)
  {
    KnownExactly(s, budget);
    assert Rooted(s.leases, i);
    if s.leases[i].parent.Some? {
      var k :| 0 <= k < |s.leases| && IsParent(s.leases[k], s.leases[i]);
      assert s.leases[k].active;
    }
  }

  lemma KnownActive(s: State, budget: int)
    requires Acceptable(s, budget) && HangsFromActive(s.leases)
    ensures ParentsActive(KnownLeases(s.leases))
  {
    var known := KnownLeases(s.leases);
    forall id ensures ParentActiveAt(known, id) {
      if id in known && known[id].active {
        var k :| 0 <= k < |s.leases| && s.leases[k] == known[id];
        ParentActive(s, budget, k);
      }
    }
  }

  lemma ActiveAncestors(s: State, budget: int, i: nat)
    requires Acceptable(s, budget) && HangsFromActive(s.leases) && i < |s.leases| && s.leases[i].active
    ensures AncestorsActive(KnownLeases(s.leases), s.leases[i])
  {
    var known := KnownLeases(s.leases);
    KnownActive(s, budget);
    ParentActive(s, budget, i);
    forall n: nat ensures ActiveAt(known, Climb(known, s.leases[i].parent, n)) {
      ClimbsActive(known, s.leases[i].parent, n);
    }
  }

  lemma AncestorsHang(s: State, budget: int, i: nat, k: nat)
    requires Acceptable(s, budget) && i < |s.leases| && k < |s.leases|
    requires s.leases[i].parent == Some(s.leases[k].id) && AncestorsActive(KnownLeases(s.leases), s.leases[i])
    ensures s.leases[k].active
  {
    KnownExactly(s, budget);
    assert ActiveAt(KnownLeases(s.leases), Climb(KnownLeases(s.leases), s.leases[i].parent, 0));
  }

  lemma AncestorsExactly(s: State, budget: int)
    requires Acceptable(s, budget)
    ensures AncestorsHold(s.leases) <==> HangsFromActive(s.leases)
  {
    if HangsFromActive(s.leases) {
      forall i | 0 <= i < |s.leases| && s.leases[i].active ensures AncestorsActive(KnownLeases(s.leases), s.leases[i]) {
        ActiveAncestors(s, budget, i);
      }
    } else {
      var i, k :| 0 <= i < |s.leases| && 0 <= k < |s.leases| && s.leases[i].active
        && s.leases[i].parent == Some(s.leases[k].id) && !s.leases[k].active;
      if AncestorsActive(KnownLeases(s.leases), s.leases[i]) {
        AncestorsHang(s, budget, i, k);
      }
    }
  }

  /** Where ids differ, the table of vouchers by id holds each of them. */
  lemma {:induction false} TableFinds(ts: seq<Transfer>, k: nat)
    requires k < |ts| && forall i, j :: 0 <= i < j < |ts| ==> ts[i].id != ts[j].id
    ensures ts[k].id in TransferTable(ts) && TransferTable(ts)[ts[k].id] == ts[k]
  {
    if k < |ts| - 1 {
      TableFinds(ts[..|ts| - 1], k);
    }
  }

  lemma {:induction false} TableListed(ts: seq<Transfer>, id: int)
    requires id in TransferTable(ts)
    ensures TransferTable(ts)[id] in ts && TransferTable(ts)[id].id == id
  {
    if ts[|ts| - 1].id != id {
      TableListed(ts[..|ts| - 1], id);
    }
  }

  lemma OriginExactly(ts: seq<Transfer>, e: InboundEvent)
    requires forall i, j :: 0 <= i < j < |ts| ==> ts[i].id != ts[j].id
    ensures Originates(TransferTable(ts), e) <==> Accounted(ts, e)
  {
    if Accounted(ts, e) {
      var k :| 0 <= k < |ts| && Backs(ts[k], e);
      TableFinds(ts, k);
    }
    if Originates(TransferTable(ts), e) {
      TableListed(ts, e.transfer);
      var k :| 0 <= k < |ts| && ts[k] == TransferTable(ts)[e.transfer];
    }
  }

  /** Where sequences differ on every stream, the table of a stream holds each of its vouchers. */
  lemma {:induction false} StreamFinds(ts: seq<Transfer>, source: nat, target: nat, k: nat)
    requires forall i, j :: 0 <= i < j < |ts| && OnStream(ts[i], ts[j].source, ts[j].target) ==> ts[i].sequence != ts[j].sequence
    requires k < |ts| && OnStream(ts[k], source, target)
    ensures ts[k].sequence in StreamTable(ts, source, target) && StreamTable(ts, source, target)[ts[k].sequence] == ts[k]
  {
    if k < |ts| - 1 {
      StreamFinds(ts[..|ts| - 1], source, target, k);
    }
  }

  lemma ContiguousExactly(ts: seq<Transfer>, c: CheckpointEvent)
    requires forall i, j :: 0 <= i < j < |ts| && OnStream(ts[i], ts[j].source, ts[j].target) ==> ts[i].sequence != ts[j].sequence
    ensures Contiguous(ts, c) <==> CheckpointHolds(ts, c)
  {
    forall q ensures FinalizedAt(StreamTable(ts, c.source, c.target), q) <==> FinalizedOnStream(ts, c.source, c.target, q) {
      FinalizedFound(ts, c, q);
    }
  }

  lemma FinalizedFound(ts: seq<Transfer>, c: CheckpointEvent, q: int)
    requires forall i, j :: 0 <= i < j < |ts| && OnStream(ts[i], ts[j].source, ts[j].target) ==> ts[i].sequence != ts[j].sequence
    ensures FinalizedAt(StreamTable(ts, c.source, c.target), q) <==> FinalizedOnStream(ts, c.source, c.target, q)
  {
    if FinalizedOnStream(ts, c.source, c.target, q) {
      var k :| 0 <= k < |ts| && OnStream(ts[k], c.source, c.target) && ts[k].sequence == q && ts[k].status.Finalized?;
      StreamFinds(ts, c.source, c.target, k);
    }
    if FinalizedAt(StreamTable(ts, c.source, c.target), q) {
      TableIsOnStream(ts, c.source, c.target, q);
      var k :| 0 <= k < |ts| && ts[k] == StreamTable(ts, c.source, c.target)[q];
    }
  }

  /** The validator of histories accepts exactly the acceptable ones, whatever history it is given. */
  lemma HistoryPassesExactlyWhen(h: History, budget: int)
    ensures FirstFailure(h, budget) == None <==> AcceptableHistory(h, budget)
  {
    PassesExactlyWhen(h.core, budget);
    if Acceptable(h.core, budget) {
      AncestorsExactly(h.core, budget);
      forall e: InboundEvent ensures Originates(TransferTable(h.core.transfers), e) <==> Accounted(h.core.transfers, e) {
        OriginExactly(h.core.transfers, e);
      }
      forall c: CheckpointEvent ensures Contiguous(h.core.transfers, c) <==> CheckpointHolds(h.core.transfers, c) {
        ContiguousExactly(h.core.transfers, c);
      }
    }
  }
}
