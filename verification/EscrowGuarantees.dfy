/**
 * What every history guarantees: receipts are claimed at most once and in rising order, every
 * accepted voucher is credited exactly once, and checkpoints are finalized prefixes for ever.
 */
module EscrowGuarantees {
  import opened Common
  import opened Escrow
  import opened EscrowInvariant
  import opened EscrowHistory
  import EscrowValidate

  // ---- the invariant of histories ----

  ghost predicate ClaimsRecorded(core: State, claims: seq<int>) {
    && Distinct(claims)
    && ClaimsIssued(core.receipts, claims)
    && (forall i :: 0 <= i < |claims| ==> claims[i] in core.claimedReceipts)
    && (forall id :: id in core.claimedReceipts ==> id in claims)
    && RisingClaims(core.receipts, claims)
  }

  predicate ClaimsIssued(receipts: seq<Receipt>, claims: seq<int>) {
    forall i :: 0 <= i < |claims| ==> 1 <= claims[i] <= |receipts|
  }

  /** Claims on one lease come in strictly rising sequence. */
  predicate RisingClaims(receipts: seq<Receipt>, claims: seq<int>)
    requires ClaimsIssued(receipts, claims)
  {
    forall i, j :: 0 <= i < j < |claims| ==> Rising(receipts[claims[i] - 1], receipts[claims[j] - 1])
  }

  predicate Rising(r: Receipt, q: Receipt) {
    r.lease == q.lease ==> r.sequence < q.sequence
  }

  /** Every authorization was made at the sequence its lease had, and advanced it by one. */
  predicate AuthorizationsRecorded(receipts: seq<Receipt>, events: seq<AuthorizationEvent>) {
    && |events| == |receipts|
    && forall k :: 0 <= k < |receipts| ==>
         events[k] == AuthorizationEvent(receipts[k].id, receipts[k].sequence - 1, receipts[k].sequence - 1)
  }

  predicate InboundAt(transfers: seq<Transfer>, e: InboundEvent) {
    && 1 <= e.transfer <= |transfers|
    && var t := transfers[e.transfer - 1];
       e == InboundEvent(t.id, t.source, t.target, t.sequence, true) && !t.status.Prepared?
  }

  predicate CreditedBy(events: seq<InboundEvent>, id: int) {
    exists i :: 0 <= i < |events| && events[i].transfer == id
  }

  /** Every accepted voucher has exactly one inbound credit; a prepared one has none. */
  predicate InboundRecorded(transfers: seq<Transfer>, events: seq<InboundEvent>) {
    && (forall i :: 0 <= i < |events| ==> InboundAt(transfers, events[i]))
    && (forall i, j :: 0 <= i < j < |events| ==> events[i].transfer != events[j].transfer)
    && (forall k :: 0 <= k < |transfers| && !transfers[k].status.Prepared? ==> CreditedBy(events, transfers[k].id))
  }

  predicate FinalizedOnStream(transfers: seq<Transfer>, source: nat, target: nat, q: int) {
    exists k :: 0 <= k < |transfers| && OnStream(transfers[k], source, target)
      && transfers[k].sequence == q && transfers[k].status.Finalized?
  }

  predicate CheckpointHolds(transfers: seq<Transfer>, c: CheckpointEvent) {
    forall q :: 1 <= q <= c.through ==> FinalizedOnStream(transfers, c.source, c.target, q)
  }

  /** On the same stream, the later checkpoint reaches strictly further. */
  predicate Further(earlier: CheckpointEvent, later: CheckpointEvent) {
    OfStream(later, earlier.source, earlier.target) ==> earlier.through < later.through
  }

  predicate CheckpointsRecorded(transfers: seq<Transfer>, checkpoints: seq<CheckpointEvent>) {
    && (forall i :: 0 <= i < |checkpoints| ==> CheckpointHolds(transfers, checkpoints[i]))
    && (forall i :: 0 <= i < |checkpoints| ==> 0 < checkpoints[i].through)
    && (forall i, j :: 0 <= i < j < |checkpoints| ==> Further(checkpoints[i], checkpoints[j]))
  }

  ghost predicate Recorded(h: History, budget: int) {
    && Inv(h.core, budget)
    && ClaimsRecorded(h.core, h.claims)
    && AuthorizationsRecorded(h.core.receipts, h.authorizations)
    && InboundRecorded(h.core.transfers, h.inbound)
    && CheckpointsRecorded(h.core.transfers, h.checkpoints)
  }

  // ---- claims ----

  lemma NoNewClaims(s: State, after: State, claims: seq<int>)
    requires ClaimsRecorded(s, claims)
    requires after.claimedReceipts == s.claimedReceipts && s.receipts <= after.receipts
    ensures NewClaims(s, after) == []
    ensures ClaimsRecorded(after, claims + NewClaims(s, after))
  {
    assert after.claimedReceipts - s.claimedReceipts == {};
    assert claims + [] == claims;
    forall i, j | 0 <= i < j < |claims|
      ensures Rising(after.receipts[claims[i] - 1], after.receipts[claims[j] - 1])
    {
      assert Rising(s.receipts[claims[i] - 1], s.receipts[claims[j] - 1]);
    }
  }

  lemma OneClaim(id: int)
    ensures Ascending({id}) == [id]
  {
    var s := {id};
    LeastExists(s);
    var m :| m in s && forall x :: x in s ==> m <= x;
    assert m == id;
    assert s - {id} == {};
  }

  lemma ClaimRecorded(s: State, id: int, claims: seq<int>)
    requires Identified(s) && Claimed(s) && ClaimsRecorded(s, claims) && ClaimReceipt(s, id).Some?
    ensures ClaimsRecorded(ClaimReceipt(s, id).value, claims + NewClaims(s, ClaimReceipt(s, id).value))
  {
    var after := ClaimReceipt(s, id).value;
    if after.claimedReceipts == s.claimedReceipts {
      NoNewClaims(s, after, claims);
    } else {
      LookupReceipt(s, id);
      assert after.claimedReceipts - s.claimedReceipts == {id};
      OneClaim(id);
      ClaimAppended(s, after, id, claims);
    }
  }

  lemma RisingGrows(receipts: seq<Receipt>, claims: seq<int>, id: int)
    requires ClaimsIssued(receipts, claims) && RisingClaims(receipts, claims) && 1 <= id <= |receipts|
    requires forall i :: 0 <= i < |claims| ==> Rising(receipts[claims[i] - 1], receipts[id - 1])
    ensures ClaimsIssued(receipts, claims + [id]) && RisingClaims(receipts, claims + [id])
  {
    var grown := claims + [id];
    forall i, j | 0 <= i < j < |grown| ensures Rising(receipts[grown[i] - 1], receipts[grown[j] - 1]) {
      if j < |claims| {
        assert Rising(receipts[claims[i] - 1], receipts[claims[j] - 1]);
      }
    }
  }

  lemma ClaimAppended(s: State, after: State, id: int, claims: seq<int>)
    requires Identified(s) && Claimed(s) && ClaimsRecorded(s, claims)
    requires 1 <= id <= |s.receipts| && id !in s.claimedReceipts
    requires Watermark(s, s.receipts[id - 1].lease) < s.receipts[id - 1].sequence
    requires after.receipts == s.receipts && after.claimedReceipts == s.claimedReceipts + {id}
    ensures ClaimsRecorded(after, claims + [id])
  {
    var grown := claims + [id];
    forall i | 0 <= i < |claims| ensures Rising(s.receipts[claims[i] - 1], s.receipts[id - 1]) {
      assert ClaimedBelow(s, claims[i] - 1);
    }
    RisingGrows(s.receipts, claims, id);
    assert grown[|claims|] == id;
    forall x | x in after.claimedReceipts ensures x in grown {
      assert x == id || x in claims;
    }
  }

  // ---- authorizations ----

  lemma {:induction false} KnownReceipts(s: State, rs: seq<Receipt>)
    requires Identified(s) && rs <= s.receipts
    ensures NewAuthorizations(s, rs) == []
  {
    if rs != [] {
      var n := |rs| - 1;
      KnownReceipts(s, rs[..n]);
      assert s.receipts[n].id == rs[n].id;
    }
  }

  lemma AuthorizationAppended(s: State, id: int, cost: int, events: seq<AuthorizationEvent>)
    requires Identified(s) && Authorize(s, id, cost).Some? && AuthorizationsRecorded(s.receipts, events)
    ensures var receipts := Authorize(s, id, cost).value.receipts;
      AuthorizationsRecorded(receipts, events + NewAuthorizations(s, receipts))
  {
    KnownReceipts(s, s.receipts);
    var receipts := Authorize(s, id, cost).value.receipts;
    LookupLease(s, id);
    assert receipts[..|receipts| - 1] == s.receipts;
    LookupReceipt(s, s.nextReceipt);
    var prior := s.leases[id - 1].sequence;
    assert NewAuthorizations(s, receipts) == [AuthorizationEvent(s.nextReceipt, prior, prior)];
  }

  lemma AuthorizationRecorded(s: State, a: Action, events: seq<AuthorizationEvent>)
    requires Identified(s) && Step(s, a).Some? && AuthorizationsRecorded(s.receipts, events)
    ensures AuthorizationsRecorded(Step(s, a).value.receipts, events + NewAuthorizations(s, Step(s, a).value.receipts))
  {
    if a.AuthorizeAction? {
      AuthorizationAppended(s, a.lease, a.cost, events);
    } else {
      KnownReceipts(s, s.receipts);
      assert Step(s, a).value.receipts == s.receipts;
      assert events + [] == events;
    }
  }

  // ---- inbound credits ----

  predicate Arrives(before: seq<Transfer>, after: seq<Transfer>, k: int)
    requires 0 <= k < |after|
  {
    k < |before| && before[k].status.Prepared? && after[k].status.Accepted?
  }

  lemma {:induction false} NoArrivals(s: State, us: seq<Transfer>)
    requires Identified(s) && forall k :: 0 <= k < |us| ==> us[k].id == k + 1
    requires forall k :: 0 <= k < |us| ==> !Arrives(s.transfers, us, k)
    ensures NewInbound(s, us) == []
  {
    if us != [] {
      var n := |us| - 1;
      forall k | 0 <= k < n ensures !Arrives(s.transfers, us[..n], k) {
        assert !Arrives(s.transfers, us, k);
      }
      NoArrivals(s, us[..n]);
      LookupTransfer(s, n + 1);
      assert !Arrives(s.transfers, us, n);
    }
  }

  lemma {:induction false} OneArrival(s: State, us: seq<Transfer>, k: nat)
    requires Identified(s) && forall j :: 0 <= j < |us| ==> us[j].id == j + 1
    requires k < |us| && forall j :: 0 <= j < |us| ==> (Arrives(s.transfers, us, j) <==> j == k)
    ensures NewInbound(s, us) == [InboundEvent(us[k].id, us[k].source, us[k].target, us[k].sequence, true)]
  {
    var n := |us| - 1;
    LookupTransfer(s, n + 1);
    forall j | 0 <= j < n ensures Arrives(s.transfers, us[..n], j) <==> j == k {
      assert Arrives(s.transfers, us, j) <==> j == k;
    }
    assert Arrives(s.transfers, us, n) <==> n == k;
    if k == n {
      NoArrivals(s, us[..n]);
    } else {
      OneArrival(s, us[..n], k);
    }
  }

  /** Existing credits survive a step that only moves vouchers forward. */
  lemma CreditsSurvive(ts: seq<Transfer>, us: seq<Transfer>, events: seq<InboundEvent>)
    requires InboundRecorded(ts, events) && TransfersAdvance(ts, us)
    ensures forall i :: 0 <= i < |events| ==> InboundAt(us, events[i])
  {
    forall i | 0 <= i < |events| ensures InboundAt(us, events[i]) {
      assert InboundAt(ts, events[i]);
    }
  }

  lemma InboundFrame(s: State, after: State, budget: int, events: seq<InboundEvent>)
    requires Inv(s, budget) && Inv(after, budget)
    requires InboundRecorded(s.transfers, events) && TransfersAdvance(s.transfers, after.transfers)
    requires forall k :: 0 <= k < |s.transfers| && s.transfers[k].status.Prepared? ==> after.transfers[k].status.Prepared?
    requires forall k :: |s.transfers| <= k < |after.transfers| ==> after.transfers[k].status.Prepared?
    ensures NewInbound(s, after.transfers) == []
    ensures InboundRecorded(after.transfers, events + NewInbound(s, after.transfers))
  {
    NoArrivals(s, after.transfers);
    CreditsSurvive(s.transfers, after.transfers, events);
    assert events + [] == events;
    forall k | 0 <= k < |after.transfers| && !after.transfers[k].status.Prepared?
      ensures CreditedBy(events, after.transfers[k].id)
    {
      assert !s.transfers[k].status.Prepared?;
      assert CreditedBy(events, s.transfers[k].id);
    }
  }

  lemma ArrivalRecorded(s: State, budget: int, id: int, events: seq<InboundEvent>)
    requires Inv(s, budget) && AcceptTransfer(s, id).Some? && 1 <= id <= |s.transfers|
    requires s.transfers[id - 1].status.Prepared? && InboundRecorded(s.transfers, events)
    ensures var us := AcceptTransfer(s, id).value.transfers;
      InboundRecorded(us, events + NewInbound(s, us))
  {
    ArrivalTable(s, id);
    var us := AcceptTransfer(s, id).value.transfers;
    OneArrival(s, us, id - 1);
    ArrivalCredited(s, us, id, events);
  }

  lemma ArrivalTable(s: State, id: int)
    requires Identified(s) && AcceptTransfer(s, id).Some? && 1 <= id <= |s.transfers|
    requires s.transfers[id - 1].status.Prepared?
    ensures AcceptTransfer(s, id).value.transfers ==
      s.transfers[id - 1 := s.transfers[id - 1].(status := Accepted)]
  {
    LookupTransfer(s, id);
    ReplaceTransferAt(s, id - 1, s.transfers[id - 1].(status := Accepted));
  }

  lemma ArrivalCredited(s: State, us: seq<Transfer>, id: int, events: seq<InboundEvent>)
    requires Identified(s) && InboundRecorded(s.transfers, events)
    requires 1 <= id <= |s.transfers| && s.transfers[id - 1].status.Prepared?
    requires us == s.transfers[id - 1 := s.transfers[id - 1].(status := Accepted)]
    ensures var t := s.transfers[id - 1];
      InboundRecorded(us, events + [InboundEvent(id, t.source, t.target, t.sequence, true)])
  {
    var k, t := id - 1, s.transfers[id - 1];
    CreditsSurvive(s.transfers, us, events);
    var e := InboundEvent(id, t.source, t.target, t.sequence, true);
    var grown := events + [e];
    assert InboundAt(us, e);
    forall i | 0 <= i < |events| ensures events[i].transfer != id {
      assert InboundAt(s.transfers, events[i]);
    }
    forall j | 0 <= j < |us| && !us[j].status.Prepared? ensures CreditedBy(grown, us[j].id) {
      CreditCarried(s.transfers, events, grown, j, k);
    }
  }

  lemma CreditCarried(ts: seq<Transfer>, events: seq<InboundEvent>, grown: seq<InboundEvent>, j: nat, k: nat)
    requires InboundRecorded(ts, events) && events <= grown && j < |ts| && k < |ts|
    requires forall i :: 0 <= i < |ts| ==> ts[i].id == i + 1
    requires |grown| == |events| + 1 && grown[|events|].transfer == k + 1
    requires j != k ==> !ts[j].status.Prepared?
    ensures CreditedBy(grown, j + 1)
  {
    if j == k {
      assert grown[|events|].transfer == j + 1;
    } else {
      assert CreditedBy(events, ts[j].id);
      var i :| 0 <= i < |events| && events[i].transfer == ts[j].id;
      assert grown[i].transfer == j + 1;
    }
  }

  lemma CreditRecorded(s: State, budget: int, a: Action, events: seq<InboundEvent>)
    requires Inv(s, budget) && Step(s, a).Some? && InboundRecorded(s.transfers, events)
    ensures var us := Step(s, a).value.transfers; InboundRecorded(us, events + NewInbound(s, us))
  {
    var after := Step(s, a).value;
    StepKeeps(s, budget, a);
    StepAdvances(s, budget, a);
    if a.AcceptAction? {
      LookupTransfer(s, a.transfer);
      if s.transfers[a.transfer - 1].status.Prepared? {
        ArrivalRecorded(s, budget, a.transfer, events);
        return;
      }
    }
    NothingArrives(s, a);
    InboundFrame(s, after, budget, events);
  }

  /** Only accepting a prepared voucher takes one out of the prepared state. */
  lemma NothingArrives(s: State, a: Action)
    requires Identified(s) && Step(s, a).Some?
    requires a.AcceptAction? ==> 1 <= a.transfer <= |s.transfers| && !s.transfers[a.transfer - 1].status.Prepared?
    ensures var ts, us := s.transfers, Step(s, a).value.transfers;
      |ts| <= |us|
      && (forall k :: 0 <= k < |ts| && ts[k].status.Prepared? ==> us[k].status.Prepared?)
      && (forall k :: |ts| <= k < |us| ==> us[k].status.Prepared?)
  {
    if a.AcceptAction? {
      LookupTransfer(s, a.transfer);
    }
    if a.FinalizeAction? {
      LookupTransfer(s, a.transfer);
      var t := s.transfers[a.transfer - 1];
      ReplaceTransferAt(s, a.transfer - 1, t.(status := Finalized));
    }
  }

  // ---- checkpoints ----

  lemma FinalizedSurvives(ts: seq<Transfer>, us: seq<Transfer>, c: CheckpointEvent)
    requires TransfersAdvance(ts, us) && CheckpointHolds(ts, c)
    ensures CheckpointHolds(us, c)
  {
    forall q | 1 <= q <= c.through ensures FinalizedOnStream(us, c.source, c.target, q) {
      assert FinalizedOnStream(ts, c.source, c.target, q);
      var k :| 0 <= k < |ts| && OnStream(ts[k], c.source, c.target)
        && ts[k].sequence == q && ts[k].status.Finalized?;
      assert OnStream(us[k], c.source, c.target);
    }
  }

  lemma CheckpointsSurvive(ts: seq<Transfer>, us: seq<Transfer>, checkpoints: seq<CheckpointEvent>)
    requires TransfersAdvance(ts, us) && CheckpointsRecorded(ts, checkpoints)
    ensures CheckpointsRecorded(us, checkpoints)
  {
    forall i | 0 <= i < |checkpoints| ensures CheckpointHolds(us, checkpoints[i]) {
      FinalizedSurvives(ts, us, checkpoints[i]);
    }
  }

  lemma {:induction false} TableIsOnStream(ts: seq<Transfer>, source: nat, target: nat, q: int)
    requires q in StreamTable(ts, source, target)
    ensures StreamTable(ts, source, target)[q] in ts
    ensures var t := StreamTable(ts, source, target)[q]; OnStream(t, source, target) && t.sequence == q
  {
    var n := |ts| - 1;
    if !(OnStream(ts[n], source, target) && ts[n].sequence == q) {
      TableIsOnStream(ts[..n], source, target, q);
    }
  }

  lemma CheckpointTaken(h: History, budget: int, source: nat, target: nat)
    requires Recorded(h, budget)
    ensures CheckpointsRecorded(h.core.transfers, Record(h, CheckpointMove(source, target)).checkpoints)
  {
    var ts := h.core.transfers;
    var table := StreamTable(ts, source, target);
    var c := CheckpointEvent(source, target, FinalizedThrough(table, 0));
    if LastCheckpoint(h.checkpoints, source, target) < c.through {
      forall q | 1 <= q <= c.through ensures FinalizedOnStream(ts, source, target, q) {
        assert FinalizedAt(table, q);
        TableIsOnStream(ts, source, target, q);
        var k :| 0 <= k < |ts| && ts[k] == table[q];
      }
      assert CheckpointHolds(ts, c);
    }
  }

  // ---- every history ----

  lemma ClaimsKept(s: State, budget: int, a: Action, claims: seq<int>)
    requires Inv(s, budget) && Step(s, a).Some? && ClaimsRecorded(s, claims)
    ensures ClaimsRecorded(Step(s, a).value, claims + NewClaims(s, Step(s, a).value))
  {
    if a.ClaimAction? {
      ClaimRecorded(s, a.receipt, claims);
    } else {
      NoNewClaims(s, Step(s, a).value, claims);
    }
  }

  lemma CoreMoveKeeps(h: History, budget: int, a: Action)
    requires Recorded(h, budget) && Step(h.core, a).Some?
    ensures Recorded(Record(h, CoreMove(a)), budget)
  {
    StepKeeps(h.core, budget, a);
    assert CheckpointsRecorded(Step(h.core, a).value.transfers, h.checkpoints) by {
      StepAdvances(h.core, budget, a);
      CheckpointsSurvive(h.core.transfers, Step(h.core, a).value.transfers, h.checkpoints);
    }
    AuthorizationRecorded(h.core, a, h.authorizations);
    CreditRecorded(h.core, budget, a, h.inbound);
    ClaimsKept(h.core, budget, a, h.claims);
  }

  lemma RecordKeeps(h: History, budget: int, m: Move)
    requires Recorded(h, budget)
    ensures Recorded(Record(h, m), budget)
  {
    if m.CheckpointMove? {
      CheckpointTaken(h, budget, m.source, m.target);
    } else if Step(h.core, m.action).Some? {
      CoreMoveKeeps(h, budget, m.action);
    }
  }

  lemma {:induction false} ReplayRecorded(h: History, budget: int, moves: seq<Move>)
    requires Recorded(h, budget)
    ensures Recorded(Replay(h, moves), budget)
  {
    if moves != [] {
      ReplayRecorded(h, budget, moves[..|moves| - 1]);
      RecordKeeps(Replay(h, moves[..|moves| - 1]), budget, moves[|moves| - 1]);
    }
  }

  lemma InitialRecorded(shares: seq<int>)
    requires forall w :: 0 <= w < |shares| ==> 0 <= shares[w]
    ensures Recorded(InitialHistory(shares), Sum(shares))
  {
    InitialInv(shares);
  }

  /**
   * End-to-end effect bound: in every run each receipt is claimed at most once, claims on one
   * lease happen in strictly rising sequence, every claim names an issued receipt, and
   * claims <= receipts <= rights consumed <= budget.
   */
  lemma ClaimsNeverExceedBudget(shares: seq<int>, moves: seq<Move>)
    requires forall w :: 0 <= w < |shares| ==> 0 <= shares[w]
    ensures var h := Replay(InitialHistory(shares), moves);
      && Distinct(h.claims)
      && ClaimsIssued(h.core.receipts, h.claims) && RisingClaims(h.core.receipts, h.claims)
      && |h.claims| <= |h.core.receipts| <= h.core.consumed <= Sum(shares)
  {
    InitialRecorded(shares);
    ReplayRecorded(InitialHistory(shares), Sum(shares), moves);
    var h := Replay(InitialHistory(shares), moves);
    BoundedDistinct(h.claims, |h.core.receipts|);
    ConsumedWithinBudget(h.core, Sum(shares));
  }

  lemma BoundedDistinct(xs: seq<int>, n: nat)
    requires Distinct(xs) && forall i :: 0 <= i < |xs| ==> 1 <= xs[i] <= n
    ensures |xs| <= n
  {
    var all := seq(n, i => i + 1);
    DistinctCardinality(xs);
    DistinctCardinality(all);
    forall i | 0 <= i < |xs| ensures xs[i] in ElementSet(all) {
      assert all[xs[i] - 1] == xs[i];
    }
    SubsetSize(ElementSet(xs), ElementSet(all));
  }

  lemma ConsumedWithinBudget(s: State, budget: int)
    requires Inv(s, budget)
    ensures s.consumed <= budget
  {
    SumNonneg(s.pools);
    SumNonneg(Residuals(s.leases));
    forall k | 0 <= k < |s.transfers| ensures 0 <= InFlight(s.transfers)[k] {
      assert VoucherAt(s.leases, s.transfers, |s.pools|, k);
    }
    SumNonneg(InFlight(s.transfers));
  }

  predicate Overtaken(s: State, id: int) {
    && 1 <= id <= |s.receipts|
    && id !in s.claimedReceipts
    && s.receipts[id - 1].sequence <= Watermark(s, s.receipts[id - 1].lease)
  }

  lemma StaysOvertaken(h: History, budget: int, m: Move, id: int)
    requires Recorded(h, budget) && Overtaken(h.core, id)
    ensures Overtaken(Record(h, m).core, id)
  {
    if m.CoreMove? && Step(h.core, m.action).Some? {
      StepAdvances(h.core, budget, m.action);
      StepSkipsOvertaken(h.core, m.action, id);
      OvertakenAdvances(h.core, Step(h.core, m.action).value, id);
    }
  }

  lemma OvertakenAdvances(s: State, t: State, id: int)
    requires Overtaken(s, id) && Advances(s, t) && id !in t.claimedReceipts
    ensures Overtaken(t, id)
  {
    assert t.receipts[id - 1] == s.receipts[id - 1];
    assert Watermark(s, s.receipts[id - 1].lease) <= Watermark(t, s.receipts[id - 1].lease);
  }

  lemma StepSkipsOvertaken(s: State, a: Action, id: int)
    requires Identified(s) && Overtaken(s, id) && Step(s, a).Some?
    ensures id !in Step(s, a).value.claimedReceipts
  {
    if a.ClaimAction? {
      LookupReceipt(s, a.receipt);
    }
  }

  lemma {:induction false} OvertakenNeverClaimed(h: History, budget: int, moves: seq<Move>, id: int)
    requires Recorded(h, budget) && Overtaken(h.core, id)
    ensures Overtaken(Replay(h, moves).core, id)
    ensures id !in Replay(h, moves).claims
  {
    if moves != [] {
      var n := |moves| - 1;
      OvertakenNeverClaimed(h, budget, moves[..n], id);
      ReplayRecorded(h, budget, moves[..n]);
      StaysOvertaken(Replay(h, moves[..n]), budget, moves[n], id);
    }
    ReplayRecorded(h, budget, moves);
  }

  /**
   * A receipt that was overtaken at some point of a run -- its sequence is not above the
   * executor's watermark and it has not been claimed -- is not claimed in any continuation.
   */
  lemma OvertakenForEver(shares: seq<int>, first: seq<Move>, later: seq<Move>, id: int)
    requires forall w :: 0 <= w < |shares| ==> 0 <= shares[w]
    requires Overtaken(Replay(InitialHistory(shares), first).core, id)
    ensures id !in Replay(Replay(InitialHistory(shares), first), later).claims
  {
    InitialRecorded(shares);
    ReplayRecorded(InitialHistory(shares), Sum(shares), first);
    OvertakenNeverClaimed(Replay(InitialHistory(shares), first), Sum(shares), later, id);
  }

  /** The credits of voucher `id`: one, naming it in full, if it was accepted, and otherwise none. */
  predicate CreditedOnce(transfers: seq<Transfer>, events: seq<InboundEvent>, id: int)
    requires 1 <= id <= |transfers|
  {
    var t := transfers[id - 1];
    && (CreditedBy(events, id) <==> !t.status.Prepared?)
    && (forall i :: 0 <= i < |events| && events[i].transfer == id ==>
          events[i] == InboundEvent(id, t.source, t.target, t.sequence, true))
    && (forall i, j :: 0 <= i < j < |events| ==> events[i].transfer != events[j].transfer)
  }

  lemma RecordedOnce(transfers: seq<Transfer>, events: seq<InboundEvent>, id: int)
    requires InboundRecorded(transfers, events) && 1 <= id <= |transfers| && transfers[id - 1].id == id
    ensures CreditedOnce(transfers, events, id)
  {
    forall i | 0 <= i < |events| && events[i].transfer == id
      ensures InboundAt(transfers, events[i])
    {
    }
  }

  /** In every run, each accepted voucher is credited exactly once and a prepared one never. */
  lemma OneCreditPerVoucher(shares: seq<int>, moves: seq<Move>, id: int)
    requires forall w :: 0 <= w < |shares| ==> 0 <= shares[w]
    requires 1 <= id <= |Replay(InitialHistory(shares), moves).core.transfers|
    ensures var h := Replay(InitialHistory(shares), moves); CreditedOnce(h.core.transfers, h.inbound, id)
  {
    InitialRecorded(shares);
    ReplayRecorded(InitialHistory(shares), Sum(shares), moves);
    var h := Replay(InitialHistory(shares), moves);
    assert h.core.transfers[id - 1].id == id;
    RecordedOnce(h.core.transfers, h.inbound, id);
  }

  lemma {:induction false} ReplayAdvances(h: History, budget: int, moves: seq<Move>)
    requires Recorded(h, budget)
    ensures Advances(h.core, Replay(h, moves).core)
    ensures h.checkpoints <= Replay(h, moves).checkpoints
  {
    if moves != [] {
      var n := |moves| - 1;
      ReplayAdvances(h, budget, moves[..n]);
      ReplayRecorded(h, budget, moves[..n]);
      var mid := Replay(h, moves[..n]);
      if moves[n].CoreMove? && Step(mid.core, moves[n].action).Some? {
        StepAdvances(mid.core, budget, moves[n].action);
        AdvancesTransitive(h.core, mid.core, Record(mid, moves[n]).core);
      }
    }
  }

  /**
   * A checkpoint taken at any point of a run names, in every later state, a prefix of its stream
   * whose every sequence is finalized; and later checkpoints of the stream reach strictly further.
   */
  lemma CheckpointsAreForEver(shares: seq<int>, first: seq<Move>, later: seq<Move>, i: nat)
    requires forall w :: 0 <= w < |shares| ==> 0 <= shares[w]
    requires i < |Replay(InitialHistory(shares), first).checkpoints|
    ensures var h := Replay(InitialHistory(shares), first);
      var after := Replay(h, later);
      && h.checkpoints <= after.checkpoints
      && CheckpointHolds(after.core.transfers, h.checkpoints[i])
      && (forall j :: i < j < |after.checkpoints| ==> Further(h.checkpoints[i], after.checkpoints[j]))
  {
    InitialRecorded(shares);
    var budget := Sum(shares);
    ReplayRecorded(InitialHistory(shares), budget, first);
    var h := Replay(InitialHistory(shares), first);
    ReplayAdvances(h, budget, later);
    ReplayRecorded(h, budget, later);
    var after := Replay(h, later);
    assert after.checkpoints[i] == h.checkpoints[i];
  }

  /** On a gap-free stream the table holds every voucher of the stream under its sequence. */
  lemma {:induction false} TableHolds(ts: seq<Transfer>, source: nat, target: nat, k: nat)
    requires Streams(ts) && k < |ts| && OnStream(ts[k], source, target)
    ensures ts[k].sequence in StreamTable(ts, source, target)
    ensures StreamTable(ts, source, target)[ts[k].sequence] == ts[k]
  {
    var n := |ts| - 1;
    if k < n {
      StreamsPrefix(ts, n);
      TableHolds(ts[..n], source, target, k);
      if OnStream(ts[n], source, target) {
        assert StreamAt(ts, k) && StreamAt(ts, n);
        EscrowValidate.EarlierIsLower(ts, source, target, k, n);
      }
    }
  }

  lemma {:induction false} LastIsRecorded(checkpoints: seq<CheckpointEvent>, source: nat, target: nat)
    ensures var last := LastCheckpoint(checkpoints, source, target);
      last == 0 || exists i :: 0 <= i < |checkpoints| && OfStream(checkpoints[i], source, target) && checkpoints[i].through == last
  {
    if checkpoints != [] {
      var n := |checkpoints| - 1;
      LastIsRecorded(checkpoints[..n], source, target);
      assert forall i :: 0 <= i < n ==> checkpoints[..n][i] == checkpoints[i];
    }
  }

  /** The sequences 1, ..., `q` of the stream are all finalized. */
  predicate PrefixFinalized(ts: seq<Transfer>, source: nat, target: nat, q: int) {
    forall p :: 1 <= p <= q ==> FinalizedOnStream(ts, source, target, p)
  }

  /** The loop's count is the longest such prefix. */
  lemma PrefixIsScanned(ts: seq<Transfer>, source: nat, target: nat, q: int)
    requires Streams(ts) && 1 <= q
    ensures PrefixFinalized(ts, source, target, q) <==> q <= FinalizedThrough(StreamTable(ts, source, target), 0)
  {
    var table := StreamTable(ts, source, target);
    var through := FinalizedThrough(table, 0);
    forall p | 1 <= p ensures FinalizedOnStream(ts, source, target, p) <==> FinalizedAt(table, p) {
      FinalizedIsListed(ts, source, target, p);
    }
    assert !FinalizedOnStream(ts, source, target, through + 1);
  }

  lemma FinalizedIsListed(ts: seq<Transfer>, source: nat, target: nat, p: int)
    requires Streams(ts)
    ensures FinalizedOnStream(ts, source, target, p) <==> FinalizedAt(StreamTable(ts, source, target), p)
  {
    if FinalizedOnStream(ts, source, target, p) {
      var k :| 0 <= k < |ts| && OnStream(ts[k], source, target) && ts[k].sequence == p && ts[k].status.Finalized?;
      TableHolds(ts, source, target, k);
    }
    if FinalizedAt(StreamTable(ts, source, target), p) {
      TableIsOnStream(ts, source, target, p);
      var k :| 0 <= k < |ts| && ts[k] == StreamTable(ts, source, target)[p];
    }
  }

  predicate ReachedBy(checkpoints: seq<CheckpointEvent>, source: nat, target: nat, q: int) {
    exists i :: 0 <= i < |checkpoints| && OfStream(checkpoints[i], source, target) && q <= checkpoints[i].through
  }

  lemma LastDecidesReach(checkpoints: seq<CheckpointEvent>, source: nat, target: nat, q: int)
    requires 1 <= q
    ensures ReachedBy(checkpoints, source, target, q) <==> q <= LastCheckpoint(checkpoints, source, target)
  {
    LastIsRecorded(checkpoints, source, target);
  }

  /** Just the event that was taken is new, and no earlier checkpoint of the stream reached as far. */
  predicate TakenOnce(before: seq<CheckpointEvent>, after: seq<CheckpointEvent>, source: nat, target: nat) {
    && |after| == |before| + 1 && before <= after
    && OfStream(after[|before|], source, target)
    && !ReachedBy(before, source, target, after[|before|].through)
  }

  lemma CheckpointGrows(h: History, budget: int, source: nat, target: nat)
    requires Recorded(h, budget)
    ensures var after := Record(h, CheckpointMove(source, target));
      && after == h.(checkpoints := after.checkpoints)
      && (after.checkpoints == h.checkpoints || TakenOnce(h.checkpoints, after.checkpoints, source, target))
  {
    var through := FinalizedThrough(StreamTable(h.core.transfers, source, target), 0);
    if LastCheckpoint(h.checkpoints, source, target) < through {
      LastDecidesReach(h.checkpoints, source, target, through);
    }
  }

  /** After a checkpoint the stream is covered exactly as far as its prefix is finalized. */
  lemma CheckpointCovers(h: History, budget: int, source: nat, target: nat, q: int)
    requires Recorded(h, budget) && 1 <= q
    ensures ReachedBy(Record(h, CheckpointMove(source, target)).checkpoints, source, target, q) <==>
      PrefixFinalized(h.core.transfers, source, target, q)
  {
    var after := Record(h, CheckpointMove(source, target)).checkpoints;
    CheckpointTaken(h, budget, source, target);
    PrefixIsScanned(h.core.transfers, source, target, q);
    if PrefixFinalized(h.core.transfers, source, target, q) {
      LastDecidesReach(h.checkpoints, source, target, q);
      if |h.checkpoints| < |after| {
        assert OfStream(after[|h.checkpoints|], source, target) && q <= after[|h.checkpoints|].through;
      }
    }
    if ReachedBy(after, source, target, q) {
      var i :| 0 <= i < |after| && OfStream(after[i], source, target) && q <= after[i].through;
      assert CheckpointHolds(h.core.transfers, after[i]);
    }
  }

  /**
   * In every history, taking a checkpoint of a stream leaves recorded checkpoints that reach exactly
   * as far as the stream is finalized without a gap; the list grows by at most that one event, and
   * only when no earlier checkpoint of the stream reached as far.
   */
  lemma CheckpointMissesNothing(shares: seq<int>, moves: seq<Move>, source: nat, target: nat, q: int)
    requires (forall w :: 0 <= w < |shares| ==> 0 <= shares[w]) && 1 <= q
    ensures var h := Replay(InitialHistory(shares), moves);
      var after := Record(h, CheckpointMove(source, target));
      && (ReachedBy(after.checkpoints, source, target, q) <==> PrefixFinalized(h.core.transfers, source, target, q))
      && after == h.(checkpoints := after.checkpoints)
      && (after.checkpoints == h.checkpoints || TakenOnce(h.checkpoints, after.checkpoints, source, target))
  {
    InitialRecorded(shares);
    ReplayRecorded(InitialHistory(shares), Sum(shares), moves);
    CheckpointCovers(Replay(InitialHistory(shares), moves), Sum(shares), source, target, q);
    CheckpointGrows(Replay(InitialHistory(shares), moves), Sum(shares), source, target);
  }

  /** Every stream, pool and lease vouchers together, carries exactly the sequences 1, ..., k. */
  lemma StreamsHaveNoGaps(shares: seq<int>, actions: seq<Action>, source: nat, target: nat)
    requires forall w :: 0 <= w < |shares| ==> 0 <= shares[w]
    ensures var ts := Run(InitialState(shares), actions).transfers;
      && (forall q: int :: q in StreamTable(ts, source, target) <==> 1 <= q <= StreamCount(ts, source, target))
      && (forall j, k :: 0 <= j < k < |ts| && OnStream(ts[j], source, target) && OnStream(ts[k], source, target) ==>
            ts[j].sequence < ts[k].sequence)
  {
    RunInv(shares, actions);
    var ts := Run(InitialState(shares), actions).transfers;
    TableIsContiguous(ts, source, target);
    forall j, k | 0 <= j < k < |ts| && OnStream(ts[j], source, target) && OnStream(ts[k], source, target)
      ensures ts[j].sequence < ts[k].sequence
    {
      assert StreamAt(ts, j) && StreamAt(ts, k);
      EscrowValidate.EarlierIsLower(ts, source, target, j, k);
    }
  }

  lemma {:induction false} TableIsContiguous(ts: seq<Transfer>, source: nat, target: nat)
    requires Streams(ts)
    ensures forall q: int :: q in StreamTable(ts, source, target) <==> 1 <= q <= StreamCount(ts, source, target)
  {
    if ts != [] {
      var n := |ts| - 1;
      StreamsPrefix(ts, n);
      TableIsContiguous(ts[..n], source, target);
      assert StreamAt(ts, n);
    }
  }
}
