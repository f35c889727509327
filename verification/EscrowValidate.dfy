/**
 * The source's `validate`: fourteen named checks, made in a fixed order with loops
 * that fill dictionaries.  The method is proved against a declarative reading of
 * each check, and every state of every run passes all of them.
 */
module EscrowValidate {
  import opened Common
  import opened Escrow
  import opened EscrowInvariant

  datatype Invariant =
    | GlobalConservation
    | NonnegativeRights
    | UniqueLeaseIds
    | LineageAttenuation
    | TransferType
    | RemoteChildOrigin
    | UniqueTransferIds
    | UniqueStreamSequences
    | UniqueReceiptIdentity
    | UniqueReceiptSequence
    | ClaimOrigin
    | ClaimBinding
    | ExecutorWatermark
    | ReceiptOrigin

  // ---- what each check means ----

  predicate Nonnegative(s: State) {
    && (forall w :: 0 <= w < |s.pools| ==> 0 <= s.pools[w])
    && 0 <= s.consumed
    && (forall i :: 0 <= i < |s.leases| ==> 0 <= s.leases[i].residual)
  }

  function LeaseIds(leases: seq<Lease>): seq<int> {
    seq(|leases|, i requires 0 <= i < |leases| => leases[i].id)
  }

  function TransferIds(transfers: seq<Transfer>): seq<int> {
    seq(|transfers|, i requires 0 <= i < |transfers| => transfers[i].id)
  }

  function StreamSequences(transfers: seq<Transfer>): seq<(nat, nat, int)> {
    seq(|transfers|, i requires 0 <= i < |transfers| =>
      (transfers[i].source, transfers[i].target, transfers[i].sequence))
  }

  function ReceiptIds(receipts: seq<Receipt>): seq<int> {
    seq(|receipts|, i requires 0 <= i < |receipts| => receipts[i].id)
  }

  function Nonces(receipts: seq<Receipt>): seq<int> {
    seq(|receipts|, i requires 0 <= i < |receipts| => receipts[i].nonce)
  }

  function LeaseSequences(receipts: seq<Receipt>): seq<(int, int)> {
    seq(|receipts|, i requires 0 <= i < |receipts| => (receipts[i].lease, receipts[i].sequence))
  }

  predicate WellPlaced(leases: seq<Lease>, l: Lease) {
    match l.parent
    case None => !l.remote
    case Some(p) =>
      exists i :: 0 <= i < |leases| && leases[i].id == p && leases[i].id < l.id
        && ((leases[i].warden != l.warden) == l.remote)
  }

  predicate LineagePlaced(leases: seq<Lease>) {
    forall i :: 0 <= i < |leases| ==> WellPlaced(leases, leases[i])
  }

  predicate KindMatchesParent(transfers: seq<Transfer>) {
    forall k :: 0 <= k < |transfers| ==> (transfers[k].kind.LeaseKind? <==> transfers[k].parent.Some?)
  }

  predicate WellFormedTransfers(transfers: seq<Transfer>) {
    forall k :: 0 <= k < |transfers| ==> transfers[k].source != transfers[k].target && 0 < transfers[k].amount
  }

  predicate ClaimsKnown(s: State) {
    && s.claimedReceipts <= ElementSet(ReceiptIds(s.receipts))
    && s.claimedNonces <= ElementSet(Nonces(s.receipts))
  }

  function BoundNonces(s: State): set<int> {
    set k | 0 <= k < |s.receipts| && s.receipts[k].id in s.claimedReceipts :: s.receipts[k].nonce
  }

  /**
   * `m` maps exactly the claimed leases of the first `n` receipts to their highest claimed
   * sequence, where a maximum is never taken below zero.
   */
  ghost predicate HighestClaimed(s: State, n: nat, m: map<int, int>)
    requires n <= |s.receipts|
  {
    && (forall k :: 0 <= k < n && s.receipts[k].id in s.claimedReceipts ==>
          s.receipts[k].lease in m && s.receipts[k].sequence <= m[s.receipts[k].lease])
    && (forall lease :: lease in m ==> HighestReached(s, n, m, lease))
  }

  ghost predicate HighestReached(s: State, n: nat, m: map<int, int>, lease: int)
    requires n <= |s.receipts| && lease in m
  {
    && 0 <= m[lease]
    && exists k :: 0 <= k < n && s.receipts[k].id in s.claimedReceipts && s.receipts[k].lease == lease
         && (s.receipts[k].sequence == m[lease] || m[lease] == 0)
  }

  predicate ReceiptBacked(s: State, r: Receipt) {
    exists i :: 0 <= i < |s.leases| && s.leases[i].id == r.lease
      && s.leases[i].warden == r.warden && r.sequence <= s.leases[i].sequence
  }

  predicate ReceiptsBacked(s: State) {
    forall k :: 0 <= k < |s.receipts| ==> ReceiptBacked(s, s.receipts[k])
  }

  /** The first check that fails, in the order they are made. */
  ghost function FirstViolation(s: State, budget: int): Option<Invariant> {
    if ConservedRights(s) != budget then Some(GlobalConservation)
    else if !Nonnegative(s) then Some(NonnegativeRights)
    else if !Distinct(LeaseIds(s.leases)) then Some(UniqueLeaseIds)
    else if !LineagePlaced(s.leases) then Some(LineageAttenuation)
    else if !KindMatchesParent(s.transfers) then Some(TransferType)
    else if !RemoteMatch(s.leases, s.transfers) then Some(RemoteChildOrigin)
    else if !Distinct(TransferIds(s.transfers)) then Some(UniqueTransferIds)
    else if !Distinct(StreamSequences(s.transfers)) then Some(UniqueStreamSequences)
    else if !WellFormedTransfers(s.transfers) then Some(TransferType)
    else if !Distinct(ReceiptIds(s.receipts)) || !Distinct(Nonces(s.receipts)) then Some(UniqueReceiptIdentity)
    else if !Distinct(LeaseSequences(s.receipts)) then Some(UniqueReceiptSequence)
    else if !ClaimsKnown(s) then Some(ClaimOrigin)
    else if s.claimedNonces != BoundNonces(s) then Some(ClaimBinding)
    else if !HighestClaimed(s, |s.receipts|, s.watermarks) then Some(ExecutorWatermark)
    else if !ReceiptsBacked(s) then Some(ReceiptOrigin)
    else None
  }

  // ---- the loops ----

  /** The dictionary of leases by identifier; on a repeated identifier the last one wins. */
  function KnownLeases(leases: seq<Lease>): (m: map<int, Lease>)
    ensures forall i :: 0 <= i < |leases| ==> leases[i].id in m
    ensures forall id :: id in m ==> m[id] in leases && m[id].id == id
  {
    if leases == [] then map[] else
      var last := leases[|leases| - 1];
      KnownLeases(leases[..|leases| - 1])[last.id := last]
  }

  lemma SameIdSameLease(leases: seq<Lease>, l: Lease, i: nat)
    requires Distinct(LeaseIds(leases)) && i < |leases| && l in leases && l.id == leases[i].id
    ensures l == leases[i]
  {
    var j :| 0 <= j < |leases| && leases[j] == l;
    var ids := LeaseIds(leases);
    assert ids[i] == ids[j];
  }

  lemma KnownIsUnique(leases: seq<Lease>, i: nat)
    requires Distinct(LeaseIds(leases)) && i < |leases|
    ensures leases[i].id in KnownLeases(leases) && KnownLeases(leases)[leases[i].id] == leases[i]
  {
    var known := KnownLeases(leases)[leases[i].id];
    SameIdSameLease(leases, known, i);
  }

  method CheckLineage(leases: seq<Lease>) returns (ok: bool)
    requires Distinct(LeaseIds(leases))
    ensures ok <==> LineagePlaced(leases)
  {
    var known := KnownLeases(leases);
    for n := 0 to |leases|
      invariant forall i :: 0 <= i < n ==> WellPlaced(leases, leases[i])
    {
      var l := leases[n];
      if l.parent.None? {
        if l.remote {
          return false;
        }
      } else {
        var p := l.parent.value;
        PlacedInKnown(leases, l);
        if p !in known || known[p].id >= l.id || (known[p].warden != l.warden) != l.remote {
          return false;
        }
      }
    }
    ok := true;
  }

  lemma PlacedInKnown(leases: seq<Lease>, l: Lease)
    requires Distinct(LeaseIds(leases)) && l.parent.Some?
    ensures var p, known := l.parent.value, KnownLeases(leases);
      WellPlaced(leases, l) <==>
        p in known && known[p].id < l.id && ((known[p].warden != l.warden) == l.remote)
  {
    var p, known := l.parent.value, KnownLeases(leases);
    if p in known {
      var i :| 0 <= i < |leases| && leases[i] == known[p];
    }
    if WellPlaced(leases, l) {
      var i :| 0 <= i < |leases| && leases[i].id == p && leases[i].id < l.id
        && ((leases[i].warden != l.warden) == l.remote);
      KnownIsUnique(leases, i);
    }
  }

  type Placement = (int, nat)

  ghost predicate Counts(m: map<Placement, int>, tally: Placement -> int) {
    forall p: int, w: nat {:trigger tally((p, w))} ::
      ((p, w) in m <==> tally((p, w)) != 0) && ((p, w) in m ==> m[(p, w)] == tally((p, w)))
  }

  ghost function RemoteTally(leases: seq<Lease>): Placement -> int {
    (key: Placement) => Sum(RemoteMarks(leases, key.0, key.1))
  }

  ghost function VoucherTally(transfers: seq<Transfer>): Placement -> int {
    (key: Placement) => Sum(VoucherMarks(transfers, key.0, key.1))
  }

  lemma MarksNonneg(leases: seq<Lease>, transfers: seq<Transfer>, p: int, w: nat)
    ensures 0 <= Sum(RemoteMarks(leases, p, w)) && 0 <= Sum(VoucherMarks(transfers, p, w))
  {
    SumNonneg(RemoteMarks(leases, p, w));
    SumNonneg(VoucherMarks(transfers, p, w));
  }

  lemma RemoteTallyStep(leases: seq<Lease>, n: nat, p: int, w: nat)
    requires n < |leases|
    ensures RemoteTally(leases[..n + 1])((p, w)) ==
            RemoteTally(leases[..n])((p, w)) + if RemoteChildOf(leases[n], p, w) then 1 else 0
    ensures 0 <= RemoteTally(leases[..n])((p, w))
  {
    var mark := if RemoteChildOf(leases[n], p, w) then 1 else 0;
    assert RemoteMarks(leases[..n + 1], p, w) == RemoteMarks(leases[..n], p, w) + [mark];
    SumAppend(RemoteMarks(leases[..n], p, w), mark);
    MarksNonneg(leases[..n], [], p, w);
  }

  lemma VoucherTallyStep(transfers: seq<Transfer>, n: nat, p: int, w: nat)
    requires n < |transfers|
    ensures VoucherTally(transfers[..n + 1])((p, w)) ==
            VoucherTally(transfers[..n])((p, w)) + if RedeemedVoucher(transfers[n], p, w) then 1 else 0
    ensures 0 <= VoucherTally(transfers[..n])((p, w))
  {
    var mark := if RedeemedVoucher(transfers[n], p, w) then 1 else 0;
    assert VoucherMarks(transfers[..n + 1], p, w) == VoucherMarks(transfers[..n], p, w) + [mark];
    SumAppend(VoucherMarks(transfers[..n], p, w), mark);
    MarksNonneg([], transfers[..n], p, w);
  }

  function Bump(m: map<Placement, int>, key: Placement): map<Placement, int> {
    m[key := (if key in m then m[key] else 0) + 1]
  }

  method CountRemoteChildren(leases: seq<Lease>) returns (counts: map<Placement, int>)
    ensures Counts(counts, RemoteTally(leases))
  {
    counts := map[];
    for n := 0 to |leases|
      invariant Counts(counts, RemoteTally(leases[..n]))
    {
      var l := leases[n];
      ghost var before := counts;
      if l.remote && l.parent.Some? {
        counts := Bump(counts, (l.parent.value, l.warden));
      }
      forall p: int, w: nat
        ensures ((p, w) in counts <==> RemoteTally(leases[..n + 1])((p, w)) != 0)
        ensures (p, w) in counts ==> counts[(p, w)] == RemoteTally(leases[..n + 1])((p, w))
      {
        assert RemoteTally(leases[..n])((p, w)) != 0 <==> (p, w) in before;
        RemoteTallyStep(leases, n, p, w);
      }
    }
    assert leases[..|leases|] == leases;
  }

  /** Fails exactly on a transfer whose kind and parent disagree; otherwise counts redeemed vouchers. */
  method CountVouchers(transfers: seq<Transfer>) returns (ok: bool, counts: map<Placement, int>)
    ensures ok <==> KindMatchesParent(transfers)
    ensures ok ==> Counts(counts, VoucherTally(transfers))
  {
    counts := map[];
    for n := 0 to |transfers|
      invariant forall k :: 0 <= k < n ==> (transfers[k].kind.LeaseKind? <==> transfers[k].parent.Some?)
      invariant Counts(counts, VoucherTally(transfers[..n]))
    {
      var t := transfers[n];
      ghost var before := counts;
      if t.kind.LeaseKind? {
        if t.parent.None? {
          return false, counts;
        }
        if !t.status.Prepared? {
          counts := Bump(counts, (t.parent.value, t.target));
        }
      } else if t.parent.Some? {
        return false, counts;
      }
      forall p: int, w: nat
        ensures ((p, w) in counts <==> VoucherTally(transfers[..n + 1])((p, w)) != 0)
        ensures (p, w) in counts ==> counts[(p, w)] == VoucherTally(transfers[..n + 1])((p, w))
      {
        assert VoucherTally(transfers[..n])((p, w)) != 0 <==> (p, w) in before;
        VoucherTallyStep(transfers, n, p, w);
      }
    }
    assert transfers[..|transfers|] == transfers;
    ok := true;
  }

  /** Two count dictionaries are equal exactly when the tallies agree everywhere. */
  lemma CountsAgree(leases: seq<Lease>, transfers: seq<Transfer>,
                    a: map<Placement, int>, b: map<Placement, int>)
    requires Counts(a, RemoteTally(leases)) && Counts(b, VoucherTally(transfers))
    ensures a == b <==> RemoteMatch(leases, transfers)
  {
    if a == b {
      forall p: int, w: nat ensures Sum(RemoteMarks(leases, p, w)) == Sum(VoucherMarks(transfers, p, w)) {
        assert RemoteTally(leases)((p, w)) == VoucherTally(transfers)((p, w));
      }
    }
    if RemoteMatch(leases, transfers) {
      forall key: Placement ensures (key in a <==> key in b) && (key in a ==> a[key] == b[key]) {
        var p, w := key.0, key.1;
        assert RemoteTally(leases)((p, w)) == Sum(RemoteMarks(leases, p, w));
        assert VoucherTally(transfers)((p, w)) == Sum(VoucherMarks(transfers, p, w));
      }
    }
  }

  method ExpectedWatermarks(s: State) returns (m: map<int, int>)
    ensures HighestClaimed(s, |s.receipts|, m)
    ensures forall other :: HighestClaimed(s, |s.receipts|, other) <==> other == m
  {
    m := map[];
    for n := 0 to |s.receipts|
      invariant HighestClaimed(s, n, m)
    {
      var r := s.receipts[n];
      ghost var before := m;
      if r.id in s.claimedReceipts {
        var prior := if r.lease in m then m[r.lease] else 0;
        m := m[r.lease := if prior < r.sequence then r.sequence else prior];
      }
      forall lease | lease in m ensures HighestReached(s, n + 1, m, lease) {
        if lease in before && m[lease] == before[lease] {
          assert HighestReached(s, n, before, lease);
        }
      }
    }
    forall other | HighestClaimed(s, |s.receipts|, other) ensures other == m {
      HighestUnique(s, other, m);
    }
  }

  lemma HighestUnique(s: State, a: map<int, int>, b: map<int, int>)
    requires HighestClaimed(s, |s.receipts|, a) && HighestClaimed(s, |s.receipts|, b)
    ensures a == b
  {
    forall lease ensures (lease in a <==> lease in b) && (lease in a ==> a[lease] == b[lease]) {
      if lease in a {
        assert HighestReached(s, |s.receipts|, a, lease);
      }
      if lease in b {
        assert HighestReached(s, |s.receipts|, b, lease);
      }
    }
  }

  method CheckTransferForm(transfers: seq<Transfer>) returns (ok: bool)
    ensures ok <==> WellFormedTransfers(transfers)
  {
    for n := 0 to |transfers|
      invariant forall k :: 0 <= k < n ==> transfers[k].source != transfers[k].target && 0 < transfers[k].amount
    {
      if transfers[n].source == transfers[n].target || transfers[n].amount <= 0 {
        return false;
      }
    }
    ok := true;
  }

  method CheckReceiptOrigin(s: State) returns (ok: bool)
    requires Distinct(LeaseIds(s.leases))
    ensures ok <==> ReceiptsBacked(s)
  {
    var known := KnownLeases(s.leases);
    for n := 0 to |s.receipts|
      invariant forall k :: 0 <= k < n ==> ReceiptBacked(s, s.receipts[k])
    {
      var r := s.receipts[n];
      BackedInKnown(s, r);
      if r.lease !in known || r.warden != known[r.lease].warden || r.sequence > known[r.lease].sequence {
        return false;
      }
    }
    ok := true;
  }

  lemma BackedInKnown(s: State, r: Receipt)
    requires Distinct(LeaseIds(s.leases))
    ensures var known := KnownLeases(s.leases);
      ReceiptBacked(s, r) <==>
        r.lease in known && r.warden == known[r.lease].warden && r.sequence <= known[r.lease].sequence
  {
    var known := KnownLeases(s.leases);
    if r.lease in known {
      var i :| 0 <= i < |s.leases| && s.leases[i] == known[r.lease];
    }
    if ReceiptBacked(s, r) {
      var i :| 0 <= i < |s.leases| && s.leases[i].id == r.lease
        && s.leases[i].warden == r.warden && r.sequence <= s.leases[i].sequence;
      KnownIsUnique(s.leases, i);
    }
  }

  /** The identifier checks compare the length of a list with the size of the set of its elements. */
  method CheckDistinct<T(==)>(xs: seq<T>) returns (ok: bool)
    ensures ok <==> Distinct(xs)
  {
    DistinctCardinality(xs);
    ok := |ElementSet(xs)| == |xs|;
  }

  /** The checks on rights, leases and remote children. */
  method ValidateLeases(s: State, budget: int) returns (r: Option<Invariant>)
    ensures r.Some? ==> r == FirstViolation(s, budget)
    ensures r.None? <==>
      && ConservedRights(s) == budget && Nonnegative(s) && Distinct(LeaseIds(s.leases))
      && LineagePlaced(s.leases) && KindMatchesParent(s.transfers) && RemoteMatch(s.leases, s.transfers)
  {
    if ConservedRights(s) != budget {
      return Some(GlobalConservation);
    }
    if !Nonnegative(s) {
      return Some(NonnegativeRights);
    }
    var distinct := CheckDistinct(LeaseIds(s.leases));
    if !distinct {
      return Some(UniqueLeaseIds);
    }
    var placed := CheckLineage(s.leases);
    if !placed {
      return Some(LineageAttenuation);
    }
    var children := CountRemoteChildren(s.leases);
    var typed, vouchers := CountVouchers(s.transfers);
    if !typed {
      return Some(TransferType);
    }
    CountsAgree(s.leases, s.transfers, children, vouchers);
    if children != vouchers {
      return Some(RemoteChildOrigin);
    }
    r := None;
  }

  /** The source's `validate`, in full: it reports exactly the first check that fails. */
  method Validate(s: State, budget: int) returns (r: Option<Invariant>)
    ensures r == FirstViolation(s, budget)
  {
    r := ValidateLeases(s, budget);
    if r.Some? {
      return;
    }
    var distinct := CheckDistinct(TransferIds(s.transfers));
    if !distinct {
      return Some(UniqueTransferIds);
    }
    distinct := CheckDistinct(StreamSequences(s.transfers));
    if !distinct {
      return Some(UniqueStreamSequences);
    }
    var formed := CheckTransferForm(s.transfers);
    if !formed {
      return Some(TransferType);
    }
    distinct := CheckDistinct(ReceiptIds(s.receipts));
    var distinctNonces := CheckDistinct(Nonces(s.receipts));
    if !distinct || !distinctNonces {
      return Some(UniqueReceiptIdentity);
    }
    distinct := CheckDistinct(LeaseSequences(s.receipts));
    if !distinct {
      return Some(UniqueReceiptSequence);
    }
    if !ClaimsKnown(s) {
      return Some(ClaimOrigin);
    }
    if s.claimedNonces != BoundNonces(s) {
      return Some(ClaimBinding);
    }
    var expected := ExpectedWatermarks(s);
    if s.watermarks != expected {
      return Some(ExecutorWatermark);
    }
    var backed := CheckReceiptOrigin(s);
    if !backed {
      return Some(ReceiptOrigin);
    }
    r := None;
  }

  // ---- every reachable state passes ----

  lemma {:induction false} EarlierIsLower(transfers: seq<Transfer>, source: nat, target: nat, j: nat, k: nat)
    requires j <= k <= |transfers|
    ensures StreamCount(transfers[..j], source, target) <= StreamCount(transfers[..k], source, target)
    ensures j < k && OnStream(transfers[j], source, target) ==>
      StreamCount(transfers[..j], source, target) < StreamCount(transfers[..k], source, target)
    decreases k - j
  {
    if j < k {
      EarlierIsLower(transfers, source, target, j, k - 1);
      assert transfers[..k][..k - 1] == transfers[..k - 1];
    }
  }

  lemma StreamsDistinct(transfers: seq<Transfer>)
    requires Streams(transfers)
    ensures Distinct(StreamSequences(transfers))
  {
    var xs := StreamSequences(transfers);
    forall j, k | 0 <= j < k < |xs| ensures xs[j] != xs[k] {
      assert StreamAt(transfers, j) && StreamAt(transfers, k);
      EarlierIsLower(transfers, transfers[k].source, transfers[k].target, j, k);
    }
  }

  lemma LineageIsPlaced(s: State)
    requires Identified(s) && Lineage(s.leases, |s.pools|)
    ensures LineagePlaced(s.leases)
  {
    forall i | 0 <= i < |s.leases| ensures WellPlaced(s.leases, s.leases[i]) {
      assert LineageAt(s.leases, i);
      if s.leases[i].parent.Some? {
        assert s.leases[s.leases[i].parent.value - 1].id == s.leases[i].parent.value;
      }
    }
  }

  lemma VouchersFormed(s: State)
    requires Vouchers(s)
    ensures KindMatchesParent(s.transfers) && WellFormedTransfers(s.transfers)
  {
    forall k | 0 <= k < |s.transfers|
      ensures s.transfers[k].kind.LeaseKind? <==> s.transfers[k].parent.Some?
      ensures s.transfers[k].source != s.transfers[k].target && 0 < s.transfers[k].amount
    {
      assert VoucherAt(s.leases, s.transfers, |s.pools|, k);
    }
  }

  lemma ReceiptsDistinct(s: State)
    requires Identified(s) && Receipted(s.receipts, s.leases)
    ensures Distinct(LeaseSequences(s.receipts)) && ReceiptsBacked(s)
  {
    forall k | 0 <= k < |s.receipts| ensures ReceiptBacked(s, s.receipts[k]) {
      assert ReceiptAt(s.receipts, s.leases, k);
      assert s.leases[s.receipts[k].lease - 1].id == s.receipts[k].lease;
    }
  }

  lemma ClaimsBound(s: State)
    requires Identified(s) && Claimed(s)
    ensures ClaimsKnown(s) && s.claimedNonces == BoundNonces(s)
  {
    var ids, nonces := ReceiptIds(s.receipts), Nonces(s.receipts);
    forall id | id in s.claimedReceipts
      ensures id in ElementSet(ids) && id in ElementSet(nonces) && id in BoundNonces(s)
    {
      assert s.receipts[id - 1].id == id && ids[id - 1] == id && nonces[id - 1] == id;
    }
  }

  lemma WatermarksHighest(s: State)
    requires Identified(s) && Receipted(s.receipts, s.leases) && Claimed(s)
    ensures HighestClaimed(s, |s.receipts|, s.watermarks)
  {
    forall k | 0 <= k < |s.receipts| && s.receipts[k].id in s.claimedReceipts
      ensures s.receipts[k].lease in s.watermarks
        && s.receipts[k].sequence <= s.watermarks[s.receipts[k].lease]
    {
      assert ClaimedBelow(s, k);
    }
    forall lease | lease in s.watermarks ensures HighestReached(s, |s.receipts|, s.watermarks, lease) {
      assert WatermarkReached(s, lease);
      var k :| 0 <= k < |s.receipts| && s.receipts[k].id in s.claimedReceipts
        && s.receipts[k].lease == lease && s.receipts[k].sequence == s.watermarks[lease];
      assert ReceiptAt(s.receipts, s.leases, k);
    }
  }

  lemma InvIsValid(s: State, budget: int)
    requires Inv(s, budget)
    ensures FirstViolation(s, budget) == None
  {
    LineageIsPlaced(s);
    VouchersFormed(s);
    StreamsDistinct(s.transfers);
    ReceiptsDistinct(s);
    ClaimsBound(s);
    WatermarksHighest(s);
  }

  /**
   * No run, of any length, over any number of wardens, leases, transfers and receipts,
   * ever reaches a state that `validate` rejects.
   */
  lemma EveryRunIsValid(shares: seq<int>, actions: seq<Action>)
    requires forall w :: 0 <= w < |shares| ==> 0 <= shares[w]
    ensures FirstViolation(Run(InitialState(shares), actions), Sum(shares)) == None
  {
    RunInv(shares, actions);
    InvIsValid(Run(InitialState(shares), actions), Sum(shares));
  }

  // ---- the source keeps its tuples sorted ----

  predicate Numbered<T(!new)>(xs: seq<T>, id: T -> int) {
    forall i :: 0 <= i < |xs| ==> id(xs[i]) == i + 1
  }

  predicate SortedById<T(!new)>(xs: seq<T>, id: T -> int) {
    forall i, j :: 0 <= i < j < |xs| ==> id(xs[i]) <= id(xs[j])
  }

  lemma LastStaysLast<T(!new)>(xs: seq<T>, sorted: seq<T>, id: T -> int)
    requires Numbered(xs, id) && SortedById(sorted, id) && multiset(sorted) == multiset(xs) && xs != []
    ensures |sorted| == |xs| && sorted[|xs| - 1] == xs[|xs| - 1]
  {
    assert |sorted| == |multiset(sorted)| == |xs|;
    var n := |xs| - 1;
    assert sorted[n] in multiset(xs) && xs[n] in multiset(sorted);
    var i :| 0 <= i < |xs| && xs[i] == sorted[n];
    var j :| 0 <= j < |sorted| && sorted[j] == xs[n];
    assert id(sorted[j]) <= id(sorted[n]);
  }

  lemma FrontsAgree<T>(xs: seq<T>, ys: seq<T>)
    requires xs != [] && |xs| == |ys| && xs[|xs| - 1] == ys[|xs| - 1] && multiset(xs) == multiset(ys)
    ensures multiset(xs[..|xs| - 1]) == multiset(ys[..|xs| - 1])
  {
    var n := |xs| - 1;
    assert xs == xs[..n] + [xs[n]] && ys == ys[..n] + [xs[n]];
    CancelOne(multiset(xs[..n]), multiset(ys[..n]), xs[n]);
  }

  lemma CancelOne<T>(a: multiset<T>, b: multiset<T>, x: T)
    requires a + multiset{x} == b + multiset{x}
    ensures a == b
  {
    assert a == a + multiset{x} - multiset{x} && b == b + multiset{x} - multiset{x};
  }

  /**
   * The source re-sorts its tuples of leases, transfers and receipts after every change.  Their
   * identifiers being 1, 2, 3, ... in every reachable state (`Identified`), that is the identity:
   * any arrangement of the same records in identifier order is the arrangement kept here.
   */
  lemma {:induction false} SortingChangesNothing<T(!new)>(xs: seq<T>, sorted: seq<T>, id: T -> int)
    requires Numbered(xs, id) && SortedById(sorted, id) && multiset(sorted) == multiset(xs)
    ensures sorted == xs
  {
    if xs == [] {
      assert |multiset(sorted)| == 0;
    } else {
      var n := |xs| - 1;
      LastStaysLast(xs, sorted, id);
      FrontsAgree(xs, sorted);
      SortingChangesNothing(xs[..n], sorted[..n], id);
      assert xs == xs[..n] + [xs[n]] && sorted == sorted[..n] + [xs[n]];
    }
  }
}
