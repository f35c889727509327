/**
 * The system of the reference kernel warden by warden: when a transfer is prepared and accepted, and
 * what that moves; and conservation at every single warden, so that rights change hands only by a
 * transfer and only between its two ends.
 */
module KernelWardens {
  import opened Common
  import opened MapSums
  import opened KernelSpec
  import opened KernelInvariant
  import opened KernelGuarantees
  import opened KernelExactly
  import opened KernelSystem
  import opened KernelSafety

  // ---- the division ----

  /** Some share is negative exactly when the budget is: the last warden then gets less than nothing. */
  lemma SharesNonneg(budget: Vector, n: nat)
    requires n > 0
    ensures (forall i :: 0 <= i < n ==> Nonneg(Share(budget, n, i))) <==> Nonneg(budget)
  {
    if j :| 0 <= j < |budget| && budget[j] < 0 {
      assert Share(budget, n, n - 1)[j] < 0;
    }
  }

  /** A system can be set up exactly when there is a warden and nothing in the budget is negative. */
  lemma SetUpExactlyWhen(budget: Vector, ids: seq<string>)
    ensures NewSystem(budget, ids).Some? <==> ids != [] && Nonneg(budget)
  {
    if ids != [] {
      SharesNonneg(budget, |ids|);
    }
  }

  // ---- transfers ----

  /** Nothing but this warden and this transfer differs. */
  ghost predicate OnlyTransfer(s: System, warden: string, id: string, after: System) {
    && warden in s.wardens && warden in after.wardens && id in after.transfers
    && after == s.(wardens := s.wardens[warden := after.wardens[warden]], transfers := s.transfers[id := after.transfers[id]])
  }

  /**
   * A transfer is prepared exactly when its ends differ and the source is known and covers it; the
   * source pays at once, and the target need not exist.
   */
  lemma PreparesExactlyWhen(s: System, id: string, source: string, target: string, amount: Vector)
    ensures var r := PrepareTransfer(s, id, source, target, amount);
      && (r.Did? <==> source != target && source in s.wardens && Covers(s.wardens[source].pool, amount))
      && (r.Did? ==>
            && OnlyTransfer(s, source, id, r.system)
            && r.system.transfers[id] == Transfer(source, target, amount, false) == r.value
            && var w, v := s.wardens[source], r.system.wardens[source];
               v == w.(pool := v.pool) && Less(w.pool, amount, v.pool))
  {
    if source in s.wardens {
      SubExactly(s.wardens[source].pool, amount);
    }
  }

  /**
   * A transfer is accepted exactly when it is known, its target exists, and it has not been accepted
   * before; the target is credited once, and every repeat answers no and changes nothing.
   */
  lemma AcceptsExactlyWhen(s: System, id: string)
    requires Consistent(s)
    ensures var r := AcceptTransfer(s, id);
      && (r.Did? <==> id in s.transfers && s.transfers[id].target in s.wardens)
      && (r.Did? ==> r.value == !s.transfers[id].accepted)
      && (r.Did? && !r.value ==> r.system == s)
      && (r.Did? && r.value ==>
            var t := s.transfers[id];
            && OnlyTransfer(s, t.target, id, r.system)
            && r.system.transfers[id] == t.(accepted := true)
            && var w, v := s.wardens[t.target], r.system.wardens[t.target];
               v == w.(pool := v.pool, accepted := w.accepted + {id}) && Less(v.pool, t.amount, w.pool))
  {
    if id in s.transfers && s.transfers[id].target in s.wardens {
      assert AcceptedAt(s, id) && SoundAt(s, s.transfers[id].target);
      AddExactly(s.wardens[s.transfers[id].target].pool, s.transfers[id].amount);
    }
  }

  // ---- balances ----

  /** Component `j` of every transfer sent by the warden. */
  function SentAt(s: System, id: string, j: nat): map<string, int>
    requires Consistent(s) && j < |s.budget|
  {
    map t | t in s.transfers :: assert AcceptedAt(s, t); if s.transfers[t].source == id then s.transfers[t].amount[j] else 0
  }

  /** Component `j` of every transfer the warden has accepted. */
  function LandedAt(s: System, id: string, j: nat): map<string, int>
    requires Consistent(s) && j < |s.budget|
  {
    map t | t in s.transfers ::
      assert AcceptedAt(s, t); if s.transfers[t].target == id && s.transfers[t].accepted then s.transfers[t].amount[j] else 0
  }

  /** What the warden holds and has consumed, and what it sent away, less what it took in. */
  ghost function Own(s: System, id: string, j: nat): int
    requires Consistent(s) && j < |s.budget| && id in s.wardens
  {
    HeldBy(s, id, j) + Total(SentAt(s, id, j)) - Total(LandedAt(s, id, j))
  }

  /** A call on some warden leaves what every warden owns. */
  lemma CallKeepsOwn(s: System, warden: string, c: Call, id: string, j: nat)
    requires Consistent(s) && warden in s.wardens && FreshCall(s.wardens[warden], c) && j < |s.budget| && id in s.wardens
    ensures var after := Step(s, OnWarden(warden, c));
      Consistent(after) && after.budget == s.budget && id in after.wardens && Own(after, id, j) == Own(s, id, j)
  {
    var after := Step(s, OnWarden(warden, c));
    StepConsistent(s, OnWarden(warden, c));
    assert SoundAt(s, warden) && SoundAt(s, id) && SoundAt(after, id);
    ApplyKeeps(s.wardens[warden], c);
    TransfersAlike(s, after, id, j);
  }

  lemma TransfersAlike(s: System, after: System, id: string, j: nat)
    requires Consistent(s) && Consistent(after) && after.budget == s.budget && j < |s.budget| && after.transfers == s.transfers
    ensures Total(SentAt(after, id, j)) == Total(SentAt(s, id, j))
    ensures Total(LandedAt(after, id, j)) == Total(LandedAt(s, id, j))
  {
    assert SentAt(after, id, j) == SentAt(s, id, j);
    assert LandedAt(after, id, j) == LandedAt(s, id, j);
  }

  lemma SentOne(s: System, after: System, x: string, t: Transfer, id: string, j: nat)
    requires Consistent(s) && Consistent(after) && after.budget == s.budget && j < |s.budget|
    requires x !in s.transfers && !t.accepted && after.transfers == s.transfers[x := t] && |t.amount| == |s.budget|
    ensures Total(SentAt(after, id, j)) == Total(SentAt(s, id, j)) + if t.source == id then t.amount[j] else 0
    ensures Total(LandedAt(after, id, j)) == Total(LandedAt(s, id, j))
  {
    var v := if t.source == id then t.amount[j] else 0;
    SentGrows(s, after, x, t, id, j, v);
    LandedGrows(s, after, x, t, id, j);
    TotalInsert(SentAt(s, id, j), x, v);
    TotalInsert(LandedAt(s, id, j), x, 0);
  }

  /** Every transfer has the dimension of the budget. */
  lemma AmountsFit(s: System)
    requires Consistent(s)
    ensures forall y :: y in s.transfers ==> |s.transfers[y].amount| == |s.budget|
  {
    forall y | y in s.transfers ensures |s.transfers[y].amount| == |s.budget| {
      assert AcceptedAt(s, y);
    }
  }

  lemma SentGrows(s: System, after: System, x: string, t: Transfer, id: string, j: nat, v: int)
    requires Consistent(s) && Consistent(after) && after.budget == s.budget && j < |s.budget|
    requires x !in s.transfers && after.transfers == s.transfers[x := t] && |t.amount| == |s.budget|
    requires v == if t.source == id then t.amount[j] else 0
    ensures SentAt(after, id, j) == SentAt(s, id, j)[x := v]
  {
    AmountsFit(s);
    AmountsFit(after);
  }

  lemma LandedGrows(s: System, after: System, x: string, t: Transfer, id: string, j: nat)
    requires Consistent(s) && Consistent(after) && after.budget == s.budget && j < |s.budget|
    requires x !in s.transfers && !t.accepted && after.transfers == s.transfers[x := t]
    ensures LandedAt(after, id, j) == LandedAt(s, id, j)[x := 0]
  {
    AmountsFit(s);
    AmountsFit(after);
  }

  lemma SentStays(s: System, after: System, x: string, id: string, j: nat)
    requires Consistent(s) && Consistent(after) && after.budget == s.budget && j < |s.budget|
    requires x in s.transfers && after.transfers == s.transfers[x := s.transfers[x].(accepted := true)]
    ensures SentAt(after, id, j) == SentAt(s, id, j)
  {
    AmountsFit(s);
    AmountsFit(after);
  }

  lemma LandedTurns(s: System, after: System, x: string, id: string, j: nat, v: int)
    requires Consistent(s) && Consistent(after) && after.budget == s.budget && j < |s.budget|
    requires x in s.transfers && after.transfers == s.transfers[x := s.transfers[x].(accepted := true)]
    requires |s.transfers[x].amount| == |s.budget| && v == if s.transfers[x].target == id then s.transfers[x].amount[j] else 0
    ensures LandedAt(after, id, j) == LandedAt(s, id, j)[x := v]
  {
    AmountsFit(s);
    AmountsFit(after);
  }

  lemma LandedOne(s: System, after: System, x: string, id: string, j: nat)
    requires Consistent(s) && Consistent(after) && after.budget == s.budget && j < |s.budget|
    requires x in s.transfers && !s.transfers[x].accepted
    requires after.transfers == s.transfers[x := s.transfers[x].(accepted := true)]
    ensures AcceptedAt(s, x) && Total(SentAt(after, id, j)) == Total(SentAt(s, id, j))
    ensures Total(LandedAt(after, id, j)) ==
      Total(LandedAt(s, id, j)) + if s.transfers[x].target == id then s.transfers[x].amount[j] else 0
  {
    assert AcceptedAt(s, x);
    var v := if s.transfers[x].target == id then s.transfers[x].amount[j] else 0;
    SentStays(s, after, x, id, j);
    LandedTurns(s, after, x, id, j, v);
    TotalUpdate(LandedAt(s, id, j), x, v);
  }

  lemma PrepareKeepsOwn(s: System, m: Move, id: string, j: nat)
    requires Consistent(s) && m.Prepare? && FreshMove(s, m) && j < |s.budget| && id in s.wardens
    ensures var after := Step(s, m);
      Consistent(after) && after.budget == s.budget && id in after.wardens && Own(after, id, j) == Own(s, id, j)
  {
    var after := Step(s, m);
    StepConsistent(s, m);
    PreparesExactlyWhen(s, m.id, m.source, m.target, m.amount);
    if PrepareTransfer(s, m.id, m.source, m.target, m.amount).Did? {
      assert SoundAt(s, m.source) && SoundAt(s, id) && SoundAt(after, id);
      PoolChangeSound(s.wardens[m.source], after.wardens[m.source].pool, s.wardens[m.source].accepted);
      SentOne(s, after, m.id, after.transfers[m.id], id, j);
    }
  }

  lemma AcceptKeepsOwn(s: System, x: string, id: string, j: nat)
    requires Consistent(s) && j < |s.budget| && id in s.wardens
    ensures var after := Step(s, Accept(x));
      Consistent(after) && after.budget == s.budget && id in after.wardens && Own(after, id, j) == Own(s, id, j)
  {
    var after := Step(s, Accept(x));
    StepConsistent(s, Accept(x));
    AcceptsExactlyWhen(s, x);
    var r := AcceptTransfer(s, x);
    if r.Did? && r.value {
      var target := s.transfers[x].target;
      assert SoundAt(s, target) && SoundAt(s, id) && SoundAt(after, id);
      PoolChangeSound(s.wardens[target], after.wardens[target].pool, after.wardens[target].accepted);
      LandedOne(s, after, x, id, j);
    }
  }

  lemma StepKeepsOwn(s: System, m: Move, id: string, j: nat)
    requires Consistent(s) && FreshMove(s, m) && j < |s.budget| && id in s.wardens
    ensures var after := Step(s, m);
      Consistent(after) && after.budget == s.budget && id in after.wardens && Own(after, id, j) == Own(s, id, j)
  {
    match m
    case OnWarden(warden, call) =>
      if warden in s.wardens {
        CallKeepsOwn(s, warden, call, id, j);
      }
    case Prepare(_, _, _, _) => PrepareKeepsOwn(s, m, id, j);
    case Accept(x) => AcceptKeepsOwn(s, x, id, j);
  }

  lemma {:induction false} RunKeepsOwn(s: System, moves: seq<Move>, id: string, j: nat)
    requires Consistent(s) && FreshMoves(s, moves) && j < |s.budget| && id in s.wardens
    ensures var after := RunMoves(s, moves);
      Consistent(after) && after.budget == s.budget && id in after.wardens && Own(after, id, j) == Own(s, id, j)
    decreases |moves|
  {
    if moves != [] {
      StepKeepsOwn(s, moves[0], id, j);
      RunKeepsOwn(Step(s, moves[0]), moves[1..], id, j);
    }
  }

  /**
   * From any budget, after every run, at every warden and in every component: pool, consumption and
   * residuals, and all that was sent, add up to the warden's share and all that it accepted.
   */
  lemma EveryWardenBalances(budget: Vector, ids: seq<string>, moves: seq<Move>, i: nat, j: nat)
    requires Distinct(ids) && NewSystem(budget, ids).Some? && FreshMoves(NewSystem(budget, ids).value, moves)
    requires i < |ids| && j < |budget|
    ensures var s := RunMoves(NewSystem(budget, ids).value, moves);
      && Consistent(s) && s.budget == budget && ids[i] in s.wardens
      && HeldBy(s, ids[i], j) + Total(SentAt(s, ids[i], j)) ==
         Share(budget, |ids|, i)[j] + Total(LandedAt(s, ids[i], j))
  {
    var s := NewSystem(budget, ids).value;
    FreshConsistent(budget, ids, |ids|);
    FirstWardensKnown(budget, ids, |ids|);
    NewWardenSound(ids[i], Share(budget, |ids|, i), j);
    assert SentAt(s, ids[i], j) == map[] && LandedAt(s, ids[i], j) == map[];
    RunKeepsOwn(s, moves, ids[i], j);
  }
}
