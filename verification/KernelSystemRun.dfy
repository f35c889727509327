/**
 * Whole runs on the objects of a system: built as the source builds it, and moved by calls on its
 * wardens and by transfers, it holds what the specification's run holds, and so accounts for its
 * budget at every moment.
 */
module KernelSystemRun {
  import opened Common
  import opened Shares
  import opened KernelSpec
  import opened KernelInvariant
  import opened KernelGuarantees
  import opened KernelSystem
  import opened KernelSafety
  import opened KernelHeap
  import opened KernelRun
  import opened KernelSystemHeap

  /** Warden objects, all new and holding no lease, with the shares of the first `k` names. */
  ghost predicate Founded(wardens: map<string, WardenObject>, budget: Vector, ids: seq<string>, k: nat)
    requires k <= |ids| && |ids| > 0
    reads wardens.Values
  {
    && wardens.Keys == FirstWardens(budget, ids, k).Keys
    && (forall a :: a in wardens ==> wardens[a].leases == map[] && wardens[a].View() == FirstWardens(budget, ids, k)[a])
    && (forall a, b :: a in wardens && b in wardens && a != b ==> wardens[a] != wardens[b])
  }

  /** One more warden, with its share. */
  method FoundWarden(wardens: map<string, WardenObject>, budget: Vector, ids: seq<string>, k: nat)
    returns (more: map<string, WardenObject>)
    requires k < |ids| && Founded(wardens, budget, ids, k)
    ensures Founded(more, budget, ids, k + 1)
    ensures forall a :: a in more ==> fresh(more[a]) || (a in wardens && more[a] == wardens[a])
  {
    var w := new WardenObject(ids[k], Share(budget, |ids|, k));
    more := wardens[ids[k] := w];
    assert w.leases == map[] by {
      assert w.Table() == map[];
      assert w.leases.Keys == w.Table().Keys;
    }
  }

  /** The division of the budget; `None` is the error for no wardens or a negative share. */
  method NewSystemObject(budget: Vector, ids: seq<string>) returns (system: Option<SystemObject>)
    ensures system.Some? <==> NewSystem(budget, ids).Some?
    ensures system.Some? ==> fresh(system.value) && system.value.Valid()
    ensures system.Some? ==> system.value.View() == NewSystem(budget, ids).value
  {
    if ids == [] {
      return None;
    }
    var wardens: map<string, WardenObject> := map[];
    for k := 0 to |ids|
      invariant Founded(wardens, budget, ids, k) && forall a :: a in wardens ==> fresh(wardens[a])
      invariant forall i :: 0 <= i < k ==> Nonneg(Share(budget, |ids|, i))
    {
      if exists j :: 0 <= j < |budget| && Share(budget, |ids|, k)[j] < 0 {
        assert !Nonneg(Share(budget, |ids|, k));
        return None;
      }
      wardens := FoundWarden(wardens, budget, ids, k);
    }
    var s := Assemble(budget, ids, wardens);
    system := Some(s);
  }

  method Assemble(budget: Vector, ids: seq<string>, wardens: map<string, WardenObject>) returns (s: SystemObject)
    requires ids != [] && Founded(wardens, budget, ids, |ids|)
    ensures fresh(s) && s.Valid() && s.View() == System(budget, FirstWardens(budget, ids, |ids|), map[])
  {
    s := new SystemObject(budget, wardens);
    assert s.Values() == FirstWardens(budget, ids, |ids|);
  }

  /** A call on one warden object leaves every other warden's values alone. */
  method PerformBeside(s: SystemObject, id: string, c: Call) returns (raised: bool)
    requires s.Valid() && id in s.wardens && Sound(s.wardens[id].View()) && FreshCall(s.wardens[id].View(), c)
    modifies s.wardens[id], s.wardens[id].leases.Values
    ensures s.wardens[id].Valid() && s.wardens[id].View() == Apply(old(s.wardens[id].View()), c)
    ensures raised == Raises(old(s.wardens[id].View()), c)
    ensures forall x :: x in s.wardens[id].leases ==>
      s.wardens[id].leases[x] in old(s.wardens[id].leases.Values) || fresh(s.wardens[id].leases[x])
    ensures forall x :: x in s.wardens && x != id ==>
      s.wardens[x].View() == old(s.wardens[x].View()) && s.wardens[x].leases == old(s.wardens[x].leases)
  {
    ghost var before := s.Values();
    raised := Perform(s.wardens[id], c);
    forall x | x in s.wardens && x != id
      ensures s.wardens[x].View() == before[x] && s.wardens[x].leases == old(s.wardens[x].leases)
    {
      assert old(Apart(s.wardens[x], s.wardens[id]));
    }
  }

  /** The lease objects of each warden. */
  ghost function Owned(s: SystemObject): map<string, set<LeaseObject>>
    reads s.wardens.Values`leases
  {
    map x | x in s.wardens :: s.wardens[x].leases.Values
  }

  /** If one warden has gained only objects nobody had, no two wardens share one. */
  lemma StaysValid(s: SystemObject, id: string, was: map<string, set<LeaseObject>>, born: set<LeaseObject>)
    requires id in s.wardens && was.Keys == s.wardens.Keys && forall a :: a in s.wardens ==> s.wardens[a].Valid()
    requires forall a, b :: a in was && b in was && a != b ==> s.wardens[a] != s.wardens[b] && was[a] !! was[b]
    requires forall a :: a in was ==> born !! was[a]
    requires forall a :: a in s.wardens ==> s.wardens[a].leases.Values <= was[a] + if a == id then born else {}
    ensures s.Valid()
  {
    forall a, b | a in s.wardens && b in s.wardens && a != b ensures Apart(s.wardens[a], s.wardens[b]) {
      assert was[a] !! was[b] && born !! was[a] && born !! was[b];
    }
  }

  method PerformValid(s: SystemObject, id: string, c: Call) returns (raised: bool)
    requires s.Valid() && id in s.wardens && Sound(s.wardens[id].View()) && FreshCall(s.wardens[id].View(), c)
    modifies s.wardens[id], s.wardens[id].leases.Values
    ensures s.Valid() && s.wardens[id].View() == Apply(old(s.wardens[id].View()), c)
    ensures raised == Raises(old(s.wardens[id].View()), c)
    ensures forall a, x :: a in s.wardens && x in s.wardens[a].leases ==>
      s.wardens[a].leases[x] in old(s.wardens[a].leases.Values) || fresh(s.wardens[a].leases[x])
    ensures forall x :: x in s.wardens && x != id ==> s.wardens[x].View() == old(s.wardens[x].View())
  {
    ghost var was := Owned(s);
    assert forall a, b :: a in was && b in was && a != b ==> Apart(s.wardens[a], s.wardens[b]);
    raised := PerformBeside(s, id, c);
    StaysValid(s, id, was, s.wardens[id].leases.Values - was[id]);
  }

  method PerformAt(s: SystemObject, id: string, c: Call) returns (raised: bool)
    requires s.Valid() && id in s.wardens && Sound(s.wardens[id].View()) && FreshCall(s.wardens[id].View(), c)
    modifies s.wardens[id], s.wardens[id].leases.Values
    ensures s.Valid() && s.Values() == old(s.Values())[id := Apply(old(s.Values())[id], c)]
    ensures raised == Raises(old(s.Values())[id], c)
    ensures forall a, x :: a in s.wardens && x in s.wardens[a].leases ==>
      s.wardens[a].leases[x] in old(s.wardens[a].leases.Values) || fresh(s.wardens[a].leases[x])
  {
    ghost var before := s.Values();
    assert before[id] == s.wardens[id].View();
    raised := PerformValid(s, id, c);
    s.ValuesAre(before[id := Apply(before[id], c)]);
  }

  method PerformMove(s: SystemObject, m: Move)
    requires s.Valid() && Consistent(s.View()) && FreshMove(s.View(), m)
    modifies s, s.wardens.Values, s.Leases()
    ensures s.Valid() && s.View() == Step(old(s.View()), m)
    ensures forall a, x :: a in s.wardens && x in s.wardens[a].leases ==>
      s.wardens[a].leases[x] in old(s.wardens[a].leases.Values) || fresh(s.wardens[a].leases[x])
  {
    match m
    case OnWarden(id, call) =>
      if id in s.wardens {
        assert SoundAt(s.View(), id) && s.View().wardens[id] == s.wardens[id].View();
        var raised := PerformAt(s, id, call);
      }
    case Prepare(id, source, target, amount) =>
      var error := s.PrepareTransfer(id, source, target, amount);
    case Accept(id) =>
      var credited := s.AcceptTransfer(id);
  }

  /** A list of moves on the objects is the specification's run, and what it holds adds up to the budget. */
  method PerformMoves(s: SystemObject, moves: seq<Move>)
    requires s.Valid() && Conserved(s.View()) && FreshMoves(s.View(), moves)
    modifies s, s.wardens.Values, s.Leases()
    ensures s.Valid() && s.View() == RunMoves(old(s.View()), moves) && Conserved(s.View())
  {
    for i := 0 to |moves|
      invariant s.Valid() && Conserved(s.View()) && FreshMoves(s.View(), moves[i..])
      invariant RunMoves(s.View(), moves[i..]) == RunMoves(old(s.View()), moves)
      invariant forall a, x :: a in s.wardens && x in s.wardens[a].leases ==>
        s.wardens[a].leases[x] in old(s.wardens[a].leases.Values) || fresh(s.wardens[a].leases[x])
    {
      assert moves[i..][0] == moves[i] && moves[i..][1..] == moves[i + 1..];
      StepConserves(s.View(), moves[i]);
      PerformMove(s, moves[i]);
    }
  }
}
