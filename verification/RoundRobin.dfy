/**
 * Smooth weighted round robin: every turn each site gains its weight, the site with the highest
 * accumulator (the first one, on a tie) is picked and pays the total weight.
 */
module RoundRobin {
  import opened Common

  predicate Proper(weights: seq<int>) {
    Sum(weights) > 0 && forall i :: 0 <= i < |weights| ==> 0 <= weights[i]
  }

  // ---- one turn ----

  function Gain(acc: seq<int>, weights: seq<int>): seq<int>
    requires |acc| == |weights|
  {
    seq(|acc|, i requires 0 <= i < |acc| && |acc| == |weights| => acc[i] + weights[i])
  }

  /** The position of the first maximum. */
  function FirstMax(acc: seq<int>): (k: nat)
    requires acc != []
    ensures k < |acc|
  {
    if |acc| == 1 then 0 else
      var k := FirstMax(acc[..|acc| - 1]);
      if acc[k] < acc[|acc| - 1] then |acc| - 1 else k
  }

  predicate IsFirstMax(acc: seq<int>, k: nat)
    requires k < |acc|
  {
    forall j :: 0 <= j < |acc| ==> acc[j] <= acc[k] && (j < k ==> acc[j] < acc[k])
  }

  lemma {:induction false} FirstMaxIs(acc: seq<int>)
    requires acc != []
    ensures IsFirstMax(acc, FirstMax(acc))
  {
    if |acc| > 1 {
      var front := acc[..|acc| - 1];
      FirstMaxIs(front);
      assert forall j :: 0 <= j < |front| ==> front[j] == acc[j];
    }
  }

  function Pay(acc: seq<int>, k: nat, total: int): seq<int>
    requires k < |acc|
  {
    acc[k := acc[k] - total]
  }

  function Turn(acc: seq<int>, weights: seq<int>): seq<int>
    requires |acc| == |weights| > 0
  {
    var gained := Gain(acc, weights);
    Pay(gained, FirstMax(gained), Sum(weights))
  }

  function Iterate<T>(step: T -> T, x: T, n: nat): T {
    if n == 0 then x else step(Iterate(step, x, n - 1))
  }

  function Stepper(weights: seq<int>): seq<int> -> seq<int> {
    (acc: seq<int>) => if |acc| == |weights| && acc != [] then Turn(acc, weights) else acc
  }

  /** The accumulators after `n` turns from `acc`. */
  function After(acc: seq<int>, weights: seq<int>, n: nat): seq<int> {
    Iterate(Stepper(weights), acc, n)
  }

  lemma {:induction false} AfterLength(acc: seq<int>, weights: seq<int>, n: nat)
    requires |acc| == |weights| > 0
    ensures |After(acc, weights, n)| == |weights|
    ensures n > 0 ==> |After(acc, weights, n - 1)| == |weights|
    ensures n > 0 ==> After(acc, weights, n) == Turn(After(acc, weights, n - 1), weights)
    decreases n
  {
    if n > 0 {
      AfterLength(acc, weights, n - 1);
    }
  }

  /** The site picked at turn `i` from `acc`. */
  function PickAt(acc: seq<int>, weights: seq<int>, i: nat): (site: nat)
    requires |acc| == |weights| > 0
    ensures site < |weights|
  {
    AfterLength(acc, weights, i);
    FirstMax(Gain(After(acc, weights, i), weights))
  }

  /** The sites picked in the `n` turns from `acc`. */
  function PicksFrom(acc: seq<int>, weights: seq<int>, n: nat): seq<nat>
    requires |acc| == |weights| > 0
  {
    seq(n, i requires 0 <= i < n => PickAt(acc, weights, i))
  }

  function Accumulators(weights: seq<int>, n: nat): (acc: seq<int>)
    requires weights != []
    ensures |acc| == |weights|
  {
    AfterLength(Zeros(|weights|), weights, n);
    After(Zeros(|weights|), weights, n)
  }

  function Picks(weights: seq<int>, n: nat): seq<nat>
    requires weights != []
  {
    PicksFrom(Zeros(|weights|), weights, n)
  }

  function Count(picks: seq<nat>, site: nat): nat {
    if picks == [] then 0 else Count(picks[..|picks| - 1], site) + if picks[|picks| - 1] == site then 1 else 0
  }

  // ---- the law of the accumulators ----

  lemma GainSum(acc: seq<int>, weights: seq<int>)
    requires |acc| == |weights|
    ensures Sum(Gain(acc, weights)) == Sum(acc) + Sum(weights)
  {
    SumPlus(acc, weights, Gain(acc, weights));
  }

  lemma {:induction false} SomePositive(xs: seq<int>)
    requires Sum(xs) > 0
    ensures exists i :: 0 <= i < |xs| && xs[i] > 0
  {
    if xs[|xs| - 1] <= 0 {
      SomePositive(xs[..|xs| - 1]);
      var i :| 0 <= i < |xs| - 1 && xs[..|xs| - 1][i] > 0;
      assert xs[i] > 0;
    }
  }

  predicate Balanced(acc: seq<int>, total: int) {
    Sum(acc) == 0 && forall i :: 0 <= i < |acc| ==> -total < acc[i]
  }

  /** Someone has a positive accumulator when it is time to pick, so the one picked can pay. */
  lemma TurnBalances(acc: seq<int>, weights: seq<int>)
    requires |acc| == |weights| > 0 && Proper(weights) && Balanced(acc, Sum(weights))
    ensures Balanced(Turn(acc, weights), Sum(weights))
  {
    var gained := Gain(acc, weights);
    var k := FirstMax(gained);
    GainSum(acc, weights);
    FirstMaxIs(gained);
    SomePositive(gained);
    SumUpdate(gained, k, gained[k] - Sum(weights));
  }

  /** Accumulators always sum to zero, and none falls to minus the total weight. */
  lemma {:induction false} AccumulatorsBalance(weights: seq<int>, n: nat)
    requires Proper(weights) && weights != []
    ensures Balanced(Accumulators(weights, n), Sum(weights))
    decreases n
  {
    if n == 0 {
      SumZeros(Accumulators(weights, 0));
    } else {
      AccumulatorsBalance(weights, n - 1);
      Grows(weights, n - 1);
      TurnBalances(Accumulators(weights, n - 1), weights);
    }
  }

  lemma Grows(weights: seq<int>, n: nat)
    requires weights != []
    ensures Accumulators(weights, n + 1) == Turn(Accumulators(weights, n), weights)
    ensures Picks(weights, n + 1) == Picks(weights, n) + [FirstMax(Gain(Accumulators(weights, n), weights))]
  {
    AfterLength(Zeros(|weights|), weights, n + 1);
  }

  lemma TurnAt(weights: seq<int>, n: nat, site: nat)
    requires site < |weights|
    ensures var picked := FirstMax(Gain(Accumulators(weights, n), weights)) == site;
      && Accumulators(weights, n + 1)[site] ==
           Accumulators(weights, n)[site] + weights[site] - (if picked then Sum(weights) else 0)
      && Count(Picks(weights, n + 1), site) == Count(Picks(weights, n), site) + if picked then 1 else 0
  {
    Grows(weights, n);
    assert Picks(weights, n + 1)[..n] == Picks(weights, n);
  }

  lemma DebtStep(before: int, w: int, total: int, n: nat, count: nat, picked: bool)
    requires before == n * w - total * count
    ensures before + w - (if picked then total else 0) == (n + 1) * w - total * (count + if picked then 1 else 0)
  {
  }

  /** A site's accumulator is what it has earned less what it has paid. */
  lemma {:induction false} AccumulatorIsDebt(weights: seq<int>, n: nat, site: nat)
    requires site < |weights|
    ensures Accumulators(weights, n)[site] == n * weights[site] - Sum(weights) * Count(Picks(weights, n), site)
    decreases n
  {
    if n > 0 {
      AccumulatorIsDebt(weights, n - 1, site);
      TurnAt(weights, n - 1, site);
      DebtStep(Accumulators(weights, n - 1)[site], weights[site], Sum(weights), n - 1,
        Count(Picks(weights, n - 1), site), FirstMax(Gain(Accumulators(weights, n - 1), weights)) == site);
    }
  }

  /** What a site is owed at turn `n`, given the picks so far: its share of the turns less what it has had. */
  function Owed(weights: seq<int>, picks: seq<nat>, site: nat): int
    requires site < |weights|
  {
    (|picks| + 1) * weights[site] - Sum(weights) * Count(picks, site)
  }

  /** Every turn goes to the site that is owed most, and of those owed equally to the first. */
  lemma PickIsOwedMost(weights: seq<int>, n: nat, other: nat)
    requires other < |weights|
    ensures var picks, site := Picks(weights, n), Picks(weights, n + 1)[n];
      && Picks(weights, n + 1) == picks + [site] && site < |weights|
      && Owed(weights, picks, other) <= Owed(weights, picks, site)
      && (other < site ==> Owed(weights, picks, other) < Owed(weights, picks, site))
  {
    Grows(weights, n);
    var gained := Gain(Accumulators(weights, n), weights);
    FirstMaxIs(gained);
    GainIsOwed(weights, n, other);
    GainIsOwed(weights, n, FirstMax(gained));
  }

  lemma GainIsOwed(weights: seq<int>, n: nat, site: nat)
    requires site < |weights|
    ensures Gain(Accumulators(weights, n), weights)[site] == Owed(weights, Picks(weights, n), site)
  {
    AccumulatorIsDebt(weights, n, site);
    assert |Picks(weights, n)| == n && (n + 1) * weights[site] == n * weights[site] + weights[site];
  }

  /**
   * After any number of turns a site has had less than one pick more than its exact share, and
   * fewer than one pick short of it for every other site.
   */
  lemma PicksTrackShares(weights: seq<int>, n: nat, site: nat)
    requires Proper(weights) && site < |weights|
    ensures Sum(weights) * Count(Picks(weights, n), site) < n * weights[site] + Sum(weights)
    ensures n * weights[site] <= Sum(weights) * Count(Picks(weights, n), site) + (|weights| - 1) * Sum(weights)
  {
    AccumulatorsBalance(weights, n);
    AccumulatorIsDebt(weights, n, site);
    OthersBound(Accumulators(weights, n), site, Sum(weights));
  }

  lemma OthersBound(acc: seq<int>, site: nat, total: int)
    requires site < |acc| && Sum(acc) == 0 && total > 0 && forall i :: 0 <= i < |acc| ==> -total < acc[i]
    ensures acc[site] <= (|acc| - 1) * total
  {
    var floor := seq(|acc|, i requires 0 <= i < |acc| => if i == site then acc[site] else -total);
    SumMonotone(floor, acc);
    FloorSum(acc, site, total, floor);
  }

  lemma {:induction false} FloorSum(acc: seq<int>, site: nat, total: int, floor: seq<int>)
    requires site < |acc| == |floor|
    requires forall i :: 0 <= i < |floor| ==> floor[i] == if i == site then acc[site] else -total
    ensures Sum(floor) == acc[site] - (|acc| - 1) * total
  {
    var flat := seq(|acc|, i => -total);
    assert floor == flat[site := acc[site]];
    SumUpdate(flat, site, acc[site]);
    ConstantSum(|acc|, -total);
    assert -total * |acc| == -total * (|acc| - 1) - total;
  }

  lemma {:induction false} ConstantSum(n: nat, x: int)
    ensures Sum(seq(n, i => x)) == x * n
  {
    if n > 0 {
      ConstantSum(n - 1, x);
      assert seq(n, i => x)[..n - 1] == seq(n - 1, i => x);
      assert x * n == x * (n - 1) + x;
    }
  }

  // ---- whole rounds ----

  lemma Regroup(k: nat, total: int, w: int, c: int)
    ensures (k * total) * w - total * c == total * (k * w - c)
  {
  }

  lemma MultipleAbove(total: int, factor: int, x: int)
    requires total > 0 && x == total * factor && -total < x
    ensures 0 <= x
  {
    assert factor < 0 ==> total * factor <= -total;
  }

  lemma AfterRoundsNonneg(weights: seq<int>, k: nat, n: nat, site: nat)
    requires Proper(weights) && site < |weights| && n == k * Sum(weights)
    ensures 0 <= Accumulators(weights, n)[site]
    ensures Accumulators(weights, n)[site] == Sum(weights) * (k * weights[site] - Count(Picks(weights, n), site))
  {
    var c := Count(Picks(weights, n), site);
    AccumulatorsBalance(weights, n);
    AccumulatorIsDebt(weights, n, site);
    Regroup(k, Sum(weights), weights[site], c);
    MultipleAbove(Sum(weights), k * weights[site] - c, Accumulators(weights, n)[site]);
  }

  /** After every whole number of rounds all accumulators are back at zero. */
  lemma RoundResets(weights: seq<int>, k: nat, n: nat, site: nat)
    requires Proper(weights) && site < |weights| && n == k * Sum(weights)
    ensures Accumulators(weights, n)[site] == 0
  {
    var acc := Accumulators(weights, n);
    AccumulatorsBalance(weights, n);
    forall i | 0 <= i < |weights| ensures 0 <= acc[i] {
      AfterRoundsNonneg(weights, k, n, i);
    }
    SumNonneg(acc);
  }

  /** After every multiple `k` of the total weight each site has had exactly `k` times its weight. */
  lemma RoundsAreExact(weights: seq<int>, k: nat, n: nat, site: nat)
    requires Proper(weights) && site < |weights| && n == k * Sum(weights)
    ensures Count(Picks(weights, n), site) == k * weights[site]
  {
    RoundResets(weights, k, n, site);
    AfterRoundsNonneg(weights, k, n, site);
    ZeroFactor(Sum(weights), k * weights[site] - Count(Picks(weights, n), site));
  }

  lemma ZeroFactor(total: int, factor: int)
    requires total > 0 && total * factor == 0
    ensures factor == 0
  {
    assert factor > 0 ==> total * factor >= total;
    assert factor < 0 ==> total * factor <= -total;
  }

  lemma OneRound(weights: seq<int>)
    requires Proper(weights) && weights != []
    ensures Accumulators(weights, Sum(weights)) == Accumulators(weights, 0)
  {
    var acc := Accumulators(weights, Sum(weights));
    forall i | 0 <= i < |weights| ensures acc[i] == 0 {
      RoundResets(weights, 1, Sum(weights), i);
    }
  }

  lemma {:induction false} IterateComposes<T>(step: T -> T, x: T, m: nat, n: nat)
    ensures Iterate(step, x, m + n) == Iterate(step, Iterate(step, x, m), n)
    decreases n
  {
    if n > 0 {
      IterateComposes(step, x, m, n - 1);
    }
  }

  lemma ReturnRepeats<T>(step: T -> T, x: T, m: nat, i: nat)
    requires Iterate(step, x, m) == x
    ensures Iterate(step, x, m + i) == Iterate(step, x, i)
  {
    IterateComposes(step, x, m, i);
  }

  lemma AfterRepeats(acc: seq<int>, weights: seq<int>, round: nat, i: nat)
    requires |acc| == |weights| > 0 && After(acc, weights, round) == acc
    ensures PickAt(acc, weights, round + i) == PickAt(acc, weights, i)
  {
    ReturnRepeats(Stepper(weights), acc, round, i);
  }

  /** The schedule repeats: after a whole round of `round` turns the same sites are picked again. */
  lemma ScheduleRepeats(weights: seq<int>, round: nat, i: nat)
    requires Proper(weights) && weights != [] && round == Sum(weights)
    ensures PickAt(Zeros(|weights|), weights, round + i) == PickAt(Zeros(|weights|), weights, i)
  {
    OneRound(weights);
    AfterRepeats(Zeros(|weights|), weights, round, i);
  }

  // ---- the loops ----

  /** The source's schedule over three sites; `None` is its error for improper input. */
  method Schedule(total: int, weights: seq<int>) returns (result: Option<seq<nat>>)
    requires |weights| == 3
    ensures result.None? <==> total <= 0 || Sum(weights) <= 0 || weights[0] < 0 || weights[1] < 0 || weights[2] < 0
    ensures result.Some? ==> result.value == Picks(weights, total)
  {
    if total <= 0 || Sum(weights) <= 0 || exists i :: 0 <= i < |weights| && weights[i] < 0 {
      return None;
    }
    var picks: seq<nat> := [];
    var accumulator := new int[3](_ => 0);
    assert accumulator[..] == Accumulators(weights, 0);
    for turn := 0 to total
      invariant picks == Picks(weights, turn) && accumulator[..] == Accumulators(weights, turn)
    {
      Grows(weights, turn);
      var selected := TakeTurn(accumulator, weights);
      picks := picks + [selected];
    }
    return Some(picks);
  }

  /** One turn in place: everyone gains, the first maximum is selected and pays. */
  method TakeTurn(accumulator: array<int>, weights: seq<int>) returns (selected: nat)
    requires accumulator.Length == |weights| > 0
    modifies accumulator
    ensures selected == FirstMax(Gain(old(accumulator[..]), weights))
    ensures accumulator[..] == Turn(old(accumulator[..]), weights)
  {
    ghost var before := accumulator[..];
    for index := 0 to |weights|
      invariant forall i :: 0 <= i < index ==> accumulator[i] == before[i] + weights[i]
      invariant forall i :: index <= i < |weights| ==> accumulator[i] == before[i]
    {
      accumulator[index] := accumulator[index] + weights[index];
    }
    assert accumulator[..] == Gain(before, weights);
    selected := SelectSite(accumulator);
    accumulator[selected] := accumulator[selected] - Sum(weights);
  }

  /** The maximum by accumulator, ties going to the lower index. */
  method SelectSite(accumulator: array<int>) returns (selected: nat)
    requires accumulator.Length > 0
    ensures selected == FirstMax(accumulator[..])
  {
    selected := 0;
    for i := 1 to accumulator.Length
      invariant selected < i
      invariant forall j :: 0 <= j < i ==> accumulator[j] <= accumulator[selected]
      invariant forall j :: 0 <= j < selected ==> accumulator[j] < accumulator[selected]
    {
      if accumulator[selected] < accumulator[i] {
        selected := i;
      }
    }
    FirstMaxUnique(accumulator[..], selected);
  }

  lemma FirstMaxUnique(acc: seq<int>, k: nat)
    requires k < |acc| && IsFirstMax(acc, k)
    ensures k == FirstMax(acc)
  {
    var m := FirstMax(acc);
    FirstMaxIs(acc);
    assert acc[m] <= acc[k] && acc[k] <= acc[m];
  }
}
