/** Shared vocabulary: optional values, integer sums over sequences, distinctness. */
module Common {

  datatype Option<+T> = None | Some(value: T)

  function Zeros(n: nat): seq<int> {
    seq(n, i => 0)
  }

  /** The sum of a sequence of integers. */
  function Sum(xs: seq<int>): int {
    if xs == [] then 0 else Sum(xs[..|xs| - 1]) + xs[|xs| - 1]
  }

  lemma SumAppend(xs: seq<int>, x: int)
    ensures Sum(xs + [x]) == Sum(xs) + x
  {
    assert (xs + [x])[..|xs|] == xs;
  }

  lemma {:induction false} SumUpdate(xs: seq<int>, i: nat, v: int)
    requires i < |xs|
    ensures Sum(xs[i := v]) == Sum(xs) - xs[i] + v
  {
    var n := |xs| - 1;
    if i == n {
      assert xs[i := v][..n] == xs[..n];
    } else {
      SumUpdate(xs[..n], i, v);
      assert xs[i := v][..n] == xs[..n][i := v];
    }
  }

  lemma {:induction false} SumNonneg(xs: seq<int>)
    requires forall i :: 0 <= i < |xs| ==> 0 <= xs[i]
    ensures 0 <= Sum(xs)
    ensures forall i :: 0 <= i < |xs| ==> xs[i] <= Sum(xs)
  {
    if xs != [] {
      SumNonneg(xs[..|xs| - 1]);
      assert forall i :: 0 <= i < |xs| - 1 ==> xs[i] == xs[..|xs| - 1][i];
    }
  }

  lemma {:induction false} SumZeros(xs: seq<int>)
    requires forall i :: 0 <= i < |xs| ==> xs[i] == 0
    ensures Sum(xs) == 0
  {
    if xs != [] {
      SumZeros(xs[..|xs| - 1]);
    }
  }

  lemma {:induction false} SumConcat(xs: seq<int>, ys: seq<int>)
    ensures Sum(xs + ys) == Sum(xs) + Sum(ys)
  {
    if ys == [] {
      assert xs + ys == xs;
    } else {
      var n := |ys| - 1;
      SumConcat(xs, ys[..n]);
      assert (xs + ys)[..|xs + ys| - 1] == xs + ys[..n];
    }
  }

  /** Sums are monotone in every entry. */
  lemma {:induction false} SumMonotone(xs: seq<int>, ys: seq<int>)
    requires |xs| == |ys|
    requires forall i :: 0 <= i < |xs| ==> xs[i] <= ys[i]
    ensures Sum(xs) <= Sum(ys)
  {
    if xs != [] {
      SumMonotone(xs[..|xs| - 1], ys[..|ys| - 1]);
    }
  }

  /** The sum of an entrywise sum. */
  lemma {:induction false} SumPlus(xs: seq<int>, ys: seq<int>, zs: seq<int>)
    requires |xs| == |ys| == |zs|
    requires forall i :: 0 <= i < |xs| ==> zs[i] == xs[i] + ys[i]
    ensures Sum(zs) == Sum(xs) + Sum(ys)
  {
    if xs != [] {
      SumPlus(xs[..|xs| - 1], ys[..|ys| - 1], zs[..|zs| - 1]);
    }
  }

  predicate Distinct<T(==)>(xs: seq<T>) {
    forall i, j :: 0 <= i < j < |xs| ==> xs[i] != xs[j]
  }

  function ElementSet<T>(xs: seq<T>): set<T> {
    set i | 0 <= i < |xs| :: xs[i]
  }

  /** A list has no repetition exactly when it is as long as the set of its elements. */
  lemma {:induction false} DistinctCardinality<T>(xs: seq<T>)
    ensures |ElementSet(xs)| <= |xs|
    ensures Distinct(xs) <==> |ElementSet(xs)| == |xs|
  {
    if xs != [] {
      var n := |xs| - 1;
      var front := xs[..n];
      DistinctCardinality(front);
      assert ElementSet(xs) == ElementSet(front) + {xs[n]} by {
        forall x | x in ElementSet(xs) ensures x in ElementSet(front) + {xs[n]} {
          var i :| 0 <= i < |xs| && xs[i] == x;
          assert i < n ==> front[i] == x;
        }
        forall x | x in ElementSet(front) + {xs[n]} ensures x in ElementSet(xs) {
          if x in ElementSet(front) {
            var i :| 0 <= i < n && front[i] == x;
            assert xs[i] == x;
          }
        }
      }
      if xs[n] in ElementSet(front) {
        var i :| 0 <= i < n && front[i] == xs[n];
        assert xs[i] == xs[n];
        assert ElementSet(xs) == ElementSet(front);
      } else {
        if Distinct(front) {
          forall i, j | 0 <= i < j < |xs| ensures xs[i] != xs[j] {
            assert front[i] in ElementSet(front);
          }
        } else {
          var i, j :| 0 <= i < j < |front| && front[i] == front[j];
          assert xs[i] == xs[j];
        }
      }
    }
  }

  lemma {:induction false} SubsetSize<T>(small: set<T>, large: set<T>)
    requires small <= large
    ensures |small| <= |large|
  {
    if small != {} {
      var x :| x in small;
      SubsetSize(small - {x}, large - {x});
    }
  }
}
