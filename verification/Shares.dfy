/** Quotient and remainder: dividing units into parts that differ by at most one. */
module Shares {
  import opened Common

  /** Part `i` of `n` gets the quotient, and one more while the remainder lasts. */
  function Part(units: int, n: nat, i: nat): int
    requires n > 0
  {
    units / n + if i < units % n then 1 else 0
  }

  /** The first `k` of `n` parts. */
  function Parts(units: int, n: nat, k: nat): seq<int>
    requires n > 0
  {
    seq(k, i requires 0 <= i < k => Part(units, n, i))
  }

  lemma PartsGrow(units: int, n: nat, k: nat)
    requires n > 0
    ensures Sum(Parts(units, n, k + 1)) == Sum(Parts(units, n, k)) + Part(units, n, k)
  {
    assert Parts(units, n, k + 1) == Parts(units, n, k) + [Part(units, n, k)];
    SumAppend(Parts(units, n, k), Part(units, n, k));
  }

  lemma {:induction false} PartsSum(units: int, n: nat, k: nat)
    requires n > 0 && k <= n
    ensures Sum(Parts(units, n, k)) == k * (units / n) + if k < units % n then k else units % n
  {
    if k > 0 {
      PartsSum(units, n, k - 1);
      PartsGrow(units, n, k - 1);
      assert k * (units / n) == (k - 1) * (units / n) + units / n;
    }
  }

  /** The parts add up to the whole, whatever the remainder and the sign. */
  lemma PartsAddUp(units: int, n: nat)
    requires n > 0
    ensures Sum(Parts(units, n, n)) == units
  {
    PartsSum(units, n, n);
  }

  // ---- splitting again and again ----

  function Power(base: nat, k: nat): nat {
    if k == 0 then 1 else base * Power(base, k - 1)
  }

  /** `part` is the whole divided by `width`, rounded down or up. */
  predicate Near(units: int, width: nat, part: int) {
    units - width < width * part < units + width
  }

  lemma PartIsNear(units: int, n: nat, i: nat)
    requires n > 0
    ensures Near(units, n, Part(units, n, i))
  {
    var q := units / n;
    assert n * (q + 1) == n * q + n;
    assert units == n * q + units % n;
  }

  /** Rounded parts of rounded parts are rounded parts of the whole. */
  lemma NearLifts(units: int, n: nat, part: int, width: nat, leaf: int)
    requires Near(units, n, part) && Near(part, width, leaf)
    ensures Near(units, n * width, leaf)
  {
    var x := width * leaf;
    assert (n * width) * leaf == n * x;
    Scale(n, x, part + width - 1);
    Scale(n, part - width + 1, x);
    assert n * (part + width - 1) == n * part + n * width - n;
    assert n * (part - width + 1) == n * part - n * width + n;
  }

  lemma Scale(n: nat, x: int, y: int)
    requires x <= y
    ensures n * x <= n * y
  {
  }

  lemma NearBounds(units: int, n: nat, part: int, width: nat)
    requires Near(units, n, part)
    ensures n * width <= units ==> width <= part
    ensures units < n * width ==> part <= width
  {
    if part < width {
      Scale(n, part + 1, width);
      assert n * (part + 1) == n * part + n;
    }
    if width < part {
      Scale(n, width + 1, part);
      assert n * (width + 1) == n * width + n;
    }
  }

  /** Two rounded parts of one whole differ by at most one. */
  lemma NearAlike(units: int, width: nat, a: int, b: int)
    requires Near(units, width, a) && Near(units, width, b)
    ensures a <= b + 1
  {
    assert width * (b + 2) == width * b + 2 * width;
    if b + 1 < a {
      Scale(width, b + 2, a);
    }
  }

  lemma {:induction false} PowerPositive(base: nat, k: nat)
    requires base > 0
    ensures Power(base, k) > 0
  {
    if k > 0 {
      PowerPositive(base, k - 1);
    }
  }

  /** How many leaves a whole is split over: as many as there is room for, but none is empty. */
  function LeafCount(units: nat, width: nat): nat {
    if units < width then units else width
  }
}
