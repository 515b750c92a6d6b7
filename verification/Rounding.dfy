/**
 Arithmetic with rounding. Sums and products of the numeric models are rounded by an
 arbitrary function that is monotone, leaves its own results alone, keeps -1, 0 and 1,
 and errs by at most `eps` in the range the models use. Round-to-nearest of binary64 is
 such a function; so are exact reals, with no error at all.
 */
module Rounding {
  function Times(x: real, y: real): real {
    x * y
  }

  datatype Arithmetic = Arithmetic(round: real -> real, eps: real) {
    ghost predicate Valid() {
      && 0.0 <= eps <= 0.0001
      && round(-1.0) == -1.0 && round(0.0) == 0.0 && round(1.0) == 1.0
      && (forall x, y :: x <= y ==> round(x) <= round(y))
      && (forall x :: round(round(x)) == round(x))
      && (forall x :: -4.0 <= x <= 4.0 ==> x - eps <= round(x) <= x + eps)
    }

    /** A number of this arithmetic. */
    predicate Has(x: real) {
      round(x) == x
    }

    function Add(x: real, y: real): real {
      round(x + y)
    }

    function Mul(x: real, y: real): real {
      round(Times(x, y))
    }
  }

  // ----- exact reals

  function Identity(x: real): real {
    x
  }

  const EXACT: Arithmetic := Arithmetic(Identity, 0.0)

  lemma ExactIsValid()
    ensures EXACT.Valid()
  {
  }

  // ----- facts about every arithmetic

  lemma Near(a: Arithmetic, x: real)
    requires a.Valid() && -4.0 <= x <= 4.0
    ensures x - a.eps <= a.round(x) <= x + a.eps && a.Has(a.round(x))
  {
  }

  lemma Ordered(a: Arithmetic, x: real, y: real)
    requires a.Valid() && x <= y
    ensures a.round(x) <= a.round(y)
  {
  }

  lemma SumNear(a: Arithmetic, x: real, y: real)
    requires a.Valid() && -4.0 <= x + y <= 4.0
    ensures x + y - a.eps <= a.Add(x, y) <= x + y + a.eps && a.Has(a.Add(x, y))
  {
  }

  lemma Shrinks(x: real, k: real)
    requires 0.0 <= k <= 1.0
    ensures x >= 0.0 ==> 0.0 <= Times(x, k) <= x
    ensures x <= 0.0 ==> x <= Times(x, k) <= 0.0
  {
    assert x * k == x - x * (1.0 - k);
  }

  /** A factor between zero and one takes a number towards zero. */
  lemma ProductShrinks(a: Arithmetic, x: real, k: real)
    requires a.Valid() && a.Has(x) && 0.0 <= k <= 1.0
    ensures x >= 0.0 ==> 0.0 <= a.Mul(x, k) <= x
    ensures x <= 0.0 ==> x <= a.Mul(x, k) <= 0.0
    ensures a.Has(a.Mul(x, k))
  {
    hide Times;
    Shrinks(x, k);
  }

  /** A product with a rounded factor, next to the product with the factor itself. */
  lemma ProductNear(a: Arithmetic, x: real, k: real)
    requires a.Valid() && 0.0 <= x <= 1.0 && 0.0 <= k <= 1.0
    ensures Times(x, k) - 2.0 * a.eps <= a.Mul(x, a.round(k)) <= Times(x, k) + 2.0 * a.eps
  {
    hide Times;
    Near(a, k);
    Ordered(a, 0.0, k);
    Ordered(a, k, 1.0);
    Shrinks(x, a.round(k));
    ScaledDifference(x, k, a.round(k), a.eps);
    Near(a, Times(x, a.round(k)));
  }

  lemma ScaledDifference(x: real, k: real, m: real, e: real)
    requires 0.0 <= x <= 1.0 && k - e <= m <= k + e
    ensures Times(x, k) - e <= Times(x, m) <= Times(x, k) + e
  {
    assert x * m == x * k + x * (m - k);
    if m >= k {
      Shrinks(m - k, x);
      assert x * (m - k) == (m - k) * x;
    } else {
      Shrinks(k - m, x);
      assert x * (m - k) == -((k - m) * x);
    }
  }

  // ----- the grid of binary64 between one half and one

  const UNITS: real := 9007199254740992.0

  /** To the nearest integer, ties to even. */
  function Nearest(x: real): int {
    var f := x.Floor;
    var d := x - f as real;
    if d < 0.5 || (d == 0.5 && f % 2 == 0) then f else f + 1
  }

  /** To the nearest multiple of 2^-53: what binary64 does from one half to one. */
  function OnGrid(x: real): real {
    Nearest(x * UNITS) as real / UNITS
  }

  const GRID: Arithmetic := Arithmetic(OnGrid, 1.0 / UNITS)

  lemma NearestMonotone(x: real, y: real)
    requires x <= y
    ensures Nearest(x) <= Nearest(y)
  {
  }

  lemma NearestOfInteger(n: int)
    ensures Nearest(n as real) == n
  {
  }

  lemma NearestError(x: real)
    ensures x - 0.5 <= Nearest(x) as real <= x + 0.5
  {
  }

  lemma GridPoint(n: int)
    ensures OnGrid(n as real / UNITS) == n as real / UNITS
  {
    NearestOfInteger(n);
    assert n as real / UNITS * UNITS == n as real;
  }

  lemma GridIsValid()
    ensures GRID.Valid()
  {
    hide Nearest;
    GridPoint(-9007199254740992);
    GridPoint(0);
    GridPoint(9007199254740992);
    forall x: real, y: real | x <= y ensures OnGrid(x) <= OnGrid(y) {
      NearestMonotone(x * UNITS, y * UNITS);
    }
    forall x: real ensures OnGrid(OnGrid(x)) == OnGrid(x) {
      GridPoint(Nearest(x * UNITS));
    }
    forall x: real | -4.0 <= x <= 4.0 ensures x - GRID.eps <= OnGrid(x) <= x + GRID.eps {
      NearestError(x * UNITS);
    }
  }
}
