/** Facts of real arithmetic that the solver needs one at a time. */
module Reals {
  lemma CancelFactor(x: real, y: real, factor: real)
    requires factor > 0.0
    ensures x == y <==> x * factor == y * factor
    ensures x < y <==> x * factor < y * factor
  {
    if x < y {
      assert (y - x) * factor > 0.0;
    } else if y < x {
      assert (x - y) * factor > 0.0;
    }
  }

  lemma SameQuotient(x: real, n: real, q: real)
    requires n > 0.0 && q * n == x
    ensures x / n == q
  {
  }

  lemma DifferenceOfQuotients(x: real, y: real, n: real)
    requires n > 0.0
    ensures (x - y) / n == x / n - y / n
  {
    var p, q := x / n, y / n;
    assert p * n == x && q * n == y;
    assert (p - q) * n == x - y;
    SameQuotient(x - y, n, p - q);
  }

  lemma Regroup(x: real, y: real, z: real)
    ensures x * y * z == x * (y * z)
  {
  }

  lemma Distribute(x: real, y: real, z: real)
    ensures x * (y + z) == x * y + x * z
  {
  }

  /** A square root, the one library function the statistics need. */
  ghost predicate IsSqrt(sqrt: real -> real) {
    forall v :: v > 0.0 ==> sqrt(v) > 0.0 && sqrt(v) * sqrt(v) == v
  }

  function Square(x: real): real {
    x * x
  }

  function Times(x: real, y: real): real {
    x * y
  }

  lemma TimesQuotient(x: real, n: real)
    requires n != 0.0
    ensures Times(x / n, n) == x
  {
  }

  lemma SameSign(x: real, y: real)
    requires (x > 0.0 && y > 0.0) || (x < 0.0 && y < 0.0)
    ensures Times(x, y) > 0.0
  {
  }

  lemma SquareIsTimes(x: real)
    ensures Square(x) == Times(x, x)
  {
  }

  lemma SquareNonNegative(x: real)
    ensures Square(x) >= 0.0
    ensures x != 0.0 ==> Square(x) > 0.0
  {
    SquareIsTimes(x);
    if x != 0.0 {
      SameSign(x, x);
    }
  }

  lemma StrictSquare(x: real, y: real)
    requires 0.0 < x < y
    ensures x * x < y * y
  {
    CancelFactor(x, y, x);
    CancelFactor(x, y, y);
  }

  lemma SameRoot(x: real, y: real)
    requires x > 0.0 && y > 0.0 && x * x == y * y
    ensures x == y
  {
    if x < y {
      StrictSquare(x, y);
    } else if y < x {
      StrictSquare(y, x);
    }
  }

  lemma SquareOfProduct(x: real, y: real)
    ensures (x * y) * (x * y) == (x * x) * (y * y)
  {
  }
}
