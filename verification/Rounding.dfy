/** Python's `round`: to the nearest multiple of 1/scale, ties to the even multiple. */
module Rounding {
  import opened Reals

  function Nearest(y: real): int {
    var below := y.Floor;
    var rest := y - below as real;
    if rest < 0.5 then below
    else if rest > 0.5 then below + 1
    else if below % 2 == 0 then below
    else below + 1
  }

  function Round(x: real, scale: real): real
    requires scale > 0.0
  {
    Nearest(x * scale) as real / scale
  }

  /** The result is a whole number of steps of 1/scale, no step is closer, and of two equally
      close ones it is the even one. */
  lemma RoundIsNearest(x: real, scale: real)
    requires scale > 0.0
    ensures Round(x, scale) * scale == Nearest(x * scale) as real
    ensures -0.5 <= Round(x, scale) * scale - x * scale <= 0.5
    ensures x * scale - (x * scale).Floor as real == 0.5 ==> Nearest(x * scale) % 2 == 0
  {
    var n := Nearest(x * scale) as real;
    assert n / scale * scale == n;
  }

  lemma RoundedWithin(x: real, scale: real)
    requires scale > 0.0
    ensures -(0.5 / scale) <= Round(x, scale) - x <= 0.5 / scale
  {
    hide Nearest;
    NearestIsNear(x * scale);
    WithinScaled(Nearest(x * scale) as real, x, scale);
  }

  lemma WithinScaled(n: real, x: real, scale: real)
    requires scale > 0.0 && -0.5 <= n - x * scale <= 0.5
    ensures -(0.5 / scale) <= n / scale - x <= 0.5 / scale
  {
    var q := n / scale;
    assert q * scale == n;
    HalfStep(q, x, scale);
  }

  lemma HalfStep(rounded: real, x: real, scale: real)
    requires scale > 0.0 && -0.5 <= rounded * scale - x * scale <= 0.5
    ensures -(0.5 / scale) <= rounded - x <= 0.5 / scale
  {
    Distribute(scale, rounded, -x);
    DivideBound(rounded - x, 0.5, scale);
    DivideBound(x - rounded, 0.5, scale);
  }

  lemma DivideBound(d: real, bound: real, scale: real)
    requires scale > 0.0 && d * scale <= bound
    ensures d <= bound / scale
  {
    var q := bound / scale;
    assert q * scale == bound;
    CancelFactor(q, d, scale);
  }

  lemma NearestIsNear(y: real)
    ensures -0.5 <= Nearest(y) as real - y <= 0.5
  {
  }
}
