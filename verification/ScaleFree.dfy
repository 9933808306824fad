/** The nearest-neighbour result does not depend on the unit or the origin of any dimension,
    and it really is the k nearest. */
module ScaleFree {
  import opened Lists
  import opened Analogs
  import opened Noninterference
  import opened Reals
  import Ordering

  // ---------------------------------------------------------------- the k nearest

  lemma CloserIsTotal()
    ensures Ordering.TotalPreorder(Closer)
  {
  }

  lemma SortedPoolFacts(target: State, pool: seq<State>, stats: Stats)
    requires Scaled(stats)
    ensures var scored := ScoredPool(target, pool, stats);
            var sorted := Ordering.Sort(Closer, scored);
            && |sorted| == |scored| == |pool|
            && Ordering.Sorted(Closer, sorted)
            && (forall m | 0 <= m < |sorted| :: sorted[m].1 < |pool| && sorted[m] == scored[sorted[m].1])
            && (forall m, n | 0 <= m < n < |sorted| :: sorted[m].1 != sorted[n].1)
            && (forall p | 0 <= p < |pool| :: scored[p] in sorted)
  {
    hide DistanceUpto, Scaled, Closer;
    var scored := ScoredPool(target, pool, stats);
    var sorted := Ordering.Sort(Closer, scored);
    CloserIsTotal();
    Ordering.SortSorted(Closer, scored);
    Ordering.SortContents(Closer, scored);
    forall m | 0 <= m < |sorted|
      ensures sorted[m].1 < |pool| && sorted[m] == scored[sorted[m].1]
    {
      assert sorted[m] in sorted;
    }
    Ordering.PermutedDistinct((x: Scored) => x.1, scored, sorted);
    forall p | 0 <= p < |pool|
      ensures scored[p] in sorted
    {
      assert scored[p] in scored;
    }
  }

  /** The chosen positions are distinct, in order of distance, and no closer than any that was
      left out: together they are the k smallest by distance, then by position. */
  lemma ChosenAreNearest(target: State, pool: seq<State>, stats: Stats, k: nat)
    requires Scaled(stats)
    ensures var r, scored := Chosen(target, pool, stats, k), ScoredPool(target, pool, stats);
            && |r| == Min(k, |pool|)
            && (forall m, n | 0 <= m < n < |r| :: r[m] != r[n] && Closer(scored[r[m]], scored[r[n]]))
            && (forall m, p | 0 <= m < |r| && 0 <= p < |pool| && p !in r :: Closer(scored[r[m]], scored[p]))
  {
    hide DistanceUpto, Scaled, Closer, ScoredPool, Ordering.Sort;
    SortedPoolFacts(target, pool, stats);
    var scored := ScoredPool(target, pool, stats);
    var sorted := Ordering.Sort(Closer, scored);
    var r := Chosen(target, pool, stats, k);
    assert forall m | 0 <= m < |r| :: r[m] == sorted[m].1;
    forall m, p | 0 <= m < |r| && 0 <= p < |pool| && p !in r
      ensures Closer(scored[r[m]], scored[p])
    {
      assert scored[p] in sorted;
      var n :| 0 <= n < |sorted| && sorted[n] == scored[p];
      assert sorted[n].1 == p by {
        ScoredPosition(target, pool, stats, p);
      }
      assert forall q | 0 <= q < |r| :: r[q] != p;
      assert n >= |r|;
    }
  }

  lemma ScoredPosition(target: State, pool: seq<State>, stats: Stats, p: nat)
    requires Scaled(stats) && p < |pool|
    ensures ScoredPool(target, pool, stats)[p].1 == p
  {
  }

  // ---------------------------------------------------------------- affine columns

  function Affine(x: real, a: real, b: real): real {
    a * x + b
  }

  function AffineColumn(col: seq<real>, a: real, b: real): seq<real> {
    seq(|col|, n requires 0 <= n < |col| => Affine(col[n], a, b))
  }

  lemma {:induction false} SumAffine(col: seq<real>, a: real, b: real)
    ensures Sum(AffineColumn(col, a, b)) == a * Sum(col) + |col| as real * b
  {
    if col != [] {
      var t := AffineColumn(col, a, b);
      assert t[1..] == AffineColumn(col[1..], a, b);
      SumAffine(col[1..], a, b);
      SumAffineStep(col[0], Sum(col[1..]), |col[1..]| as real, a, b);
    }
  }

  lemma SumAffineStep(x: real, rest: real, n: real, a: real, b: real)
    ensures Affine(x, a, b) + (a * rest + n * b) == a * (x + rest) + (n + 1.0) * b
  {
  }

  lemma MeanAffine(col: seq<real>, a: real, b: real)
    requires col != []
    ensures Mean(AffineColumn(col, a, b)) == Affine(Mean(col), a, b)
  {
    SumAffine(col, a, b);
    AffineQuotient(Sum(col), |col| as real, a, b);
  }

  lemma AffineQuotient(x: real, n: real, a: real, b: real)
    requires n > 0.0
    ensures (a * x + n * b) / n == Affine(x / n, a, b)
  {
    var q := x / n;
    Regroup(a, q, n);
    assert (a * q + b) * n == a * q * n + b * n;
    SameQuotient(a * x + n * b, n, a * q + b);
  }

  lemma {:induction false} DeviationsAffine(col: seq<real>, m: real, a: real, b: real)
    ensures Sum(Deviations(AffineColumn(col, a, b), Affine(m, a, b))) == a * a * Sum(Deviations(col, m))
  {
    hide Deviation, Affine;
    if col != [] {
      var t := AffineColumn(col, a, b);
      assert t[1..] == AffineColumn(col[1..], a, b);
      assert Deviations(t, Affine(m, a, b))[1..] == Deviations(t[1..], Affine(m, a, b));
      assert Deviations(col, m)[1..] == Deviations(col[1..], m);
      DeviationsAffine(col[1..], m, a, b);
      DeviationAffine(col[0], m, a, b);
      Distribute(a * a, Deviation(col[0], m), Sum(Deviations(col[1..], m)));
    }
  }

  lemma DeviationAffine(v: real, m: real, a: real, b: real)
    ensures Deviation(Affine(v, a, b), Affine(m, a, b)) == a * a * Deviation(v, m)
  {
    assert Affine(v, a, b) - Affine(m, a, b) == a * (v - m);
    SquareOfProduct(a, v - m);
  }

  lemma VarianceAffine(col: seq<real>, a: real, b: real)
    requires |col| >= 2
    ensures Variance(AffineColumn(col, a, b)) == a * a * Variance(col)
  {
    hide Mean, Deviations;
    MeanAffine(col, a, b);
    DeviationsAffine(col, Mean(col), a, b);
    var t, spread := AffineColumn(col, a, b), Sum(Deviations(col, Mean(col)));
    assert Sum(Deviations(t, Mean(t))) == a * a * spread;
    ScaledQuotient(a * a, spread, (|col| - 1) as real);
  }

  lemma ScaledQuotient(factor: real, x: real, n: real)
    requires n > 0.0
    ensures factor * x / n == factor * (x / n)
  {
    Regroup(factor, x / n, n);
    SameQuotient(factor * x, n, factor * (x / n));
  }

  lemma DeviationSign(v: real, m: real)
    ensures Deviation(v, m) >= 0.0
    ensures v != m ==> Deviation(v, m) > 0.0
  {
    hide Square;
    SquareNonNegative(v - m);
  }

  lemma {:induction false} DeviationsNonNegative(col: seq<real>, m: real)
    ensures Sum(Deviations(col, m)) >= 0.0
    ensures Sum(Deviations(col, m)) == 0.0 ==> forall n | 0 <= n < |col| :: col[n] == m
  {
    hide Deviation;
    if col != [] {
      assert Deviations(col, m)[1..] == Deviations(col[1..], m);
      DeviationsNonNegative(col[1..], m);
      DeviationSign(col[0], m);
      if Sum(Deviations(col, m)) == 0.0 {
        assert forall n | 1 <= n < |col| :: col[n] == col[1..][n - 1];
      }
    }
  }

  /** Without variance every value of the column is its mean. */
  lemma NoVarianceIsConstant(col: seq<real>)
    requires |col| >= 2
    ensures Variance(col) >= 0.0
    ensures Variance(col) == 0.0 ==> forall n | 0 <= n < |col| :: col[n] == Mean(col)
  {
    DeviationsNonNegative(col, Mean(col));
    assert Variance(col) * (|col| - 1) as real == Sum(Deviations(col, Mean(col)));
  }

  /** A spread in a unit that is `a` times finer. */
  function Resized(a: real, sd: real): real {
    Abs(a) * sd
  }

  lemma SpreadAffine(col: seq<real>, a: real, b: real, sqrt: real -> real)
    requires |col| >= 2 && a != 0.0 && IsSqrt(sqrt)
    ensures Spread(AffineColumn(col, a, b), sqrt)
         == if Variance(col) > 0.0 then Resized(a, Spread(col, sqrt)) else 1.0
  {
    hide Variance;
    VarianceAffine(col, a, b);
    NoVarianceIsConstant(col);
    var v := Variance(col);
    if v > 0.0 {
      RootScales(a, v, Variance(AffineColumn(col, a, b)), sqrt);
    }
  }

  lemma RootScales(a: real, v: real, w: real, sqrt: real -> real)
    requires a != 0.0 && v > 0.0 && w == a * a * v && IsSqrt(sqrt)
    ensures w > 0.0 && sqrt(w) == Resized(a, sqrt(v))
  {
    SquareNonNegative(a);
    CancelFactor(0.0, a * a, v);
    CancelFactor(0.0, Abs(a), sqrt(v));
    SquareOfProduct(Abs(a), sqrt(v));
    SameRoot(Abs(a) * sqrt(v), sqrt(w));
  }

  // ---------------------------------------------------------------- distances

  function Rescale(s: State, a: State, b: State): State {
    seq(DIMS, d requires 0 <= d < DIMS => Affine(s[d], a[d], b[d]))
  }

  function RescaleAll(states: seq<State>, a: State, b: State): seq<State> {
    seq(|states|, n requires 0 <= n < |states| => Rescale(states[n], a, b))
  }

  /** What rescaling a dimension adds to every distance: nothing, unless the pool does not
      vary there, in which case the target's offset is measured in the new unit. */
  function Extra(t: real, m: real, a: real, variance: real): real {
    if variance > 0.0 then 0.0 else (a * a - 1.0) * Deviation(t, m)
  }

  lemma GapRescaled(t: real, v: real, m: real, sd: real, a: real, b: real)
    requires sd > 0.0 && a != 0.0
    ensures Resized(a, sd) > 0.0
    ensures Gap(Affine(t, a, b), Affine(v, a, b), Affine(m, a, b), Resized(a, sd)) == Gap(t, v, m, sd)
  {
    var s := if a > 0.0 then 1.0 else -1.0;
    assert Abs(a) * sd > 0.0;
    ZRescaled(t, m, sd, a, b, s);
    ZRescaled(v, m, sd, a, b, s);
    var u, w := (t - m) / sd, (v - m) / sd;
    assert (s * u - s * w) * (s * u - s * w) == (u - w) * (u - w);
  }

  lemma ZRescaled(t: real, m: real, sd: real, a: real, b: real, sign: real)
    requires sd > 0.0 && a != 0.0 && sign == (if a > 0.0 then 1.0 else -1.0)
    ensures Resized(a, sd) > 0.0
    ensures (Affine(t, a, b) - Affine(m, a, b)) / Resized(a, sd) == sign * ((t - m) / sd)
  {
    var z := (t - m) / sd;
    assert z * sd == t - m;
    assert Abs(a) * sd > 0.0;
    assert sign * Abs(a) == a;
    assert sign * z * (Abs(a) * sd) == (sign * Abs(a)) * (z * sd);
    assert Affine(t, a, b) - Affine(m, a, b) == a * (t - m);
    SameQuotient(Affine(t, a, b) - Affine(m, a, b), Abs(a) * sd, sign * z);
  }

  lemma GapWithoutVariance(t: real, m: real, a: real, b: real)
    ensures Gap(Affine(t, a, b), Affine(m, a, b), Affine(m, a, b), 1.0)
         == Gap(t, m, m, 1.0) + Extra(t, m, a, 0.0)
  {
    DeviationAffine(t, m, a, b);
    assert Gap(t, m, m, 1.0) == Deviation(t, m);
    assert Gap(Affine(t, a, b), Affine(m, a, b), Affine(m, a, b), 1.0) == Deviation(Affine(t, a, b), Affine(m, a, b));
  }

  // ---------------------------------------------------------------- the whole result

  lemma ColumnRescaled(states: seq<State>, a: State, b: State, d: nat)
    requires d < DIMS
    ensures Column(RescaleAll(states, a, b), d) == AffineColumn(Column(states, d), a[d], b[d])
  {
  }

  lemma StatsRescaled(states: seq<State>, a: State, b: State, sqrt: real -> real, d: nat)
    requires |states| >= 2 && d < DIMS && a[d] != 0.0 && IsSqrt(sqrt)
    ensures var s, t := StatsOf(states, sqrt).value, StatsOf(RescaleAll(states, a, b), sqrt).value;
            && t.means[d] == Affine(s.means[d], a[d], b[d])
            && t.sds[d] == if Variance(Column(states, d)) > 0.0 then Resized(a[d], s.sds[d]) else 1.0
  {
    hide Variance, Mean;
    ColumnRescaled(states, a, b, d);
    MeanAffine(Column(states, d), a[d], b[d]);
    SpreadAffine(Column(states, d), a[d], b[d], sqrt);
  }

  /** What rescaling adds to every distance, over the first d dimensions. */
  function ExtraUpto(target: State, states: seq<State>, a: State, d: nat): real
    requires |states| >= 2 && d <= DIMS
  {
    if d == 0 then 0.0
    else
      var col := Column(states, d - 1);
      ExtraUpto(target, states, a, d - 1) + Extra(target[d - 1], Mean(col), a[d - 1], Variance(col))
  }

  lemma DimensionRescaled(target: State, states: seq<State>, n: nat, a: State, b: State, sqrt: real -> real, d: nat)
    requires |states| >= 2 && n < |states| && d < DIMS && a[d] != 0.0 && IsSqrt(sqrt)
    ensures var s, t := StatsOf(states, sqrt).value, StatsOf(RescaleAll(states, a, b), sqrt).value;
            && s.sds[d] != 0.0 && t.sds[d] != 0.0
            && Gap(Affine(target[d], a[d], b[d]), Affine(states[n][d], a[d], b[d]), t.means[d], t.sds[d])
            == Gap(target[d], states[n][d], s.means[d], s.sds[d])
               + Extra(target[d], Mean(Column(states, d)), a[d], Variance(Column(states, d)))
  {
    hide Variance, Mean, Gap;
    var col := Column(states, d);
    StatsRescaled(states, a, b, sqrt, d);
    NoVarianceIsConstant(col);
    assert col[n] == states[n][d];
    var s := StatsOf(states, sqrt).value;
    assert s.means[d] == Mean(col) && s.sds[d] == Spread(col, sqrt);
    if Variance(col) > 0.0 {
      GapRescaled(target[d], states[n][d], Mean(col), Spread(col, sqrt), a[d], b[d]);
    } else {
      GapWithoutVariance(target[d], Mean(col), a[d], b[d]);
    }
  }

  ghost predicate Nonzero(a: State) {
    forall d | 0 <= d < DIMS :: a[d] != 0.0
  }

  lemma {:induction false} DistanceRescaled(
    target: State, states: seq<State>, n: nat, a: State, b: State, sqrt: real -> real, d: nat)
    requires |states| >= 2 && n < |states| && d <= DIMS && Nonzero(a) && IsSqrt(sqrt)
    ensures var s, t := StatsOf(states, sqrt).value, StatsOf(RescaleAll(states, a, b), sqrt).value;
            && Scaled(s) && Scaled(t)
            && DistanceUpto(Rescale(target, a, b), RescaleAll(states, a, b)[n], t, d)
            == DistanceUpto(target, states[n], s, d) + ExtraUpto(target, states, a, d)
  {
    hide Variance, Mean, Gap, Extra;
    SpreadIsNotZero(states, sqrt);
    SpreadIsNotZero(RescaleAll(states, a, b), sqrt);
    if d > 0 {
      DistanceRescaled(target, states, n, a, b, sqrt, d - 1);
      DimensionRescaled(target, states, n, a, b, sqrt, d - 1);
    }
  }

  function Shift(s: seq<Scored>, c: real): seq<Scored> {
    seq(|s|, n requires 0 <= n < |s| => (s[n].0 + c, s[n].1))
  }

  /** Adding a constant to every distance leaves the order alone. */
  lemma {:induction false} InsertShifted(x: Scored, s: seq<Scored>, c: real)
    ensures Ordering.Insert(Closer, (x.0 + c, x.1), Shift(s, c)) == Shift(Ordering.Insert(Closer, x, s), c)
  {
    if s != [] && !Closer(x, s[0]) {
      InsertShifted(x, s[1..], c);
      assert Shift(s, c)[1..] == Shift(s[1..], c);
    }
  }

  lemma {:induction false} SortShifted(s: seq<Scored>, c: real)
    ensures Ordering.Sort(Closer, Shift(s, c)) == Shift(Ordering.Sort(Closer, s), c)
  {
    if s != [] {
      assert Shift(s, c)[1..] == Shift(s[1..], c);
      assert Shift(s, c)[0] == (s[0].0 + c, s[0].1);
      SortShifted(s[1..], c);
      InsertShifted(s[0], Ordering.Sort(Closer, s[1..]), c);
    }
  }

  /** Changing the unit and origin of every dimension, in the target and in the pool, leaves
      the chosen neighbours, their number and P(up) unchanged, whether or not a dimension
      varies over the pool. */
  lemma NeighboursAreScaleFree(
    target: State, states: seq<State>, outcomes: seq<int>, index: seq<nat>,
    a: State, b: State, sqrt: real -> real, k: nat)
    requires |states| >= 2 && |outcomes| == |states| && |index| == |states|
    requires Nonzero(a) && IsSqrt(sqrt)
    ensures var s, t := StatsOf(states, sqrt).value, StatsOf(RescaleAll(states, a, b), sqrt).value;
            && Scaled(s) && Scaled(t)
            && Chosen(Rescale(target, a, b), RescaleAll(states, a, b), t, k) == Chosen(target, states, s, k)
            && Predict(Rescale(target, a, b), RescaleAll(states, a, b), outcomes, index, t, k)
            == Predict(target, states, outcomes, index, s, k)
  {
    hide DistanceUpto, ExtraUpto, Rescale, IsSqrt, Nonzero, Variance, Mean;
    var s, t := StatsOf(states, sqrt).value, StatsOf(RescaleAll(states, a, b), sqrt).value;
    SpreadIsNotZero(states, sqrt);
    SpreadIsNotZero(RescaleAll(states, a, b), sqrt);
    ScoredRescaled(target, states, a, b, sqrt);
    SortShifted(ScoredPool(target, states, s), ExtraUpto(target, states, a, DIMS));
    var r, r' := Chosen(target, states, s, k), Chosen(Rescale(target, a, b), RescaleAll(states, a, b), t, k);
    Ordering.SortContents(Closer, ScoredPool(target, states, s));
    Ordering.SortContents(Closer, ScoredPool(Rescale(target, a, b), RescaleAll(states, a, b), t));
    forall n | 0 <= n < |r|
      ensures r'[n] == r[n]
    {
      assert r[n] == Ordering.Sort(Closer, ScoredPool(target, states, s))[n].1;
      assert r'[n] == Ordering.Sort(Closer, ScoredPool(Rescale(target, a, b), RescaleAll(states, a, b), t))[n].1;
      ShiftKeepsPosition(Ordering.Sort(Closer, ScoredPool(target, states, s)), ExtraUpto(target, states, a, DIMS), n);
    }
    assert r' == r;
  }

  lemma ShiftKeepsPosition(s: seq<Scored>, c: real, n: nat)
    ensures |Shift(s, c)| == |s|
    ensures n < |s| ==> Shift(s, c)[n].1 == s[n].1
  {
  }

  lemma ScoredRescaled(target: State, states: seq<State>, a: State, b: State, sqrt: real -> real)
    requires |states| >= 2 && Nonzero(a) && IsSqrt(sqrt)
    ensures var s, t := StatsOf(states, sqrt).value, StatsOf(RescaleAll(states, a, b), sqrt).value;
            && Scaled(s) && Scaled(t)
            && ScoredPool(Rescale(target, a, b), RescaleAll(states, a, b), t)
            == Shift(ScoredPool(target, states, s), ExtraUpto(target, states, a, DIMS))
  {
    hide DistanceUpto, ExtraUpto, Rescale, IsSqrt, Nonzero, Variance, Mean;
    SpreadIsNotZero(states, sqrt);
    SpreadIsNotZero(RescaleAll(states, a, b), sqrt);
    var s, t := StatsOf(states, sqrt).value, StatsOf(RescaleAll(states, a, b), sqrt).value;
    var u, v := ScoredPool(target, states, s), ScoredPool(Rescale(target, a, b), RescaleAll(states, a, b), t);
    forall n | 0 <= n < |states|
      ensures v[n] == (u[n].0 + ExtraUpto(target, states, a, DIMS), u[n].1)
    {
      DistanceRescaled(target, states, n, a, b, sqrt, DIMS);
    }
  }
}
