/** What the numbers of the analog evaluation mean, independently of how they are computed. */
module AnalogMeanings {
  import opened Lists
  import opened Reals
  import opened Analogs
  import opened ScaleFree
  import opened Noninterference

  // ---------------------------------------------------------------- state vectors

  /** `value` is `base` moved by `pct` percent. */
  predicate MovedBy(base: real, pct: real, value: real) {
    Times(base, 1.0 + pct / 100.0) == value
  }

  lemma RatioMoves(value: real, base: real)
    requires base > 0.0
    ensures MovedBy(base, 100.0 * (value / base - 1.0), value)
  {
    var q := value / base;
    assert q * base == value;
    assert 1.0 + 100.0 * (q - 1.0) / 100.0 == q;
  }

  lemma GapMoves(high: real, value: real)
    requires high > 0.0
    ensures MovedBy(high, -(100.0 * (high - value) / high), value)
  {
    var p := 100.0 * (high - value) / high;
    assert p * high == 100.0 * (high - value);
    assert high * (1.0 + -p / 100.0) == high - p * high / 100.0;
  }

  lemma ShareOf(part: real, whole: real)
    requires whole > 0.0
    ensures Times(whole, 100.0 * part / whole) == 100.0 * part
  {
  }

  /** The six dimensions: the close is each moving average, and the close 20 bars before, moved
      by that percentage; it is the 52-week high moved down by the fifth; and the average true
      range is the fourth percent of it. */
  lemma VectorMeans(r: Reference)
    requires Vector(r).Some?
    ensures var v := Vector(r).value;
            && MovedBy(r.s200, v[0], r.close) && MovedBy(r.s50, v[1], r.close) && MovedBy(r.s20, v[2], r.close)
            && Times(r.close, v[3]) == 100.0 * r.atr
            && MovedBy(r.hi52, -v[4], r.close) && MovedBy(r.close20, v[5], r.close)
  {
    hide MovedBy, Times;
    RatioMoves(r.close, r.s200);
    RatioMoves(r.close, r.s50);
    RatioMoves(r.close, r.s20);
    RatioMoves(r.close, r.close20);
    GapMoves(r.hi52, r.close);
    ShareOf(r.atr, r.close);
  }

  /** A moving average slides: one bar on, it gains that bar and loses the one n bars before. */
  lemma SmaSlides(c: seq<real>, i: nat, n: nat)
    requires 0 < n <= i + 1 && i + 1 < |c|
    ensures Times(n as real, Sma(c, i + 1, n) - Sma(c, i, n)) == c[i + 1] - c[i + 1 - n]
  {
    var shared := c[i + 2 - n..i + 1];
    assert c[i + 1 - n..i + 1] == [c[i + 1 - n]] + shared;
    assert c[i + 2 - n..i + 2] == shared + [c[i + 1]];
    SumAppend([c[i + 1 - n]], shared);
    SumAppend(shared, [c[i + 1]]);
    SumOfOne(c[i + 1 - n]);
    SumOfOne(c[i + 1]);
    TimesDifference(n as real, Sum(shared) + c[i + 1], c[i + 1 - n] + Sum(shared));
  }

  lemma TimesDifference(n: real, x: real, y: real)
    requires n > 0.0
    ensures Times(n, x / n - y / n) == x - y
  {
    assert x / n * n == x && y / n * n == y;
    Distribute(n, x / n, -(y / n));
  }

  /** The true range of a bar spans its range extended to the previous close. */
  lemma TrueRangeIsSpan(x: History, j: nat)
    requires x.Valid() && 0 < j < |x.close| && x.low[j] <= x.high[j]
    ensures var prev := x.close[j - 1];
            TrueRange(x, j) == (if x.high[j] > prev then x.high[j] else prev) - (if x.low[j] < prev then x.low[j] else prev)
  {
    var h, l, p := x.high[j], x.low[j], x.close[j - 1];
    var s := [h - l, Abs(h - p), Abs(l - p)];
    assert s[0] == h - l && s[1] == Abs(h - p) && s[2] == Abs(l - p);
  }

  lemma MovesTogether(base: real, n: real, pct: real, value: real)
    requires n > 0.0 && MovedBy(base / n, pct, value)
    ensures MovedBy(base, pct, Times(n, value))
  {
    var q, f := base / n, 1.0 + pct / 100.0;
    assert q * n == base;
    Regroup(n, q, f);
  }

  lemma QuotientSign(x: real, n: real)
    requires n > 0.0
    ensures x / n > 0.0 <==> x > 0.0
  {
    var q := x / n;
    assert q * n == x;
    CancelFactor(0.0, q, n);
  }

  /** When a bar has a state: with 252 bars before it and every level it is measured by above
      zero. */
  lemma StateExistsIff(x: History, i: nat)
    requires x.Valid() && i < |x.close|
    ensures var c := x.close;
            StateAt(x, i).Some?
            <==> i >= 252 && c[i] > 0.0 && c[i - 20] > 0.0 && Sum(c[i - 199..i + 1]) > 0.0 && Sum(c[i - 49..i + 1]) > 0.0
                 && Sum(c[i - 19..i + 1]) > 0.0 && exists k :: i - 251 <= k <= i && x.high[k] > 0.0
  {
    hide Sum, MaxOf;
    if i >= 252 {
      var c, highs := x.close, x.high[i - 251..i + 1];
      QuotientSign(Sum(c[i - 199..i + 1]), 200.0);
      QuotientSign(Sum(c[i - 49..i + 1]), 50.0);
      QuotientSign(Sum(c[i - 19..i + 1]), 20.0);
      MaxOfHighs(x, i);
      var k :| i - 251 <= k <= i && x.high[k] == MaxOf(highs);
    }
  }

  lemma AverageMoves(c: seq<real>, i: nat, n: nat, m: real, pct: real)
    requires 0 < n <= i + 1 <= |c| && m == n as real && MovedBy(Sma(c, i, n), pct, c[i])
    ensures MovedBy(Sum(c[i + 1 - n..i + 1]), pct, Times(m, c[i]))
  {
    hide MovedBy, Sum;
    assert i - n + 1 == i + 1 - n;
    MovesTogether(Sum(c[i + 1 - n..i + 1]), m, pct, c[i]);
  }

  lemma MaxOfHighs(x: History, i: nat)
    requires x.Valid() && 252 <= i < |x.close|
    ensures var top := MaxOf(x.high[i - 251..i + 1]);
            && (exists k :: i - 251 <= k <= i && x.high[k] == top)
            && forall k | i - 251 <= k <= i :: x.high[k] <= top
  {
    var highs := x.high[i - 251..i + 1];
    var n :| 0 <= n < |highs| && highs[n] == MaxOf(highs);
    assert x.high[i - 251 + n] == MaxOf(highs);
    forall k | i - 251 <= k <= i
      ensures x.high[k] <= MaxOf(highs)
    {
      assert highs[k - (i - 251)] == x.high[k];
    }
  }

  /** What the six dimensions say about the bars themselves: how far the close is above the mean
      of the last 200, 50 and 20 closes, the mean true range of 14 bars in percent of it, how far
      it is below the highest high of 252 bars, and its return over 20 bars. */
  lemma StateMeans(x: History, i: nat)
    requires x.Valid() && i < |x.close| && StateAt(x, i).Some?
    ensures i >= 252
    ensures var c, v := x.close, StateAt(x, i).value;
            && MovedBy(Sum(c[i - 199..i + 1]), v[0], Times(200.0, c[i]))
            && MovedBy(Sum(c[i - 49..i + 1]), v[1], Times(50.0, c[i]))
            && MovedBy(Sum(c[i - 19..i + 1]), v[2], Times(20.0, c[i]))
            && 14.0 * Times(c[i], v[3]) == 100.0 * Sum(seq(14, k requires 0 <= k < 14 => TrueRange(x, i - 13 + k)))
            && (exists k :: i - 251 <= k <= i && MovedBy(x.high[k], -v[4], c[i])
                         && forall m | i - 251 <= m <= i :: x.high[m] <= x.high[k])
            && MovedBy(c[i - 20], v[5], c[i])
  {
    hide MovedBy, Times, Sum, MaxOf, TrueRange, Vector;
    var c, r := x.close, ReferenceAt(x, i);
    VectorMeans(r);
    hide Sma;
    AverageMoves(c, i, 200, 200.0, Vector(r).value[0]);
    AverageMoves(c, i, 50, 50.0, Vector(r).value[1]);
    AverageMoves(c, i, 20, 20.0, Vector(r).value[2]);
    assert TrueRanges(x, i) == seq(14, k requires 0 <= k < 14 => TrueRange(x, i - 13 + k));
    MaxOfHighs(x, i);
    var k :| i - 251 <= k <= i && x.high[k] == MaxOf(x.high[i - 251..i + 1]);
  }

  /** The outcome, by moves from the close: unresolved when the window runs off the data or the
      close is not above zero; 1 when some bar of the window gains the target's share of the
      close and every bar up to it stays above the stop's; 0 otherwise. */
  lemma OutcomeMeans(x: History, i: nat, b: Barriers)
    requires x.Valid()
    ensures OutcomeOf(x, i, b).None? <==> i + b.horizon >= |x.close| || x.close[i] <= 0.0
    ensures OutcomeOf(x, i, b).Some? ==>
              var c := x.close[i];
              OutcomeOf(x, i, b).value
              == if exists j | i < j <= i + b.horizon ::
                      x.high[j] - c >= Times(c, b.upPct) && forall k | i < k <= j :: x.low[k] - c > Times(c, b.dnPct)
                 then 1 else 0
  {
    if OutcomeOf(x, i, b).Some? {
      var c := x.close[i];
      LevelIsMove(c, b.upPct);
      LevelIsMove(c, b.dnPct);
      hide Level, Times;
      if UpFirst(x, i, b) {
        var j :| i < j <= i + b.horizon && x.high[j] >= Level(c, b.upPct) && forall k | i < k <= j :: x.low[k] > Level(c, b.dnPct);
        assert x.high[j] - c >= Times(c, b.upPct);
      }
    }
  }

  lemma LevelIsMove(close: real, pct: real)
    ensures Level(close, pct) == close + Times(close, pct)
  {
  }

  // ---------------------------------------------------------------- statistics and prediction

  function Squares(col: seq<real>): seq<real> {
    seq(|col|, n requires 0 <= n < |col| => Square(col[n]))
  }

  /** A sum of squared deviations from `m`, multiplied out. */
  function Expanded(squares: real, m: real, sum: real, n: real): real {
    squares - 2.0 * m * sum + n * Square(m)
  }

  lemma {:induction false} DeviationsExpand(col: seq<real>, m: real)
    ensures Sum(Deviations(col, m)) == Expanded(Sum(Squares(col)), m, Sum(col), |col| as real)
  {
    if col == [] {
      assert Expanded(0.0, m, 0.0, 0.0) == 0.0;
    } else {
      hide Expanded, Square, Deviation;
      assert Deviations(col, m)[1..] == Deviations(col[1..], m);
      assert Squares(col)[1..] == Squares(col[1..]);
      DeviationsExpand(col[1..], m);
      ExpandOne(col[0], m, Sum(Squares(col[1..])), Sum(col[1..]), |col[1..]| as real);
    }
  }

  lemma ExpandOne(x: real, m: real, squares: real, sum: real, n: real)
    ensures Deviation(x, m) + Expanded(squares, m, sum, n) == Expanded(Square(x) + squares, m, x + sum, n + 1.0)
  {
  }

  /** The variance is the sample variance: n-1 times it is the sum of squares less n times the
      squared mean. */
  lemma VarianceIsSample(col: seq<real>)
    requires |col| >= 2
    ensures Times((|col| - 1) as real, Variance(col)) == Sum(Squares(col)) - Times(|col| as real, Square(Mean(col)))
  {
    var n, m := |col| as real, Mean(col);
    DeviationsExpand(col, m);
    assert m * n == Sum(col);
    MeanCancels(m, n, Sum(col));
    assert Expanded(Sum(Squares(col)), m, Sum(col), n) == Sum(Squares(col)) + Expanded(0.0, m, Sum(col), n);
    assert Variance(col) * (|col| - 1) as real == Sum(Deviations(col, m));
  }

  lemma MeanCancels(m: real, n: real, sum: real)
    requires m * n == sum
    ensures Expanded(0.0, m, sum, n) == -Times(n, Square(m))
  {
    assert m * sum == m * (m * n);
    assert m * (m * n) == n * (m * m);
  }

  function Ups(outcomes: seq<int>): nat {
    if outcomes == [] then 0 else (if outcomes[0] == 1 then 1 else 0) + Ups(outcomes[1..])
  }

  lemma {:induction false} TotalCountsUps(outcomes: seq<int>)
    requires forall n | 0 <= n < |outcomes| :: outcomes[n] == 0 || outcomes[n] == 1
    ensures Total(outcomes) == Ups(outcomes) <= |outcomes|
  {
    if outcomes != [] {
      TotalCountsUps(outcomes[1..]);
    }
  }

  /** P(up) is the share of the chosen neighbours that went up, so it lies between 0 and 1. */
  lemma PUpIsShareOfNeighbours(
    target: State, pool: seq<State>, outcomes: seq<int>, index: seq<nat>, stats: Stats, k: nat)
    requires Scaled(stats) && |outcomes| == |pool| && |index| == |pool| && k > 0 && pool != []
    requires forall n | 0 <= n < |outcomes| :: outcomes[n] == 0 || outcomes[n] == 1
    ensures var r := Predict(target, pool, outcomes, index, stats, k);
            && r.pUp.Some? && 0.0 <= r.pUp.value <= 1.0
            && Times(r.pUp.value, r.count as real) == Ups(Pick(outcomes, Chosen(target, pool, stats, k))) as real
  {
    hide DistanceUpto, ScoredPool;
    var top := Chosen(target, pool, stats, k);
    TotalCountsUps(Pick(outcomes, top));
    ShareBounds(Total(Pick(outcomes, top)) as real, |top| as real);
  }

  lemma ShareBounds(part: real, whole: real)
    requires 0.0 <= part <= whole && whole > 0.0
    ensures 0.0 <= part / whole <= 1.0 && Times(part / whole, whole) == part
  {
    var q := part / whole;
    assert q * whole == part;
    CancelFactor(q, 0.0, whole);
    CancelFactor(1.0, q, whole);
  }

  // ---------------------------------------------------------------- nearest in what distance

  /** The squared differences of two states, each in units of its dimension's deviation. */
  function Spreads(target: State, s: State, stats: Stats): (r: seq<real>)
    requires Scaled(stats)
    ensures |r| == DIMS
  {
    seq(DIMS, d requires 0 <= d < DIMS && stats.sds[d] != 0.0 => Square((target[d] - s[d]) / stats.sds[d]))
  }

  lemma GapIsSquare(t: real, v: real, m: real, sd: real)
    requires sd != 0.0
    ensures Gap(t, v, m, sd) == Square((t - v) / sd)
  {
    var x, y := (t - m) / sd, (v - m) / sd;
    assert x * sd == t - m && y * sd == v - m;
    assert (x - y) * sd == t - v;
  }

  lemma {:induction false} DistanceIsSpread(target: State, s: State, stats: Stats, d: nat)
    requires Scaled(stats) && d <= DIMS
    ensures DistanceUpto(target, s, stats, d) == Sum(Spreads(target, s, stats)[..d])
  {
    hide Gap, Square;
    var spreads := Spreads(target, s, stats);
    if d == 0 {
      assert spreads[..0] == [];
    } else {
      DistanceIsSpread(target, s, stats, d - 1);
      GapIsSquare(target[d - 1], s[d - 1], stats.means[d - 1], stats.sds[d - 1]);
      assert spreads[..d] == spreads[..d - 1] + [spreads[d - 1]];
      SumAppend(spreads[..d - 1], [spreads[d - 1]]);
      SumOfOne(spreads[d - 1]);
    }
  }

  /** Nearer in the sum of squared scaled differences, or as near and earlier in the pool. */
  predicate Nearer(target: State, pool: seq<State>, stats: Stats, p: nat, q: nat)
    requires Scaled(stats) && p < |pool| && q < |pool|
  {
    var x, y := Sum(Spreads(target, pool[p], stats)), Sum(Spreads(target, pool[q], stats));
    x < y || (x == y && p <= q)
  }

  lemma CloserIsNearer(target: State, pool: seq<State>, stats: Stats, p: nat, q: nat)
    requires Scaled(stats) && p < |pool| && q < |pool|
    ensures var scored := ScoredPool(target, pool, stats);
            Closer(scored[p], scored[q]) <==> Nearer(target, pool, stats, p, q)
  {
    hide DistanceUpto, Spreads, Scaled;
    DistanceIsSpread(target, pool[p], stats, DIMS);
    DistanceIsSpread(target, pool[q], stats, DIMS);
    assert Spreads(target, pool[p], stats)[..DIMS] == Spreads(target, pool[p], stats);
    assert Spreads(target, pool[q], stats)[..DIMS] == Spreads(target, pool[q], stats);
  }

  /** `p` lists the `n` nearest pool positions, nearest first. */
  ghost predicate AreNearest(target: State, pool: seq<State>, stats: Stats, p: seq<nat>)
    requires Scaled(stats)
  {
    && (forall m | 0 <= m < |p| :: p[m] < |pool|)
    && (forall m, n | 0 <= m < n < |p| :: p[m] != p[n] && Nearer(target, pool, stats, p[m], p[n]))
    && (forall m, q | 0 <= m < |p| && 0 <= q < |pool| && q !in p :: Nearer(target, pool, stats, p[m], q))
  }

  lemma ChosenInRawValues(target: State, pool: seq<State>, stats: Stats, k: nat)
    requires Scaled(stats)
    ensures AreNearest(target, pool, stats, Chosen(target, pool, stats, k))
  {
    hide Scaled, Closer, Nearer, DistanceUpto;
    ChosenAreNearest(target, pool, stats, k);
    forall p, q | 0 <= p < |pool| && 0 <= q < |pool|
      ensures Closer(ScoredPool(target, pool, stats)[p], ScoredPool(target, pool, stats)[q]) <==> Nearer(target, pool, stats, p, q)
    {
      CloserIsNearer(target, pool, stats, p, q);
    }
  }

  /** The prediction, without its intermediate z-scores and distances: nothing when nothing is
      asked of or in the pool; otherwise the bars of the min(k, n) states nearest to the target
      and the share of them that went up. */
  lemma PredictIsOfNearest(
    target: State, pool: seq<State>, outcomes: seq<int>, index: seq<nat>, stats: Stats, k: nat)
    requires Scaled(stats) && |outcomes| == |pool| && |index| == |pool|
    requires forall n | 0 <= n < |outcomes| :: outcomes[n] == 0 || outcomes[n] == 1
    ensures var r := Predict(target, pool, outcomes, index, stats, k);
            if k == 0 || pool == [] then r == Prediction(None, 0, None)
            else exists p ::
              && (forall m | 0 <= m < |p| :: p[m] < |pool|)
              && AreNearest(target, pool, stats, p)
              && |p| == Min(k, |pool|) == r.count
              && r.analogs == Some(seq(|p|, n requires 0 <= n < |p| => index[p[n]]))
              && r.pUp.Some?
              && Times(r.pUp.value, r.count as real) == Ups(seq(|p|, n requires 0 <= n < |p| => outcomes[p[n]])) as real
  {
    hide DistanceUpto, ScoredPool, AreNearest, Scaled;
    if k > 0 && pool != [] {
      ChosenInRawValues(target, pool, stats, k);
      PUpIsShareOfNeighbours(target, pool, outcomes, index, stats, k);
      var p := Chosen(target, pool, stats, k);
      assert Pick(index, p) == seq(|p|, n requires 0 <= n < |p| => index[p[n]]);
      assert Pick(outcomes, p) == seq(|p|, n requires 0 <= n < |p| => outcomes[p[n]]);
    }
  }

  lemma {:induction false} SumOfSquares(s: seq<real>)
    requires forall n | 0 <= n < |s| :: s[n] >= 0.0
    ensures Sum(s) >= 0.0
    ensures Sum(s) == 0.0 <==> forall n | 0 <= n < |s| :: s[n] == 0.0
  {
    if s != [] {
      SumOfSquares(s[1..]);
      assert forall n | 0 < n < |s| :: s[n] == s[1..][n - 1];
    }
  }

  lemma NoSpreadIffEqual(target: State, s: State, stats: Stats)
    requires Scaled(stats)
    ensures Sum(Spreads(target, s, stats)) >= 0.0
    ensures Sum(Spreads(target, s, stats)) == 0.0 <==> s == target
  {
    hide Square;
    var spreads := Spreads(target, s, stats);
    forall d | 0 <= d < DIMS
      ensures spreads[d] >= 0.0 && (spreads[d] == 0.0 <==> s[d] == target[d])
    {
      SquareOfQuotient(target[d] - s[d], stats.sds[d]);
    }
    SumOfSquares(spreads);
    if Sum(spreads) == 0.0 {
      assert forall d | 0 <= d < DIMS :: spreads[d] == 0.0;
    }
  }

  lemma SquareOfQuotient(x: real, sd: real)
    requires sd != 0.0
    ensures Square(x / sd) >= 0.0 && (Square(x / sd) == 0.0 <==> x == 0.0)
  {
    var q := x / sd;
    assert q * sd == x;
    SquareNonNegative(q);
  }

  /** A pool state equal to the target comes first: as long as one neighbour is asked for, the
      first is equal to the target too. */
  lemma EqualStateComesFirst(target: State, pool: seq<State>, stats: Stats, k: nat)
    requires Scaled(stats) && target in pool && k > 0
    ensures var r := Chosen(target, pool, stats, k);
            r != [] && pool[r[0]] == target
  {
    hide Spreads, Scaled;
    var r := Chosen(target, pool, stats, k);
    ChosenInRawValues(target, pool, stats, k);
    var q :| 0 <= q < |pool| && pool[q] == target;
    NoSpreadIffEqual(target, pool[q], stats);
    NoSpreadIffEqual(target, pool[r[0]], stats);
    if q in r {
      var n :| 0 <= n < |r| && r[n] == q;
      assert n > 0 ==> Nearer(target, pool, stats, r[0], r[n]);
    } else {
      assert Nearer(target, pool, stats, r[0], q);
    }
  }

  // ---------------------------------------------------------------- the statistics and the evaluation

  lemma {:induction false} DeviationsVanish(col: seq<real>, m: real)
    ensures Sum(Deviations(col, m)) >= 0.0
    ensures Sum(Deviations(col, m)) == 0.0 <==> forall n | 0 <= n < |col| :: col[n] == m
  {
    if col != [] {
      assert Deviations(col, m)[1..] == Deviations(col[1..], m);
      DeviationsVanish(col[1..], m);
      SquareNonNegative(col[0] - m);
      hide Deviations, Square;
      assert forall n | 0 < n < |col| :: col[n] == col[1..][n - 1];
    }
  }

  /** The deviation of a column: 1 when all its values are its mean, and otherwise positive with
      n-1 times its square the squared distances from the mean. */
  lemma SpreadMeans(col: seq<real>, sqrt: real -> real)
    requires |col| >= 2 && IsSqrt(sqrt)
    ensures var sd := Spread(col, sqrt);
            if forall n | 0 <= n < |col| :: col[n] == Mean(col) then sd == 1.0
            else sd > 0.0 && Times(Square(sd), (|col| - 1) as real) == Sum(seq(|col|, n requires 0 <= n < |col| => Square(col[n] - Mean(col))))
  {
    var m, n := Mean(col), (|col| - 1) as real;
    DeviationsVanish(col, m);
    TimesQuotient(Sum(Deviations(col, m)), n);
    QuotientSign(Sum(Deviations(col, m)), n);
    assert Deviations(col, m) == seq(|col|, j requires 0 <= j < |col| => Square(col[j] - m));
  }

  /** The statistics exist from two states on, dimension by dimension. */
  lemma StatsMean(states: seq<State>, sqrt: real -> real)
    ensures StatsOf(states, sqrt).None? <==> |states| < 2
    ensures |states| >= 2 ==>
              var stats := StatsOf(states, sqrt).value;
              forall d | 0 <= d < DIMS ::
                var col := seq(|states|, n requires 0 <= n < |states| => states[n][d]);
                stats.means[d] == Mean(col) && stats.sds[d] == Spread(col, sqrt)
  {
    if |states| >= 2 {
      hide Mean, Spread;
      forall d | 0 <= d < DIMS
        ensures Column(states, d) == seq(|states|, n requires 0 <= n < |states| => states[n][d])
      {
      }
    }
  }

  predicate HasBoth(x: History, b: Barriers, j: nat)
    requires x.Valid()
  {
    j < |x.close| && StateAt(x, j).Some? && OutcomeOf(x, j, b).Some?
  }

  /** The pool's bars with a state and an outcome, each as often as the pool has it, in the
      pool's order. */
  ghost predicate AreUsable(x: History, pool: seq<nat>, b: Barriers, u: seq<nat>)
    requires x.Valid()
  {
    && (forall n | 0 <= n < |u| :: HasBoth(x, b, u[n]))
    && Subsequence(u, pool)
    && forall j: nat :: multiset(u)[j] == if HasBoth(x, b, j) then multiset(pool)[j] else 0
  }

  lemma {:induction false} UsableInOrder(x: History, pool: seq<nat>, b: Barriers)
    requires x.Valid() && forall n | 0 <= n < |pool| :: pool[n] < |x.close|
    ensures Subsequence(Usable(x, pool, b), pool)
  {
    hide StateAt, OutcomeOf;
    if pool == [] {
      assert Subsequence<nat>([], []);
    } else {
      hide Subsequence;
      UsableInOrder(x, pool[1..], b);
      SubsequenceStep(pool[0], Usable(x, pool[1..], b), pool[1..]);
      assert pool == [pool[0]] + pool[1..];
    }
  }

  lemma {:induction false} UsableCount(x: History, pool: seq<nat>, b: Barriers, j: nat)
    requires x.Valid() && forall n | 0 <= n < |pool| :: pool[n] < |x.close|
    ensures multiset(Usable(x, pool, b))[j] == if HasBoth(x, b, j) then multiset(pool)[j] else 0
  {
    hide StateAt, OutcomeOf;
    if pool != [] {
      UsableCount(x, pool[1..], b, j);
      assert pool == [pool[0]] + pool[1..];
    }
  }

  lemma LookaheadIff(i: nat, pool: seq<nat>, horizon: nat)
    ensures NoLookahead(i, pool, horizon) <==> forall j | j in pool :: j < i - horizon
  {
    if pool != [] {
      assert Latest(pool) in pool;
    }
  }

  /** The evaluation of a bar: an error when some pooled bar is not before `i - horizon`;
      otherwise, over the pool's bars that have a state and an outcome, no verdict without a
      state of its own or with fewer than two of them, and the prediction from their states,
      outcomes and statistics. */
  lemma EvaluationMeans(x: History, i: nat, pool: seq<nat>, b: Barriers, sqrt: real -> real, k: nat)
    requires x.Valid() && i < |x.close| && IsSqrt(sqrt)
    ensures var r := Evaluate(x, i, pool, b, sqrt, k);
            if exists j :: j in pool && j >= i - b.horizon then r == LookaheadError
            else exists u :: AreUsable(x, pool, b, u) && IsVerdict(x, i, b, sqrt, k, u, r)
  {
    hide StateAt, OutcomeOf, IsSqrt, Subsequence;
    LookaheadIff(i, pool, b.horizon);
    if NoLookahead(i, pool, b.horizon) {
      var u: seq<nat> := Usable(x, pool, b);
      UsableInOrder(x, pool, b);
      forall j: nat
        ensures multiset(Usable(x, pool, b))[j] == if HasBoth(x, b, j) then multiset(pool)[j] else 0
      {
        UsableCount(x, pool, b, j);
      }
      assert AreUsable(x, pool, b, u);
      VerdictOn(x, i, b, sqrt, k, u);
    }
  }

  ghost predicate IsVerdict(x: History, i: nat, b: Barriers, sqrt: real -> real, k: nat, u: seq<nat>, r: Verdict)
    requires x.Valid() && i < |x.close| && IsSqrt(sqrt) && forall n | 0 <= n < |u| :: HasBoth(x, b, u[n])
  {
    var states: seq<State> := seq(|u|, n requires 0 <= n < |u| && HasBoth(x, b, u[n]) => StateAt(x, u[n]).value);
    var outcomes: seq<int> := seq(|u|, n requires 0 <= n < |u| && HasBoth(x, b, u[n]) => OutcomeOf(x, u[n], b).value);
    if StateAt(x, i).None? then r == NoState
    else if |u| < 2 then r == TooFewAnalogs
    else
      SpreadIsNotZero(states, sqrt);
      var stats := StatsOf(states, sqrt).value;
      r == Predicted(stats, Predict(StateAt(x, i).value, states, outcomes, u, stats, k))
  }

  lemma VerdictOn(x: History, i: nat, b: Barriers, sqrt: real -> real, k: nat, u: seq<nat>)
    requires x.Valid() && i < |x.close| && IsSqrt(sqrt) && forall n | 0 <= n < |u| :: HasBoth(x, b, u[n])
    requires forall n | 0 <= n < |u| :: u[n] < |x.close| && StateAt(x, u[n]).Some? && OutcomeOf(x, u[n], b).Some?
    ensures IsVerdict(x, i, b, sqrt, k, u, Judge(StateAt(x, i), StatesOf(x, u), OutcomesOf(x, u, b), u, sqrt, k))
  {
    hide StateAt, OutcomeOf, IsSqrt, Predict;
    assert StatesOf(x, u) == seq(|u|, n requires 0 <= n < |u| && HasBoth(x, b, u[n]) => StateAt(x, u[n]).value);
    assert OutcomesOf(x, u, b) == seq(|u|, n requires 0 <= n < |u| && HasBoth(x, b, u[n]) => OutcomeOf(x, u[n], b).value);
  }
}
