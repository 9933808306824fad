/** Analog evaluation: scale-free state vectors, first-touch barrier outcomes, z-scored
    nearest neighbours, and the guard that keeps every analog's outcome in the past. */
module Analogs {
  import opened Lists
  import opened Reals
  import Ordering

  const DIMS := 6

  datatype History = History(close: seq<real>, high: seq<real>, low: seq<real>) {
    predicate Valid() {
      |high| == |close| && |low| == |close|
    }
  }

  type State = s: seq<real> | |s| == DIMS witness [0.0, 0.0, 0.0, 0.0, 0.0, 0.0]

  // ---------------------------------------------------------------- state vectors

  function Sma(c: seq<real>, i: nat, n: nat): real
    requires 0 < n <= i + 1 <= |c|
  {
    Sum(c[i - n + 1..i + 1]) / n as real
  }

  function Abs(x: real): real {
    if x < 0.0 then -x else x
  }

  function TrueRange(x: History, j: nat): real
    requires x.Valid() && 0 < j < |x.close|
  {
    MaxOf([x.high[j] - x.low[j], Abs(x.high[j] - x.close[j - 1]), Abs(x.low[j] - x.close[j - 1])])
  }

  /** The true ranges of the 14 bars up to and including bar `i`. */
  function TrueRanges(x: History, i: nat): seq<real>
    requires x.Valid() && 14 <= i < |x.close|
  {
    seq(14, k requires 0 <= k < 14 => TrueRange(x, i - 13 + k))
  }

  /** What a state vector is computed from: the close, the close 20 bars before, three moving
      averages, the average true range and the 52-week high. */
  datatype Reference = Reference(close: real, close20: real, s200: real, s50: real, s20: real, atr: real, hi52: real)

  function ReferenceAt(x: History, i: nat): Reference
    requires x.Valid() && 252 <= i < |x.close|
  {
    var c := x.close;
    Reference(c[i], c[i - 20], Sma(c, i, 200), Sma(c, i, 50), Sma(c, i, 20),
              Sum(TrueRanges(x, i)) / 14.0, MaxOf(x.high[i - 251..i + 1]))
  }

  /** The six scale-free dimensions, or None when a level to divide by is not positive. */
  function Vector(r: Reference): Option<State> {
    if r.close <= 0.0 || r.s200 <= 0.0 || r.s50 <= 0.0 || r.s20 <= 0.0 || r.hi52 <= 0.0 || r.close20 <= 0.0 then None
    else
      Some([100.0 * (r.close / r.s200 - 1.0),
            100.0 * (r.close / r.s50 - 1.0),
            100.0 * (r.close / r.s20 - 1.0),
            100.0 * r.atr / r.close,
            100.0 * (r.hi52 - r.close) / r.hi52,
            100.0 * (r.close / r.close20 - 1.0)])
  }

  /** Scale-free state vector at a bar, or None with too little history. */
  function StateAt(x: History, i: nat): Option<State>
    requires x.Valid() && i < |x.close|
  {
    if i < 252 then None else Vector(ReferenceAt(x, i))
  }

  // ---------------------------------------------------------------- barrier outcomes

  datatype Barriers = Barriers(upPct: real, dnPct: real, horizon: nat)

  function Level(close: real, pct: real): real {
    close * (1.0 + pct)
  }

  /** Some bar in the window reaches the up barrier, and no bar up to and including it
      touches the down barrier. */
  predicate UpFirst(x: History, i: nat, b: Barriers)
    requires x.Valid() && i + b.horizon < |x.close|
  {
    exists j | i < j <= i + b.horizon ::
      && x.high[j] >= Level(x.close[i], b.upPct)
      && forall k | i < k <= j :: x.low[k] > Level(x.close[i], b.dnPct)
  }

  function OutcomeOf(x: History, i: nat, b: Barriers): Option<int>
    requires x.Valid()
  {
    if i + b.horizon >= |x.close| || x.close[i] <= 0.0 then None
    else if UpFirst(x, i, b) then Some(1) else Some(0)
  }

  method Outcome(x: History, i: nat, b: Barriers) returns (r: Option<int>)
    requires x.Valid()
    ensures r == OutcomeOf(x, i, b)
  {
    if i + b.horizon >= |x.close| || x.close[i] <= 0.0 {
      return None;
    }
    var up, dn := Level(x.close[i], b.upPct), Level(x.close[i], b.dnPct);
    for j := i + 1 to i + b.horizon + 1
      invariant forall k | i < k < j :: x.high[k] < up && x.low[k] > dn
    {
      var hitUp, hitDown := x.high[j] >= up, x.low[j] <= dn;
      if hitDown {
        return Some(0);
      }
      if hitUp {
        return Some(1);
      }
    }
    return Some(0);
  }

  lemma LevelIsMonotone(close: real, p: real, q: real)
    requires close > 0.0 && p <= q
    ensures Level(close, p) <= Level(close, q)
  {
    assert close * (q - p) >= 0.0;
  }

  /** A nearer target, a further stop or a longer horizon (within the data) never turns a
      win into a loss. */
  lemma OutcomeIsMonotone(x: History, i: nat, b: Barriers, easier: Barriers)
    requires x.Valid()
    requires easier.upPct <= b.upPct && easier.dnPct <= b.dnPct && easier.horizon >= b.horizon
    requires i + easier.horizon < |x.close|
    ensures OutcomeOf(x, i, b) == Some(1) ==> OutcomeOf(x, i, easier) == Some(1)
  {
    if OutcomeOf(x, i, b) == Some(1) {
      var c := x.close[i];
      LevelIsMonotone(c, easier.upPct, b.upPct);
      LevelIsMonotone(c, easier.dnPct, b.dnPct);
      var j :| i < j <= i + b.horizon && x.high[j] >= Level(c, b.upPct)
               && forall k | i < k <= j :: x.low[k] > Level(c, b.dnPct);
      assert x.high[j] >= Level(c, easier.upPct);
      assert forall k | i < k <= j :: x.low[k] > Level(c, easier.dnPct);
    }
  }

  // ---------------------------------------------------------------- the lookahead guard

  function Latest(pool: seq<nat>): (j: nat)
    requires pool != []
    ensures j in pool && forall n | 0 <= n < |pool| :: pool[n] <= j
  {
    if |pool| == 1 then pool[0] else Max(pool[0], Latest(pool[1..]))
  }

  /** The check passes: the pool is empty or its latest bar is strictly before `i - horizon`. */
  predicate NoLookahead(i: nat, pool: seq<nat>, horizon: nat) {
    pool == [] || Latest(pool) < i - horizon
  }

  // ---------------------------------------------------------------- z-scores

  datatype Stats = Stats(means: State, sds: State)

  function Column(states: seq<State>, d: nat): seq<real>
    requires d < DIMS
  {
    seq(|states|, n requires 0 <= n < |states| => states[n][d])
  }

  function Deviation(v: real, m: real): real {
    Square(v - m)
  }

  function Deviations(col: seq<real>, m: real): seq<real> {
    seq(|col|, n requires 0 <= n < |col| => Deviation(col[n], m))
  }

  function Variance(col: seq<real>): real
    requires |col| >= 2
  {
    Sum(Deviations(col, Mean(col))) / (|col| - 1) as real
  }

  function Spread(col: seq<real>, sqrt: real -> real): real
    requires |col| >= 2
  {
    if Variance(col) > 0.0 then sqrt(Variance(col)) else 1.0
  }

  function StatsOf(states: seq<State>, sqrt: real -> real): Option<Stats> {
    if |states| < 2 then None
    else Some(Stats(seq(DIMS, d requires 0 <= d < DIMS => Mean(Column(states, d))),
                    seq(DIMS, d requires 0 <= d < DIMS => Spread(Column(states, d), sqrt))))
  }

  method ZscoreStats(states: seq<State>, sqrt: real -> real) returns (r: Option<Stats>)
    ensures r == StatsOf(states, sqrt)
  {
    if |states| < 2 {
      return None;
    }
    var means, sds := [], [];
    for d := 0 to DIMS
      invariant |means| == |sds| == d
      invariant forall k | 0 <= k < d ::
                  means[k] == Mean(Column(states, k)) && sds[k] == Spread(Column(states, k), sqrt)
    {
      var col := Column(states, d);
      var variance := Variance(col);
      means := means + [Mean(col)];
      sds := sds + [if variance > 0.0 then sqrt(variance) else 1.0];
    }
    assert means == StatsOf(states, sqrt).value.means;
    assert sds == StatsOf(states, sqrt).value.sds;
    r := Some(Stats(means, sds));
  }

  // ---------------------------------------------------------------- nearest neighbours

  ghost predicate Scaled(stats: Stats) {
    forall d | 0 <= d < DIMS :: stats.sds[d] != 0.0
  }

  /** One dimension's squared z-distance. */
  function Gap(t: real, v: real, m: real, sd: real): real
    requires sd != 0.0
  {
    ((t - m) / sd - (v - m) / sd) * ((t - m) / sd - (v - m) / sd)
  }

  function DistanceUpto(target: State, s: State, stats: Stats, d: nat): real
    requires Scaled(stats) && d <= DIMS
  {
    if d == 0 then 0.0
    else DistanceUpto(target, s, stats, d - 1) + Gap(target[d - 1], s[d - 1], stats.means[d - 1], stats.sds[d - 1])
  }

  type Scored = (real, nat)

  /** Pairs compare by distance, then by position in the pool. */
  predicate Closer(a: Scored, b: Scored) {
    a.0 < b.0 || (a.0 == b.0 && a.1 <= b.1)
  }

  function ScoredPool(target: State, pool: seq<State>, stats: Stats): seq<Scored>
    requires Scaled(stats)
  {
    seq(|pool|, n requires 0 <= n < |pool| => (DistanceUpto(target, pool[n], stats, DIMS), n))
  }

  /** The pool positions of the k nearest, nearest first. */
  function Chosen(target: State, pool: seq<State>, stats: Stats, k: nat): (r: seq<nat>)
    requires Scaled(stats)
    ensures |r| == Min(k, |pool|)
    ensures forall n | 0 <= n < |r| :: r[n] < |pool|
  {
    var scored := ScoredPool(target, pool, stats);
    var sorted := Ordering.Sort(Closer, scored);
    Ordering.SortContents(Closer, scored);
    assert forall n | 0 <= n < |sorted| :: sorted[n] in sorted;
    var top := Min(k, |pool|);
    seq(top, n requires 0 <= n < top => sorted[n].1)
  }

  datatype Prediction = Prediction(pUp: Option<real>, count: nat, analogs: Option<seq<nat>>)

  function Pick<T>(values: seq<T>, positions: seq<nat>): seq<T>
    requires forall n | 0 <= n < |positions| :: positions[n] < |values|
  {
    seq(|positions|, n requires 0 <= n < |positions| => values[positions[n]])
  }

  function Predict(target: State, pool: seq<State>, outcomes: seq<int>, index: seq<nat>, stats: Stats, k: nat): Prediction
    requires Scaled(stats) && |outcomes| == |pool| && |index| == |pool|
  {
    var top := Chosen(target, pool, stats, k);
    if top == [] then Prediction(None, 0, None)
    else Prediction(Some(Total(Pick(outcomes, top)) as real / |top| as real), |top|, Some(Pick(index, top)))
  }

  function Total(s: seq<int>): int {
    if s == [] then 0 else s[0] + Total(s[1..])
  }

  method Nearest(target: State, pool: seq<State>, outcomes: seq<int>, index: seq<nat>, stats: Stats, k: nat)
    returns (r: Prediction)
    requires Scaled(stats) && |outcomes| == |pool| && |index| == |pool|
    ensures r == Predict(target, pool, outcomes, index, stats, k)
  {
    var tz := seq(DIMS, d requires 0 <= d < DIMS && stats.sds[d] != 0.0 => (target[d] - stats.means[d]) / stats.sds[d]);
    var scored: seq<Scored> := [];
    for n := 0 to |pool|
      invariant scored == ScoredPool(target, pool, stats)[..n]
    {
      var dist := 0.0;
      for d := 0 to DIMS
        invariant dist == DistanceUpto(target, pool[n], stats, d)
      {
        var diff := tz[d] - (pool[n][d] - stats.means[d]) / stats.sds[d];
        dist := dist + diff * diff;
      }
      scored := scored + [(dist, n)];
    }
    assert scored == ScoredPool(target, pool, stats);
    scored := Ordering.Sort(Closer, scored);
    Ordering.SortContents(Closer, ScoredPool(target, pool, stats));
    var top := scored[..Min(k, |scored|)];
    if top == [] {
      return Prediction(None, 0, None);
    }
    assert forall n | 0 <= n < |scored| :: scored[n] in scored;
    var positions := seq(|top|, n requires 0 <= n < |top| => top[n].1);
    assert positions == Chosen(target, pool, stats, k);
    r := Prediction(Some(Total(Pick(outcomes, positions)) as real / |positions| as real), |positions|,
                    Some(Pick(index, positions)));
  }
}
