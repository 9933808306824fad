/** No lookahead as noninterference: what is predicted for a bar is a function of the bars up
    to it, and the guard on the analog pool is exactly what makes it so. */
module Noninterference {
  import opened Lists
  import opened Reals
  import opened Analogs

  /** Two histories with the same first `n` bars. */
  predicate Agree(x: History, y: History, n: nat) {
    && x.Valid() && y.Valid() && n <= |x.close| && n <= |y.close|
    && x.close[..n] == y.close[..n] && x.high[..n] == y.high[..n] && x.low[..n] == y.low[..n]
  }

  lemma AgreeSlices(x: History, y: History, n: nat, lo: nat, hi: nat)
    requires Agree(x, y, n) && lo <= hi <= n
    ensures x.close[lo..hi] == y.close[lo..hi] && x.high[lo..hi] == y.high[lo..hi]
  {
    assert x.close[lo..hi] == x.close[..n][lo..hi];
    assert x.high[lo..hi] == x.high[..n][lo..hi];
  }

  lemma AgreeBar(x: History, y: History, n: nat, j: nat)
    requires Agree(x, y, n) && j < n
    ensures x.close[j] == y.close[j] && x.high[j] == y.high[j] && x.low[j] == y.low[j]
  {
    assert x.close[j] == x.close[..n][j] && x.high[j] == x.high[..n][j] && x.low[j] == x.low[..n][j];
    assert y.close[j] == y.close[..n][j] && y.high[j] == y.high[..n][j] && y.low[j] == y.low[..n][j];
  }

  lemma TrueRangeAgrees(x: History, y: History, n: nat, j: nat)
    requires Agree(x, y, n) && 0 < j < n
    ensures TrueRange(x, j) == TrueRange(y, j)
  {
    AgreeBar(x, y, n, j);
    AgreeBar(x, y, n, j - 1);
  }

  lemma TrueRangesAgree(x: History, y: History, i: nat)
    requires Agree(x, y, i + 1) && i >= 14
    ensures TrueRanges(x, i) == TrueRanges(y, i)
  {
    var a, b := TrueRanges(x, i), TrueRanges(y, i);
    forall k | 0 <= k < 14
      ensures a[k] == b[k]
    {
      TrueRangeAgrees(x, y, i + 1, i - 13 + k);
    }
  }

  lemma SmaAgrees(x: History, y: History, i: nat, n: nat)
    requires Agree(x, y, i + 1) && 0 < n <= i + 1
    ensures Sma(x.close, i, n) == Sma(y.close, i, n)
  {
    AgreeSlices(x, y, i + 1, i - n + 1, i + 1);
  }

  /** The state vector of a bar depends on the bars up to it. */
  lemma StateSeesOnlyThePast(x: History, y: History, i: nat)
    requires Agree(x, y, i + 1)
    ensures StateAt(x, i) == StateAt(y, i)
  {
    hide Vector, TrueRanges, Sma, Agree;
    AgreeBar(x, y, i + 1, i);
    if i >= 252 {
      AgreeBar(x, y, i + 1, i - 20);
      SmaAgrees(x, y, i, 200);
      SmaAgrees(x, y, i, 50);
      SmaAgrees(x, y, i, 20);
      AgreeSlices(x, y, i + 1, i - 251, i + 1);
      TrueRangesAgree(x, y, i);
    }
  }

  /** The outcome of a bar depends on the bars up to the end of its window. */
  lemma OutcomeSeesItsWindow(x: History, y: History, j: nat, b: Barriers)
    requires Agree(x, y, j + b.horizon + 1)
    ensures OutcomeOf(x, j, b) == OutcomeOf(y, j, b)
  {
    forall k | j <= k <= j + b.horizon
      ensures x.close[k] == y.close[k] && x.high[k] == y.high[k] && x.low[k] == y.low[k]
    {
      AgreeBar(x, y, j + b.horizon + 1, k);
    }
  }

  // ---------------------------------------------------------------- one evaluation

  datatype Verdict = LookaheadError | NoState | TooFewAnalogs | Predicted(stats: Stats, prediction: Prediction)

  /** The pool's bars that have both a state and a resolved outcome. */
  function Usable(x: History, pool: seq<nat>, b: Barriers): (r: seq<nat>)
    requires x.Valid() && forall n | 0 <= n < |pool| :: pool[n] < |x.close|
    ensures forall n | 0 <= n < |r| ::
              r[n] < |x.close| && StateAt(x, r[n]).Some? && OutcomeOf(x, r[n], b).Some?
  {
    if pool == [] then []
    else
      var rest := Usable(x, pool[1..], b);
      if StateAt(x, pool[0]).Some? && OutcomeOf(x, pool[0], b).Some? then [pool[0]] + rest else rest
  }

  lemma SpreadIsNotZero(states: seq<State>, sqrt: real -> real)
    requires IsSqrt(sqrt) && StatsOf(states, sqrt).Some?
    ensures Scaled(StatsOf(states, sqrt).value)
  {
  }

  function StatesOf(x: History, index: seq<nat>): seq<State>
    requires x.Valid()
    requires forall n | 0 <= n < |index| :: index[n] < |x.close| && StateAt(x, index[n]).Some?
  {
    seq(|index|, n requires 0 <= n < |index| => StateAt(x, index[n]).value)
  }

  function OutcomesOf(x: History, index: seq<nat>, b: Barriers): seq<int>
    requires x.Valid()
    requires forall n | 0 <= n < |index| :: index[n] < |x.close| && OutcomeOf(x, index[n], b).Some?
  {
    seq(|index|, n requires 0 <= n < |index| => OutcomeOf(x, index[n], b).value)
  }

  /** The verdict on a target state, given a pool already reduced to states and outcomes. */
  function Judge(
    target: Option<State>, states: seq<State>, outcomes: seq<int>, index: seq<nat>, sqrt: real -> real, k: nat): Verdict
    requires |states| == |outcomes| == |index| && IsSqrt(sqrt)
  {
    var stats := StatsOf(states, sqrt);
    if target.None? then NoState
    else if stats.None? then TooFewAnalogs
    else
      SpreadIsNotZero(states, sqrt);
      Predicted(stats.value, Predict(target.value, states, outcomes, index, stats.value, k))
  }

  /** The evaluation of bar `i` against an analog pool: the guard, the pool's states and
      outcomes, their statistics, and the k nearest neighbours. */
  function Evaluate(x: History, i: nat, pool: seq<nat>, b: Barriers, sqrt: real -> real, k: nat): Verdict
    requires x.Valid() && i < |x.close| && IsSqrt(sqrt)
  {
    if !NoLookahead(i, pool, b.horizon) then LookaheadError
    else
      var index := Usable(x, pool, b);
      Judge(StateAt(x, i), StatesOf(x, index), OutcomesOf(x, index, b), index, sqrt, k)
  }

  lemma {:induction false} UsableAgrees(x: History, y: History, i: nat, pool: seq<nat>, b: Barriers)
    requires Agree(x, y, i) && forall n | 0 <= n < |pool| :: pool[n] < i - b.horizon
    ensures Usable(x, pool, b) == Usable(y, pool, b)
  {
    if pool != [] {
      PastAnalogAgrees(x, y, i, pool[0], b);
      UsableAgrees(x, y, i, pool[1..], b);
    }
  }

  lemma AgreeShorter(x: History, y: History, n: nat, m: nat)
    requires Agree(x, y, n) && m <= n
    ensures Agree(x, y, m)
  {
    assert x.close[..m] == x.close[..n][..m] && x.high[..m] == x.high[..n][..m] && x.low[..m] == x.low[..n][..m];
  }

  /** An accepted analog has its state and its whole outcome window before bar `i`. */
  lemma PastAnalogAgrees(x: History, y: History, i: nat, j: nat, b: Barriers)
    requires Agree(x, y, i) && j < i - b.horizon
    ensures StateAt(x, j) == StateAt(y, j) && OutcomeOf(x, j, b) == OutcomeOf(y, j, b)
  {
    AgreeShorter(x, y, i, j + 1);
    AgreeShorter(x, y, i, j + b.horizon + 1);
    StateSeesOnlyThePast(x, y, j);
    OutcomeSeesItsWindow(x, y, j, b);
  }

  lemma {:induction false} UsableFromPool(x: History, pool: seq<nat>, b: Barriers, bound: int)
    requires x.Valid() && forall n | 0 <= n < |pool| :: pool[n] < |x.close| && pool[n] < bound
    ensures forall n | 0 <= n < |Usable(x, pool, b)| :: Usable(x, pool, b)[n] < bound
  {
    if pool != [] {
      UsableFromPool(x, pool[1..], b, bound);
    }
  }

  /** Two histories that agree on bars 0..i give bar i the same verdict on any pool: the same
      rejection, or the same statistics, neighbours and probability. */
  lemma NoLookaheadIsNoninterference(
    x: History, y: History, i: nat, pool: seq<nat>, b: Barriers, sqrt: real -> real, k: nat)
    requires Agree(x, y, i + 1) && IsSqrt(sqrt)
    ensures Evaluate(x, i, pool, b, sqrt, k) == Evaluate(y, i, pool, b, sqrt, k)
  {
    hide IsSqrt, Judge, StateAt, OutcomeOf;
    StateSeesOnlyThePast(x, y, i);
    if NoLookahead(i, pool, b.horizon) {
      AgreeShorter(x, y, i + 1, i);
      UsableAgrees(x, y, i, pool, b);
      UsableFromPool(x, pool, b, i - b.horizon);
      var index := Usable(x, pool, b);
      forall n | 0 <= n < |index|
        ensures StateAt(x, index[n]) == StateAt(y, index[n])
        ensures OutcomeOf(x, index[n], b) == OutcomeOf(y, index[n], b)
      {
        PastAnalogAgrees(x, y, i, index[n], b);
      }
      assert StatesOf(x, index) == StatesOf(y, index);
      assert OutcomesOf(x, index, b) == OutcomesOf(y, index, b);
    }
  }

  // ---------------------------------------------------------------- the guard is exact

  function Flat(n: nat): History {
    var level := seq(n, _ => 100.0);
    History(level, level, level)
  }

  /** Flat, except for one high that reaches the up barrier. */
  function Spiked(n: nat, at: nat, upPct: real): History
    requires at < n
  {
    Flat(n).(high := Flat(n).high[at := Level(100.0, upPct)])
  }

  /** For a genuine pair of barriers and a window of at least one bar, the guard passes exactly
      when no analog's outcome can depend on bar `i` or anything after it. */
  lemma GuardIsExact(i: nat, pool: seq<nat>, b: Barriers)
    requires b.upPct > 0.0 && b.dnPct < 0.0 && b.horizon >= 1
    ensures NoLookahead(i, pool, b.horizon)
            <==> forall x, y, n | Agree(x, y, i) && i < |x.close| && i < |y.close| && 0 <= n < |pool| ::
                   OutcomeOf(x, pool[n], b) == OutcomeOf(y, pool[n], b)
  {
    if NoLookahead(i, pool, b.horizon) {
      forall x, y, n | Agree(x, y, i) && i < |x.close| && i < |y.close| && 0 <= n < |pool|
        ensures OutcomeOf(x, pool[n], b) == OutcomeOf(y, pool[n], b)
      {
        PastAnalogAgrees(x, y, i, pool[n], b);
      }
    } else {
      var j := Latest(pool);
      var at := j + b.horizon;
      var x, y := Flat(at + i + 1), Spiked(at + i + 1, at, b.upPct);
      assert Agree(x, y, i);
      assert Level(100.0, b.upPct) > 100.0 > Level(100.0, b.dnPct);
      assert OutcomeOf(x, j, b) == Some(0);
      assert y.high[at] >= Level(y.close[j], b.upPct);
      assert OutcomeOf(y, j, b) == Some(1);
    }
  }
}
