/** Equity below zero: how a backtest gets there, and what it does to the drawdown over pairs
    of bars. */
module NegativeEquity {
  import opened Backtest
  import opened Drawdown
  import opened Solvency
  import opened Reals

  /** Once below zero the curve never moves again. */
  ghost predicate StaysDown(curve: seq<real>) {
    forall i, j | 0 <= i <= j < |curve| && curve[i] < 0.0 :: curve[j] == curve[i]
  }

  /** Equity is below zero only while flat, and is then the cash. */
  ghost predicate OnlyFlatBelowZero(a: Account) {
    && StaysDown(a.equity)
    && forall i | 0 <= i < |a.equity| && a.equity[i] < 0.0 :: a.qty == 0.0 && a.equity[i] == a.cash
  }

  /** Nothing is bought on a debt. */
  lemma StepBelowZero(a: Account, fees: FeeModel, bar: nat, price: real, signal: int)
    requires Solvent(a, fees) && fees.commission >= 0.0 && fees.stampRate >= 0.0 && price > 0.0 && Priceable(fees, price)
    ensures var b := Step(a, fees, bar, price, signal);
            && (b.cash + Value(b.qty, price) < 0.0 ==> b.qty == 0.0 && b.cash + Value(b.qty, price) == b.cash)
            && (a.qty == 0.0 && a.cash < 0.0 ==> b.qty == 0.0 && b.cash == a.cash)
  {
    hide Value, BuyFees, UnitCost, Bought;
    var b := Step(a, fees, bar, price, signal);
    StepSolvent(a, fees, bar, price, signal);
    PositiveValue(b.qty, price);
    NothingHeld(price);
  }

  lemma {:induction false} RunBelowZero(closes: seq<real>, signals: seq<int>, capital: real, fees: FeeModel, n: nat)
    requires n <= |closes| == |signals| && AllPriceable(fees, closes) && Sane(closes, capital, fees)
    ensures OnlyFlatBelowZero(RunTo(closes, signals, capital, fees, n))
  {
    hide Value, Step, Priceable, Solvent;
    if n > 0 {
      RunBelowZero(closes, signals, capital, fees, n - 1);
      RunSolvent(closes, signals, capital, fees, n - 1);
      var a := RunTo(closes, signals, capital, fees, n - 1);
      StepBelowZero(a, fees, n - 1, closes[n - 1], signals[n - 1]);
      EquityOfBar(a, fees, n - 1, closes[n - 1], signals[n - 1]);
      NothingHeld(closes[n - 1]);
    }
  }

  /** With positive prices and no rebates, a backtest whose equity falls below zero is over:
      it stays at that level to the end. */
  lemma BacktestStaysDown(closes: seq<real>, signals: seq<int>, capital: real, fees: FeeModel)
    requires |closes| == |signals| && AllPriceable(fees, closes) && Sane(closes, capital, fees)
    ensures StaysDown(Backtested(closes, signals, capital, fees).equity)
  {
    hide RunTo, Value;
    EquityPerBar(closes, signals, capital, fees, |closes|);
    RunBelowZero(closes, signals, capital, fees, |closes|);
  }

  // ---------------------------------------------------------------- pairs of bars

  lemma DeeperFromLower(low: real, high: real, to: real)
    requires 0.0 < low < high && to < 0.0
    ensures Relative(low, to) < Relative(high, to) < -1.0
  {
    hide Relative;
    RelativeIsRatio(low, to);
    RelativeIsRatio(high, to);
    var q, r := to / low, to / high;
    assert q * low == to && r * high == to;
    CancelFactor(r, 0.0, high);
    NegativeFactor(r, low, high);
    CancelFactor(q, r, low);
  }

  lemma NegativeFactor(r: real, low: real, high: real)
    requires r < 0.0 && low < high
    ensures r * high < r * low
  {
    CancelFactor(low, high, -r);
    assert low * -r == -(r * low) && high * -r == -(r * high);
  }

  lemma AtMostAll(from: real, to: real)
    requires from > 0.0 && to >= 0.0
    ensures Relative(from, to) >= -1.0
  {
    hide Relative;
    RelativeIsRatio(from, to);
    CancelFactor(to / from, 0.0, from);
  }

  /** Some pair of bars falls further than the reported maximum drawdown. */
  ghost predicate Undercut(equity: seq<real>, worst: real) {
    exists i, j :: 0 <= i <= j < |equity| && equity[i] > 0.0 && Relative(equity[i], equity[j]) < worst
  }

  /** The guard of the case: below zero at the end, after two different positive levels. */
  predicate EndsBelowTwoLevels(equity: seq<real>)
    requires equity != []
  {
    equity[|equity| - 1] < 0.0 && exists i, k | 0 <= i < |equity| && 0 <= k < |equity| :: 0.0 < equity[i] < equity[k]
  }

  lemma UndercutOnlyBelowZero(equity: seq<real>, day: seq<int>, i: nat, j: nat)
    requires equity != [] && equity[0] > 0.0 && |day| == |equity| && i <= j < |equity| && equity[i] > 0.0
    requires Relative(equity[i], equity[j]) < ComputeStats(equity, day).maxDrawdown
    ensures equity[j] < 0.0 && exists k :: 0 <= k <= j && equity[i] < equity[k]
  {
    hide Relative, CumMax;
    MaxDrawdownIsWorstPair(equity, day);
    CumMaxIsMax(equity, j);
    var k :| 0 <= k <= j && equity[k] == CumMax(equity)[j];
    assert ComputeStats(equity, day).maxDrawdown <= Drawdowns(equity)[j];
  }

  lemma LowerLevelUndercuts(equity: seq<real>, day: seq<int>, i: nat, k: nat)
    requires equity != [] && equity[0] > 0.0 && |day| == |equity| && StaysDown(equity) && equity[|equity| - 1] < 0.0
    requires i < |equity| && k < |equity| && 0.0 < equity[i] < equity[k]
    ensures Relative(equity[i], equity[|equity| - 1]) < ComputeStats(equity, day).maxDrawdown
  {
    hide Relative, CumMax;
    var last, t := |equity| - 1, ArgMin(Drawdowns(equity));
    DeeperFromLower(equity[i], equity[k], equity[last]);
    CumMaxIsMax(equity, t);
    if equity[t] >= 0.0 {
      AtMostAll(CumMax(equity)[t], equity[t]);
    } else {
      assert equity[t] == equity[last];
      assert k < t;
      DeeperFromLower(equity[i], CumMax(equity)[t], equity[last]);
    }
  }

  /** The reported drawdown is that of the worst pair of bars except exactly when the backtest
      ends below zero having been at two different levels above. */
  lemma UndercutIff(equity: seq<real>, day: seq<int>)
    requires equity != [] && equity[0] > 0.0 && |day| == |equity| && StaysDown(equity)
    ensures Undercut(equity, ComputeStats(equity, day).maxDrawdown) <==> EndsBelowTwoLevels(equity)
  {
    hide Relative, ComputeStats;
    var worst := ComputeStats(equity, day).maxDrawdown;
    if Undercut(equity, worst) {
      var i, j :| 0 <= i <= j < |equity| && equity[i] > 0.0 && Relative(equity[i], equity[j]) < worst;
      UndercutOnlyBelowZero(equity, day, i, j);
    }
    if EndsBelowTwoLevels(equity) {
      var i, k :| 0 <= i < |equity| && 0 <= k < |equity| && 0.0 < equity[i] < equity[k];
      LowerLevelUndercuts(equity, day, i, k);
    }
  }

  const TWO_COMMISSIONS := FeeModel(1.5, 0.0)

  lemma ExampleBuy(a: Account)
    requires a.cash == 2.5 && a.qty == 0.0
    ensures Priceable(TWO_COMMISSIONS, 1.0)
    ensures var b := Step(a, TWO_COMMISSIONS, 0, 1.0, 1);
            b.cash == 0.0 && b.qty == 1.0 && b.equity == a.equity + [1.0]
  {
    assert (1.0 / 1.0 * 10000.0).Floor == 10000;
    assert Bought(TWO_COMMISSIONS, 1.0, 1.0) == 1.0;
  }

  lemma ExampleHoldAndSell(a: Account)
    requires a.cash == 0.0 && a.qty == 1.0
    ensures Priceable(TWO_COMMISSIONS, 2.0) && Priceable(TWO_COMMISSIONS, 0.5)
    ensures Step(a, TWO_COMMISSIONS, 1, 2.0, 0) == a.(equity := a.equity + [2.0])
    ensures var b := Step(a, TWO_COMMISSIONS, 2, 0.5, -1);
            b.cash == -1.0 && b.qty == 0.0 && b.equity == a.equity + [-1.0]
  {
    hide Bought, BuyFees;
  }

  /** The exception is really reached: two commissions of 1.5 out of a capital of 2.5. */
  lemma NegativeEquityBreaksPairs()
    ensures var closes, signals := [1.0, 2.0, 0.5], [1, 0, -1];
            && AllPriceable(TWO_COMMISSIONS, closes)
            && Backtested(closes, signals, 2.5, TWO_COMMISSIONS).equity == [1.0, 2.0, -1.0]
            && Undercut([1.0, 2.0, -1.0], ComputeStats([1.0, 2.0, -1.0], [0, 1, 2]).maxDrawdown)
  {
    hide Step, Priceable, ComputeStats, Undercut;
    var closes, signals, fees := [1.0, 2.0, 0.5], [1, 0, -1], TWO_COMMISSIONS;
    var start := Account(2.5, 0.0, [], []);
    ExampleBuy(start);
    var bought := Step(start, fees, 0, 1.0, 1);
    ExampleHoldAndSell(bought);
    ExampleHoldAndSell(bought.(equity := [1.0, 2.0]));
    assert RunTo(closes, signals, 2.5, fees, 0) == start;
    assert RunTo(closes, signals, 2.5, fees, 1) == bought;
    assert RunTo(closes, signals, 2.5, fees, 2) == bought.(equity := [1.0, 2.0]);
    assert RunTo(closes, signals, 2.5, fees, 3).equity == [1.0, 2.0, -1.0];
    var equity := [1.0, 2.0, -1.0];
    assert 0.0 < equity[0] < equity[1];
    UndercutIff(equity, [0, 1, 2]);
  }
}
