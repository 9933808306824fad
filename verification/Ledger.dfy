/** What the trade log of a backtest promises: it accounts for every unit of cash at every
    bar, it is a sequence of closed round trips, each trade is priced and sized as the rules
    say, and cash can only dip below zero by a closing commission. */
module Ledger {
  import opened Backtest

  // ---------------------------------------------------------------- conservation

  /** Sell notionals minus buy notionals minus all fees. */
  function CashFlow(log: seq<Trade>): real {
    if log == [] then 0.0
    else
      var t := log[|log| - 1];
      CashFlow(log[..|log| - 1])
      + (if t.side.Buy? then -Value(t.quantity, t.price) else Value(t.quantity, t.price)) - t.fees
  }

  /** Shares bought minus shares sold. */
  function Held(log: seq<Trade>): real {
    if log == [] then 0.0
    else
      var t := log[|log| - 1];
      Held(log[..|log| - 1]) + (if t.side.Buy? then t.quantity else -t.quantity)
  }

  /** The trades up to and including `bar`. */
  function Upto(log: seq<Trade>, bar: int): seq<Trade> {
    if log == [] then []
    else
      var t := log[|log| - 1];
      Upto(log[..|log| - 1], bar) + (if t.bar <= bar then [t] else [])
  }

  /** Equity at a bar, from the log alone. */
  function MarkToMarket(capital: real, log: seq<Trade>, bar: nat, price: real): real {
    capital + CashFlow(Upto(log, bar)) + Value(Held(Upto(log, bar)), price)
  }

  ghost predicate BarsUpto(log: seq<Trade>, bar: int) {
    forall k | 0 <= k < |log| :: log[k].bar <= bar
  }

  lemma {:induction false} UptoAll(log: seq<Trade>, bar: int)
    requires BarsUpto(log, bar)
    ensures Upto(log, bar) == log
  {
    if log != [] {
      var init, t := log[..|log| - 1], log[|log| - 1];
      assert forall k | 0 <= k < |init| :: init[k] == log[k];
      UptoAll(init, bar);
      assert Upto(log, bar) == init + [t];
    }
  }

  lemma AppendTrade(log: seq<Trade>, t: Trade, bar: int)
    ensures Upto(log + [t], bar) == Upto(log, bar) + (if t.bar <= bar then [t] else [])
    ensures CashFlow(log + [t])
         == CashFlow(log) + (if t.side.Buy? then -Value(t.quantity, t.price) else Value(t.quantity, t.price)) - t.fees
    ensures Held(log + [t]) == Held(log) + (if t.side.Buy? then t.quantity else -t.quantity)
  {
    assert (log + [t])[..|log + [t]| - 1] == log;
  }

  /** The books of an account after the first `|equity|` bars. */
  ghost predicate Balanced(a: Account, closes: seq<real>, capital: real) {
    && |a.equity| <= |closes|
    && BarsUpto(a.trades, |a.equity| - 1)
    && a.cash == capital + CashFlow(a.trades)
    && a.qty == Held(a.trades)
    && forall i | 0 <= i < |a.equity| :: a.equity[i] == MarkToMarket(capital, a.trades, i, closes[i])
  }

  /** A bar that leaves the log alone only adds its own equity. */
  lemma HoldBalanced(a: Account, b: Account, closes: seq<real>, capital: real)
    requires Balanced(a, closes, capital) && |a.equity| < |closes|
    requires b == a.(equity := a.equity + [a.cash + Value(a.qty, closes[|a.equity|])])
    ensures Balanced(b, closes, capital)
  {
    hide Value, CashFlow, Held, Upto;
    UptoAll(a.trades, |a.equity|);
  }

  lemma LaterTradeKeepsMark(capital: real, log: seq<Trade>, t: Trade, bar: nat, price: real)
    requires bar < t.bar
    ensures MarkToMarket(capital, log + [t], bar, price) == MarkToMarket(capital, log, bar, price)
  {
    hide Value, CashFlow, Held;
    AppendTrade(log, t, bar);
    assert Upto(log + [t], bar) == Upto(log, bar);
  }

  /** A bar that logs a trade and books exactly that trade's cash and quantity. */
  lemma TradeBalanced(a: Account, b: Account, t: Trade, closes: seq<real>, capital: real)
    requires Balanced(a, closes, capital) && |a.equity| < |closes| && t.bar == |a.equity|
    requires b.trades == a.trades + [t]
    requires b.equity == a.equity + [b.cash + Value(b.qty, closes[|a.equity|])]
    requires b.cash == a.cash + CashFlow(b.trades) - CashFlow(a.trades)
    requires b.qty == a.qty + Held(b.trades) - Held(a.trades)
    ensures Balanced(b, closes, capital)
  {
    hide Value, CashFlow, Held, Upto;
    var n := |a.equity|;
    UptoAll(b.trades, n);
    assert b.equity[n] == MarkToMarket(capital, b.trades, n, closes[n]);
    forall i | 0 <= i < n
      ensures b.equity[i] == MarkToMarket(capital, b.trades, i, closes[i])
    {
      hide MarkToMarket;
      LaterTradeKeepsMark(capital, a.trades, t, i, closes[i]);
      assert b.equity[i] == a.equity[i];
    }
  }

  lemma StepBalanced(a: Account, closes: seq<real>, capital: real, fees: FeeModel, signal: int)
    requires Balanced(a, closes, capital) && |a.equity| < |closes|
    requires Priceable(fees, closes[|a.equity|])
    ensures Balanced(Step(a, fees, |a.equity|, closes[|a.equity|], signal), closes, capital)
  {
    hide Value, BuyFees, Bought, Priceable, Balanced, CashFlow, Held;
    var n := |a.equity|;
    var b := Step(a, fees, n, closes[n], signal);
    if |b.trades| > |a.trades| {
      var t := b.trades[|a.trades|];
      AppendTrade(a.trades, t, n);
      TradeBalanced(a, b, t, closes, capital);
    } else {
      HoldBalanced(a, b, closes, capital);
    }
  }

  lemma {:induction false} RunBalanced(closes: seq<real>, signals: seq<int>, capital: real, fees: FeeModel, n: nat)
    requires n <= |closes| == |signals| && AllPriceable(fees, closes)
    ensures Balanced(RunTo(closes, signals, capital, fees, n), closes, capital)
    ensures |RunTo(closes, signals, capital, fees, n).equity| == n
  {
    hide Value, BuyFees, Bought, Priceable;
    EquityPerBar(closes, signals, capital, fees, n);
    if n > 0 {
      RunBalanced(closes, signals, capital, fees, n - 1);
      StepBalanced(RunTo(closes, signals, capital, fees, n - 1), closes, capital, fees, signals[n - 1]);
    }
  }

  lemma CloseOutBalanced(open: Account, closes: seq<real>, capital: real, fees: FeeModel)
    requires 0 < |closes| == |open.equity| && Balanced(open, closes, capital) && open.qty > 0.0
    ensures var n := |closes|;
            var a := CloseOut(open, fees, n - 1, closes[n - 1]);
            && (forall i | 0 <= i < n - 1 :: a.equity[i] == MarkToMarket(capital, a.trades, i, closes[i]))
            && BarsUpto(a.trades, n - 1)
            && Held(a.trades) == 0.0
            && a.equity[n - 1] == capital + CashFlow(a.trades)
  {
    hide Value, CashFlow, Held;
    var n := |closes|;
    var a := CloseOut(open, fees, n - 1, closes[n - 1]);
    var t := Trade(n - 1, Sell, closes[n - 1], open.qty, fees.commission);
    AppendTrade(open.trades, t, n - 1);
    forall i | 0 <= i < n - 1
      ensures a.equity[i] == MarkToMarket(capital, a.trades, i, closes[i])
    {
      AppendTrade(open.trades, t, i);
      assert Upto(a.trades, i) == Upto(open.trades, i);
      assert a.equity[i] == open.equity[i];
    }
  }

  /** Conservation: at every bar the equity is the initial capital plus what the log's trades
      so far paid or received, net of all fees, plus the log's open quantity at the close; at
      the end nothing is open. */
  lemma LedgerConservation(closes: seq<real>, signals: seq<int>, capital: real, fees: FeeModel)
    requires 0 < |closes| == |signals| && AllPriceable(fees, closes)
    ensures var a := Backtested(closes, signals, capital, fees);
            && |a.equity| == |closes|
            && (forall i | 0 <= i < |closes| :: a.equity[i] == MarkToMarket(capital, a.trades, i, closes[i]))
            && Held(a.trades) == 0.0
            && a.equity[|closes| - 1] == capital + CashFlow(a.trades)
  {
    hide Value, CashFlow, Held, RunTo, Priceable, Alternates, BarsIncrease;
    var n := |closes|;
    RunBalanced(closes, signals, capital, fees, n);
    RunShape(closes, signals, capital, fees, n);
    var open, a := RunTo(closes, signals, capital, fees, n), Backtested(closes, signals, capital, fees);
    if open.qty > 0.0 {
      CloseOutBalanced(open, closes, capital, fees);
    }
    UptoAll(a.trades, n - 1);
    NothingHeld(closes[n - 1]);
  }

  // ---------------------------------------------------------------- shape of the log

  ghost predicate WholeLots(quantity: real) {
    exists lots: int :: Shares(lots) == quantity
  }

  lemma BoughtWholeLots(fees: FeeModel, notional: real, price: real)
    requires Priceable(fees, price)
    ensures WholeLots(Bought(fees, notional, price))
  {
    assert Shares((notional / UnitCost(fees, price) * LOTS_PER_SHARE).Floor) == Bought(fees, notional, price);
  }

  /** A trade in the log is what its bar's signal asked for, at that bar's close, with that
      side's fees. `forced` is the bar at which a sale needs no signal, or -1. */
  ghost predicate WellPriced(t: Trade, closes: seq<real>, signals: seq<int>, fees: FeeModel, forced: int)
    requires |closes| == |signals|
  {
    && t.bar < |closes|
    && t.price == closes[t.bar]
    && t.quantity > 0.0
    && (t.side.Buy? ==> signals[t.bar] == 1 && WholeLots(t.quantity) && t.fees == BuyFees(fees, t.quantity, t.price))
    && (t.side.Sell? ==> (signals[t.bar] == -1 || t.bar == forced) && t.fees == fees.commission)
  }

  /** Buys and sells alternate, buy first; each sale sells what its purchase bought. */
  ghost predicate Alternates(log: seq<Trade>) {
    && (forall k | 0 <= k < |log| :: log[k].side == if k % 2 == 0 then Buy else Sell)
    && (forall k | 0 < k < |log| && k % 2 == 1 :: log[k].quantity == log[k - 1].quantity)
  }

  ghost predicate BarsIncrease(log: seq<Trade>) {
    forall j, k | 0 <= j < k < |log| :: log[j].bar < log[k].bar
  }

  ghost predicate Shaped(a: Account, closes: seq<real>, signals: seq<int>, fees: FeeModel)
    requires |closes| == |signals|
  {
    && Alternates(a.trades)
    && BarsIncrease(a.trades)
    && (forall k | 0 <= k < |a.trades| :: WellPriced(a.trades[k], closes, signals, fees, -1))
    && a.qty >= 0.0
    && (a.qty > 0.0 <==> |a.trades| % 2 == 1)
    && (a.qty > 0.0 ==> a.trades[|a.trades| - 1].quantity == a.qty)
  }

  lemma AppendAlternates(log: seq<Trade>, t: Trade)
    requires Alternates(log)
    requires t.side == if |log| % 2 == 0 then Buy else Sell
    requires |log| % 2 == 1 ==> t.quantity == log[|log| - 1].quantity
    ensures Alternates(log + [t])
  {
  }

  lemma AppendBars(log: seq<Trade>, t: Trade)
    requires BarsIncrease(log) && BarsUpto(log, t.bar - 1)
    ensures BarsIncrease(log + [t])
  {
  }

  lemma StepShape(a: Account, closes: seq<real>, signals: seq<int>, fees: FeeModel, n: nat)
    requires n < |closes| == |signals| && Priceable(fees, closes[n])
    requires Shaped(a, closes, signals, fees) && BarsUpto(a.trades, n - 1)
    ensures var b := Step(a, fees, n, closes[n], signals[n]);
            Shaped(b, closes, signals, fees) && BarsUpto(b.trades, n)
  {
    hide Value, BuyFees, Bought, Priceable, WholeLots;
    BoughtWholeLots(fees, a.cash - fees.commission, closes[n]);
    var b := Step(a, fees, n, closes[n], signals[n]);
    if |b.trades| > |a.trades| {
      var t := b.trades[|a.trades|];
      assert b.trades == a.trades + [t];
      AppendAlternates(a.trades, t);
      AppendBars(a.trades, t);
    }
  }

  lemma {:induction false} RunShape(closes: seq<real>, signals: seq<int>, capital: real, fees: FeeModel, n: nat)
    requires n <= |closes| == |signals| && AllPriceable(fees, closes)
    ensures Shaped(RunTo(closes, signals, capital, fees, n), closes, signals, fees)
    ensures BarsUpto(RunTo(closes, signals, capital, fees, n).trades, n - 1)
  {
    hide Value, BuyFees, Bought, Priceable, Step;
    if n > 0 {
      RunShape(closes, signals, capital, fees, n - 1);
      StepShape(RunTo(closes, signals, capital, fees, n - 1), closes, signals, fees, n - 1);
    }
  }

  ghost predicate ClosedLog(log: seq<Trade>, closes: seq<real>, signals: seq<int>, fees: FeeModel)
    requires |closes| == |signals|
  {
    && Alternates(log) && |log| % 2 == 0
    && (forall k | 0 <= k < |log| :: WellPriced(log[k], closes, signals, fees, |closes| - 1))
    && (log == [] || BarsIncrease(log[..|log| - 1]))
    && (|log| >= 2 ==> log[|log| - 2].bar <= log[|log| - 1].bar)
  }

  lemma CloseOutShape(open: Account, closes: seq<real>, signals: seq<int>, fees: FeeModel)
    requires 0 < |closes| == |signals| == |open.equity|
    requires Shaped(open, closes, signals, fees) && BarsUpto(open.trades, |closes| - 1)
    ensures ClosedLog(CloseOut(open, fees, |closes| - 1, closes[|closes| - 1]).trades, closes, signals, fees)
  {
    hide Value, BuyFees, WholeLots;
    var n := |closes|;
    var log := CloseOut(open, fees, n - 1, closes[n - 1]).trades;
    if open.qty > 0.0 {
      var t := Trade(n - 1, Sell, closes[n - 1], open.qty, fees.commission);
      AppendAlternates(open.trades, t);
      assert log == open.trades + [t];
      assert log[..|log| - 1] == open.trades;
    } else if log != [] {
      InitIncreases(log);
    }
  }

  lemma InitIncreases(log: seq<Trade>)
    requires BarsIncrease(log) && log != []
    ensures BarsIncrease(log[..|log| - 1])
  {
  }

  /** The log is a list of closed round trips: it alternates from a buy to a sale of the same
      quantity, nothing is left open, bars strictly increase except that the forced sale may
      share the last bar with its purchase, and every trade is priced by its own bar. */
  lemma LogShape(closes: seq<real>, signals: seq<int>, capital: real, fees: FeeModel)
    requires 0 < |closes| == |signals| && AllPriceable(fees, closes)
    ensures ClosedLog(Backtested(closes, signals, capital, fees).trades, closes, signals, fees)
  {
    hide Value, BuyFees, RunTo, Shaped, CloseOut, ClosedLog, BarsUpto;
    RunShape(closes, signals, capital, fees, |closes|);
    EquityPerBar(closes, signals, capital, fees, |closes|);
    CloseOutShape(RunTo(closes, signals, capital, fees, |closes|), closes, signals, fees);
  }
}
