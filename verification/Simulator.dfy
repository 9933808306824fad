/** The backend's simulator, run without stop losses, against the executor that is documented
    to match it. The simulator records no equity point at a bar whose entry does not fill. */
module Simulator {
  import opened Backtest
  import opened Solvency
  import Ledger

  // ---------------------------------------------------------------- the simulator's loop

  /** A +1 seen while flat with cash, whose sizing comes to nothing. */
  predicate Unfilled(a: Account, fees: FeeModel, price: real, signal: int)
    requires Priceable(fees, price)
  {
    signal == 1 && a.qty == 0.0 && a.cash > 0.0 && !CanFill(fees, a.cash, price)
  }

  /** A +1 seen while flat, with cash, but not for a single lot. */
  predicate TooDear(a: Account, fees: FeeModel, price: real, signal: int) {
    signal == 1 && a.qty == 0.0 && a.cash > 0.0 && !Affordable(fees, a.cash, price)
  }

  lemma UnfilledIff(a: Account, fees: FeeModel, price: real, signal: int)
    requires Priceable(fees, price)
    ensures Unfilled(a, fees, price, signal) <==> TooDear(a, fees, price, signal)
  {
    hide CanFill, Affordable;
    FillsIffAffordable(fees, a.cash, price);
  }

  function SimTo(closes: seq<real>, signals: seq<int>, capital: real, fees: FeeModel, n: nat): Account
    requires n <= |closes| == |signals| && AllPriceable(fees, closes)
  {
    if n == 0 then Account(capital, 0.0, [], [])
    else
      var a := SimTo(closes, signals, capital, fees, n - 1);
      if Unfilled(a, fees, closes[n - 1], signals[n - 1]) then a
      else Step(a, fees, n - 1, closes[n - 1], signals[n - 1])
  }

  datatype Simulation = Simulation(finalEquity: real, trades: seq<Trade>, equity: seq<real>)

  function Simulated(closes: seq<real>, signals: seq<int>, capital: real, fees: FeeModel): Simulation
    requires |closes| == |signals| && AllPriceable(fees, closes)
  {
    if closes == [] then Simulation(capital, [], [])
    else
      var open, last := SimTo(closes, signals, capital, fees, |closes|), |closes| - 1;
      var a :=
        if open.qty > 0.0 then
          var cash := open.cash + (Value(open.qty, closes[last]) - fees.commission);
          Account(cash, 0.0, if open.equity == [] then [] else open.equity[..|open.equity| - 1] + [cash],
                  open.trades + [Trade(last, Sell, closes[last], open.qty, fees.commission)])
        else open;
      Simulation(if a.equity == [] then capital else a.equity[|a.equity| - 1], a.trades, a.equity)
  }

  method SimulateBar(a: Account, fees: FeeModel, bar: nat, price: real, signal: int)
    returns (after: Account, recorded: bool)
    requires Priceable(fees, price)
    ensures recorded == !Unfilled(a, fees, price, signal)
    ensures recorded ==> after.(equity := after.equity + [after.cash + Value(after.qty, price)]) == Step(a, fees, bar, price, signal)
    ensures !recorded ==> after == a
  {
    hide Value, BuyFees, Bought, UnitCost;
    after, recorded := a, true;
    if signal == 1 && a.qty == 0.0 && a.cash > 0.0 {
      var notional := a.cash - fees.commission;
      if notional <= 0.0 {
        recorded := false;
        return;
      }
      var bought := Bought(fees, notional, price);
      if bought <= 0.0 {
        recorded := false;
        return;
      }
      var totalFees := BuyFees(fees, bought, price);
      after := after.(cash := a.cash - (Value(bought, price) + totalFees),
                      qty := a.qty + bought,
                      trades := a.trades + [Trade(bar, Buy, price, bought, totalFees)]);
    } else if signal == -1 && a.qty > 0.0 {
      var proceeds := Value(a.qty, price) - fees.commission;
      after := after.(cash := a.cash + proceeds,
                      qty := 0.0,
                      trades := a.trades + [Trade(bar, Sell, price, a.qty, fees.commission)]);
    }
  }

  method Run(closes: seq<real>, signals: seq<int>, capital: real, fees: FeeModel) returns (r: Simulation)
    requires |closes| == |signals| && AllPriceable(fees, closes)
    ensures r == Simulated(closes, signals, capital, fees)
  {
    hide Step, Unfilled, Value, Priceable;
    if closes == [] {
      return Simulation(capital, [], []);
    }
    var a := Account(capital, 0.0, [], []);
    for i := 0 to |closes|
      invariant a == SimTo(closes, signals, capital, fees, i)
    {
      var recorded;
      a, recorded := SimulateBar(a, fees, i, closes[i], signals[i]);
      if !recorded {
        continue;
      }
      a := a.(equity := a.equity + [a.cash + Value(a.qty, closes[i])]);
    }
    if a.qty > 0.0 {
      var last := |closes| - 1;
      var cash := a.cash + (Value(a.qty, closes[last]) - fees.commission);
      a := Account(cash, 0.0, if a.equity == [] then [] else a.equity[..|a.equity| - 1] + [cash],
                   a.trades + [Trade(last, Sell, closes[last], a.qty, fees.commission)]);
    }
    r := Simulation(if a.equity == [] then capital else a.equity[|a.equity| - 1], a.trades, a.equity);
  }

  // ---------------------------------------------------------------- same trades, thinner curve

  /** The executor's equity curve without the bars whose entry does not fill. */
  function Kept(closes: seq<real>, signals: seq<int>, capital: real, fees: FeeModel, n: nat): seq<real>
    requires n <= |closes| == |signals| && AllPriceable(fees, closes)
  {
    if n == 0 then []
    else
      var a, b := RunTo(closes, signals, capital, fees, n - 1), RunTo(closes, signals, capital, fees, n);
      var kept := Kept(closes, signals, capital, fees, n - 1);
      if Unfilled(a, fees, closes[n - 1], signals[n - 1]) then kept
      else kept + [b.cash + Value(b.qty, closes[n - 1])]
  }

  lemma StepAlone(a: Account, equity: seq<real>, fees: FeeModel, bar: nat, price: real, signal: int)
    requires Priceable(fees, price)
    ensures var b := Step(a, fees, bar, price, signal);
            && Step(a.(equity := equity), fees, bar, price, signal)
               == b.(equity := equity + [b.cash + Value(b.qty, price)])
            && (Unfilled(a.(equity := equity), fees, price, signal) <==> Unfilled(a, fees, price, signal))
            && (Unfilled(a, fees, price, signal) ==> b.cash == a.cash && b.qty == a.qty == 0.0 && b.trades == a.trades)
  {
    hide Value, BuyFees, Bought, UnitCost;
  }

  /** Bar for bar the simulator holds the executor's cash, quantity and trades; its curve is
      the executor's without the unfilled entries. */
  lemma {:induction false} SimFollowsRun(closes: seq<real>, signals: seq<int>, capital: real, fees: FeeModel, n: nat)
    requires n <= |closes| == |signals| && AllPriceable(fees, closes)
    ensures SimTo(closes, signals, capital, fees, n)
         == RunTo(closes, signals, capital, fees, n).(equity := Kept(closes, signals, capital, fees, n))
  {
    hide Step, Unfilled, Value, Priceable;
    if n > 0 {
      SimFollowsRun(closes, signals, capital, fees, n - 1);
      StepAlone(RunTo(closes, signals, capital, fees, n - 1), Kept(closes, signals, capital, fees, n - 1), fees, n - 1,
                closes[n - 1], signals[n - 1]);
    }
  }

  /** The last recorded equity, or the initial capital. */
  function LastOf(curve: seq<real>, capital: real): real {
    if curve == [] then capital else curve[|curve| - 1]
  }

  /** While flat the last recorded equity is the cash; after a recorded bar it is that bar's. */
  lemma {:induction false} LastKept(closes: seq<real>, signals: seq<int>, capital: real, fees: FeeModel, n: nat)
    requires n <= |closes| == |signals| && AllPriceable(fees, closes)
    ensures var a, kept := RunTo(closes, signals, capital, fees, n), Kept(closes, signals, capital, fees, n);
            && (a.qty == 0.0 ==> LastOf(kept, capital) == a.cash)
            && (n > 0 ==> LastOf(kept, capital) == a.cash + Value(a.qty, closes[n - 1]))
            && (a.qty != 0.0 ==> kept != [])
  {
    hide Step, Unfilled, Value, Priceable;
    if n > 0 {
      LastKept(closes, signals, capital, fees, n - 1);
      StepAlone(RunTo(closes, signals, capital, fees, n - 1), [], fees, n - 1, closes[n - 1], signals[n - 1]);
      EquityOfBar(RunTo(closes, signals, capital, fees, n - 1), fees, n - 1, closes[n - 1], signals[n - 1]);
      NothingHeld(closes[n - 1]);
    }
  }

  ghost predicate SomeUnfilled(closes: seq<real>, signals: seq<int>, capital: real, fees: FeeModel, n: nat)
    requires n <= |closes| == |signals| && AllPriceable(fees, closes)
  {
    exists i :: 0 <= i < n && TooDear(RunTo(closes, signals, capital, fees, i), fees, closes[i], signals[i])
  }

  lemma {:induction false} KeptLength(closes: seq<real>, signals: seq<int>, capital: real, fees: FeeModel, n: nat)
    requires n <= |closes| == |signals| && AllPriceable(fees, closes)
    ensures |Kept(closes, signals, capital, fees, n)| <= n
    ensures |Kept(closes, signals, capital, fees, n)| == n <==> !SomeUnfilled(closes, signals, capital, fees, n)
    ensures !SomeUnfilled(closes, signals, capital, fees, n) ==>
              Kept(closes, signals, capital, fees, n) == RunTo(closes, signals, capital, fees, n).equity
  {
    hide Step, Unfilled, TooDear, Value, Priceable;
    if n > 0 {
      KeptLength(closes, signals, capital, fees, n - 1);
      UnfilledIff(RunTo(closes, signals, capital, fees, n - 1), fees, closes[n - 1], signals[n - 1]);
      EquityOfBar(RunTo(closes, signals, capital, fees, n - 1), fees, n - 1, closes[n - 1], signals[n - 1]);
    }
  }

  /** Executor and simulator agree on every trade and on the final equity, for any prices,
      signals and fees. Their equity curves are the same exactly when no entry goes unfilled;
      otherwise the simulator's is shorter. */
  lemma SimulatorMatchesExecutor(closes: seq<real>, signals: seq<int>, capital: real, fees: FeeModel)
    requires 0 < |closes| == |signals| && AllPriceable(fees, closes)
    ensures var sim, run := Simulated(closes, signals, capital, fees), Backtested(closes, signals, capital, fees);
            && sim.trades == run.trades
            && sim.finalEquity == run.equity[|closes| - 1]
            && |sim.equity| <= |run.equity|
            && (sim.equity == run.equity <==> !SomeUnfilled(closes, signals, capital, fees, |closes|))
  {
    hide Step, Unfilled, Value, Priceable, RunTo, SimTo, Kept, SomeUnfilled;
    var n := |closes|;
    SimFollowsRun(closes, signals, capital, fees, n);
    LastKept(closes, signals, capital, fees, n);
    KeptLength(closes, signals, capital, fees, n);
    LastEquity(closes, signals, capital, fees, n);
    Ledger.RunShape(closes, signals, capital, fees, n);
  }

  lemma LastEquity(closes: seq<real>, signals: seq<int>, capital: real, fees: FeeModel, n: nat)
    requires 0 < n <= |closes| == |signals| && AllPriceable(fees, closes)
    ensures var a := RunTo(closes, signals, capital, fees, n);
            |a.equity| == n && a.equity[n - 1] == a.cash + Value(a.qty, closes[n - 1])
  {
    hide Step, Value, Priceable;
    EquityPerBar(closes, signals, capital, fees, n);
    EquityPerBar(closes, signals, capital, fees, n - 1);
    EquityOfBar(RunTo(closes, signals, capital, fees, n - 1), fees, n - 1, closes[n - 1], signals[n - 1]);
  }
}
