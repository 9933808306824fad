/** Cash bounds of a backtest, and what "as many shares as the cash allows" means. */
module Solvency {
  import opened Backtest

  lemma CashAfterBuying(fees: FeeModel, quantity: real, price: real)
    ensures Value(quantity, price) + BuyFees(fees, quantity, price)
         == Value(quantity, UnitCost(fees, price)) + fees.commission
  {
    var stamp := Value(quantity, price) * fees.stampRate;
    assert quantity * (price * (1.0 + fees.stampRate)) == quantity * price + stamp;
  }

  lemma ValueIsMonotone(q: real, r: real, unit: real)
    requires unit > 0.0
    ensures q < r <==> Value(q, unit) < Value(r, unit)
  {
    if q < r {
      assert (r - q) * unit > 0.0;
    } else {
      assert (q - r) * unit >= 0.0;
    }
  }

  lemma DivideThenMultiply(notional: real, unit: real)
    requires unit != 0.0
    ensures Value(notional / unit, unit) == notional
  {
  }

  /** Rounding down to lots keeps exactly the whole-lot quantities below. */
  lemma RoundDownIsLargest(quantity: real, lots: int)
    ensures Shares(lots) <= quantity <==> Shares(lots) <= RoundDown(quantity)
    ensures quantity < RoundDown(quantity) + Shares(1)
  {
    var k := (quantity * LOTS_PER_SHARE).Floor;
    assert k as real <= quantity * LOTS_PER_SHARE < k as real + 1.0;
  }

  /** The quantity bought is the largest whole number of lots whose cost fits the budget:
      a number of lots is affordable exactly when it is no more than what is bought. */
  lemma BoughtIsLargestAffordable(fees: FeeModel, notional: real, price: real, lots: int)
    requires UnitCost(fees, price) > 0.0
    ensures Value(Shares(lots), UnitCost(fees, price)) <= notional <==> Shares(lots) <= Bought(fees, notional, price)
  {
    hide Value, RoundDown, Shares;
    var unit := UnitCost(fees, price);
    DivideThenMultiply(notional, unit);
    ValueIsMonotone(notional / unit, Shares(lots), unit);
    RoundDownIsLargest(notional / unit, lots);
  }

  lemma BudgetBracketed(fees: FeeModel, notional: real, price: real)
    requires UnitCost(fees, price) > 0.0
    ensures var unit, bought := UnitCost(fees, price), Bought(fees, notional, price);
            Value(bought, unit) <= notional < Value(bought, unit) + Value(Shares(1), unit)
  {
    hide Value, RoundDown, Shares;
    var unit := UnitCost(fees, price);
    var q := notional / unit;
    DivideThenMultiply(notional, unit);
    RoundDownIsBelow(q);
    RoundDownIsLargest(q, 1);
    ValueIsMonotone(q, RoundDown(q), unit);
    ValueIsMonotone(q, RoundDown(q) + Shares(1), unit);
    ValueAdds(RoundDown(q), Shares(1), unit);
  }

  lemma RoundDownIsBelow(quantity: real)
    ensures RoundDown(quantity) <= quantity
  {
    var k := (quantity * LOTS_PER_SHARE).Floor;
    assert k as real <= quantity * LOTS_PER_SHARE;
  }

  lemma ValueAdds(q: real, r: real, unit: real)
    ensures Value(q + r, unit) == Value(q, unit) + Value(r, unit)
  {
  }

  /** So many lots, of a ten-thousandth of a share each, fit the cash with stamp duty and
      commission. */
  predicate LotsFit(fees: FeeModel, cash: real, price: real, lots: int) {
    var value := Value(lots as real / 10000.0, price);
    value + value * fees.stampRate + fees.commission <= cash
  }

  /** There is cash, and one lot fits it. */
  predicate Affordable(fees: FeeModel, cash: real, price: real) {
    cash > 0.0 && UnitCost(fees, price) > 0.0 && LotsFit(fees, cash, price, 1)
  }

  /** A quantity is the largest whole number of lots that fits. */
  ghost predicate MostThatFit(fees: FeeModel, cash: real, price: real, quantity: real) {
    exists lots: int ::
      && LotsFit(fees, cash, price, lots)
      && quantity == lots as real / 10000.0
      && forall n: int | LotsFit(fees, cash, price, n) :: n <= lots
  }

  lemma LotsFitIff(fees: FeeModel, cash: real, price: real, lots: int)
    requires UnitCost(fees, price) > 0.0
    ensures LotsFit(fees, cash, price, lots) <==> Shares(lots) <= Bought(fees, cash - fees.commission, price)
  {
    hide Value, Bought, UnitCost;
    BoughtIsLargestAffordable(fees, cash - fees.commission, price, lots);
    CashAfterBuying(fees, Shares(lots), price);
  }

  lemma LotsBought(quantity: real)
    ensures RoundDown(quantity) > 0.0 <==> Shares(1) <= RoundDown(quantity)
    ensures exists lots: int :: RoundDown(quantity) == Shares(lots)
    ensures quantity < 0.0 ==> RoundDown(quantity) < 0.0
  {
    assert RoundDown(quantity) == Shares((quantity * LOTS_PER_SHARE).Floor);
  }

  lemma SharesOrdered(m: int, n: int)
    ensures Shares(m) == m as real / 10000.0
    ensures Shares(m) <= Shares(n) <==> m <= n
  {
  }

  lemma NegativeQuotient(x: real, y: real)
    requires x > 0.0 && y < 0.0
    ensures x / y < 0.0
  {
    var q := x / y;
    assert q * y == x;
  }

  /** An entry fills exactly when one lot is affordable. */
  lemma FillsIffAffordable(fees: FeeModel, cash: real, price: real)
    requires Priceable(fees, price)
    ensures CanFill(fees, cash, price) <==> Affordable(fees, cash, price)
  {
    hide RoundDown, Value, LotsFit, Shares;
    var unit, notional := UnitCost(fees, price), cash - fees.commission;
    LotsBought(notional / unit);
    if unit > 0.0 {
      LotsFitIff(fees, cash, price, 1);
      if LotsFit(fees, cash, price, 1) {
        OneLotCosts(fees, cash, price);
      }
    } else if notional > 0.0 {
      NegativeQuotient(notional, unit);
    }
  }

  lemma OneLotCosts(fees: FeeModel, cash: real, price: real)
    requires UnitCost(fees, price) > 0.0 && LotsFit(fees, cash, price, 1)
    ensures cash - fees.commission > 0.0
  {
    hide UnitCost, Value;
    CashAfterBuying(fees, 0.0001, price);
    PositiveValue(0.0001, UnitCost(fees, price));
  }

  lemma BoughtIsMostThatFit(fees: FeeModel, cash: real, price: real)
    requires UnitCost(fees, price) > 0.0
    ensures MostThatFit(fees, cash, price, Bought(fees, cash - fees.commission, price))
  {
    hide RoundDown, Value, LotsFit, Shares;
    LotsBought((cash - fees.commission) / UnitCost(fees, price));
    var lots: int :| RoundDown((cash - fees.commission) / UnitCost(fees, price)) == Shares(lots);
    forall n: int
      ensures LotsFit(fees, cash, price, n) <==> n <= lots
    {
      LotsFitIff(fees, cash, price, n);
      SharesOrdered(n, lots);
    }
    SharesOrdered(lots, lots);
    assert LotsFit(fees, cash, price, lots);
  }

  /** What one bar does, by what is affordable. Flat at a +1, it buys exactly when a lot is, and
      then the most lots that are; long at a -1, it sells everything; otherwise only the equity
      moves. */
  lemma StepMeans(a: Account, fees: FeeModel, bar: nat, price: real, signal: int)
    requires Priceable(fees, price)
    ensures var b := Step(a, fees, bar, price, signal);
            && b.equity == a.equity + [b.cash + Value(b.qty, price)]
            && if signal == 1 && a.qty == 0.0 && Affordable(fees, a.cash, price) then
                 && b.qty > 0.0 && MostThatFit(fees, a.cash, price, b.qty)
                 && b.cash == a.cash - Value(b.qty, price) - Value(b.qty, price) * fees.stampRate - fees.commission
                 && b.trades == a.trades + [Trade(bar, Buy, price, b.qty, Value(b.qty, price) * fees.stampRate + fees.commission)]
               else if signal == -1 && a.qty > 0.0 then
                 && b.qty == 0.0
                 && b.cash == a.cash + Value(a.qty, price) - fees.commission
                 && b.trades == a.trades + [Trade(bar, Sell, price, a.qty, fees.commission)]
               else
                 b.qty == a.qty && b.cash == a.cash && b.trades == a.trades
  {
    hide Value, Bought, MostThatFit, LotsFit, UnitCost;
    FillsIffAffordable(fees, a.cash, price);
    if signal == 1 && a.qty == 0.0 && CanFill(fees, a.cash, price) {
      BoughtIsMostThatFit(fees, a.cash, price);
    }
  }

  // ---------------------------------------------------------------- solvency

  /** Positive prices, fees that are never rebates, no starting debt. */
  ghost predicate Sane(closes: seq<real>, capital: real, fees: FeeModel) {
    && capital >= 0.0 && fees.commission >= 0.0 && fees.stampRate >= 0.0
    && forall i | 0 <= i < |closes| :: closes[i] > 0.0
  }

  lemma PositiveUnit(fees: FeeModel, price: real)
    requires price > 0.0 && fees.stampRate >= 0.0
    ensures UnitCost(fees, price) > 0.0
  {
    assert price * (1.0 + fees.stampRate) > 0.0;
  }

  /** At worst one commission short of zero, and never short while long. */
  predicate Solvent(a: Account, fees: FeeModel) {
    && a.qty >= 0.0
    && (a.qty > 0.0 ==> a.cash >= 0.0)
    && (a.cash >= 0.0 || a.cash > -fees.commission)
  }

  lemma StepSolvent(a: Account, fees: FeeModel, bar: nat, price: real, signal: int)
    requires Solvent(a, fees) && fees.commission >= 0.0 && fees.stampRate >= 0.0 && price > 0.0
    requires Priceable(fees, price)
    ensures var b := Step(a, fees, bar, price, signal);
            && Solvent(b, fees)
            && (b.cash + Value(b.qty, price) >= 0.0 || b.cash + Value(b.qty, price) > -fees.commission)
            && (b.qty > a.qty ==> 0.0 <= b.cash < Value(Shares(1), UnitCost(fees, price)))
  {
    hide Value, Bought, BuyFees, UnitCost, Shares;
    PositiveUnit(fees, price);
    PositiveValue(a.qty, price);
    var b := Step(a, fees, bar, price, signal);
    PositiveValue(b.qty, price);
    if b.qty > a.qty {
      BudgetBracketed(fees, a.cash - fees.commission, price);
      CashAfterBuying(fees, b.qty, price);
    }
  }

  lemma PositiveValue(quantity: real, price: real)
    requires quantity >= 0.0 && price > 0.0
    ensures Value(quantity, price) >= 0.0
    ensures quantity > 0.0 ==> Value(quantity, price) > 0.0
  {
    assert quantity == 0.0 || quantity * price > 0.0;
  }

  lemma {:induction false} RunSolvent(closes: seq<real>, signals: seq<int>, capital: real, fees: FeeModel, n: nat)
    requires n <= |closes| == |signals| && AllPriceable(fees, closes) && Sane(closes, capital, fees)
    ensures Solvent(RunTo(closes, signals, capital, fees, n), fees)
    ensures var a := RunTo(closes, signals, capital, fees, n);
            && |a.equity| == n
            && forall i | 0 <= i < n :: a.equity[i] >= 0.0 || a.equity[i] > -fees.commission
  {
    hide Value, Step, Priceable;
    EquityPerBar(closes, signals, capital, fees, n);
    if n > 0 {
      RunSolvent(closes, signals, capital, fees, n - 1);
      var a := RunTo(closes, signals, capital, fees, n - 1);
      StepSolvent(a, fees, n - 1, closes[n - 1], signals[n - 1]);
      EquityOfBar(a, fees, n - 1, closes[n - 1], signals[n - 1]);
    }
  }

  /** Over a whole backtest: cash is never negative while a position is open, at any bar cash
      and equity are at worst one commission below zero, and a purchase leaves less idle cash
      than one more lot would cost. */
  lemma Solvency(closes: seq<real>, signals: seq<int>, capital: real, fees: FeeModel, n: nat)
    requires n < |closes| == |signals| && AllPriceable(fees, closes) && Sane(closes, capital, fees)
    ensures var a, b := RunTo(closes, signals, capital, fees, n), RunTo(closes, signals, capital, fees, n + 1);
            && (b.qty > 0.0 ==> b.cash >= 0.0)
            && (b.cash >= 0.0 || b.cash > -fees.commission)
            && (b.qty > a.qty ==> b.cash < Value(Shares(1), UnitCost(fees, closes[n])))
    ensures var equity := Backtested(closes, signals, capital, fees).equity;
            equity[n] >= 0.0 || equity[n] > -fees.commission
  {
    hide Value, Step, Priceable, UnitCost, Shares;
    RunSolvent(closes, signals, capital, fees, n);
    RunSolvent(closes, signals, capital, fees, |closes|);
    StepSolvent(RunTo(closes, signals, capital, fees, n), fees, n, closes[n], signals[n]);
    RunSolvent(closes, signals, capital, fees, n + 1);
    var open := RunTo(closes, signals, capital, fees, |closes|);
    PositiveValue(open.qty, closes[|closes| - 1]);
  }
}
