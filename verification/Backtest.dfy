/** The one-symbol, long-only executor: a cash and quantity state machine driven by
    +1 / -1 / 0 signals, with commission, stamp duty and lots of 1/10000 of a share.

    `Step` is one bar, `RunTo` a prefix of the run before the final close-out, `CloseOut`
    the forced sale at the end; `RunBacktest` is the loop itself. */
module Backtest {
  datatype FeeModel = FeeModel(commission: real, stampRate: real)

  datatype Side = Buy | Sell

  datatype Trade = Trade(bar: nat, side: Side, price: real, quantity: real, fees: real)

  datatype Account = Account(cash: real, qty: real, equity: seq<real>, trades: seq<Trade>)

  const LOTS_PER_SHARE := 10000.0

  /** The price of one share with its stamp duty. */
  function UnitCost(fees: FeeModel, price: real): real {
    price * (1.0 + fees.stampRate)
  }

  /** A price the executor can size against. */
  predicate Priceable(fees: FeeModel, price: real) {
    UnitCost(fees, price) != 0.0
  }

  predicate AllPriceable(fees: FeeModel, closes: seq<real>) {
    forall i | 0 <= i < |closes| :: Priceable(fees, closes[i])
  }

  function Shares(lots: int): real {
    lots as real / LOTS_PER_SHARE
  }

  /** A quantity rounded down to a whole number of lots. */
  function RoundDown(quantity: real): real {
    Shares((quantity * LOTS_PER_SHARE).Floor)
  }

  /** The shares bought with `notional`. */
  function Bought(fees: FeeModel, notional: real, price: real): real
    requires Priceable(fees, price)
  {
    RoundDown(notional / UnitCost(fees, price))
  }

  function Value(quantity: real, price: real): real {
    quantity * price
  }

  /** Stamp duty is charged on purchases only; commission on every trade. */
  function BuyFees(fees: FeeModel, quantity: real, price: real): real {
    Value(quantity, price) * fees.stampRate + fees.commission
  }

  /** Whether a +1 seen while flat with this much cash really opens a position. */
  predicate CanFill(fees: FeeModel, cash: real, price: real)
    requires Priceable(fees, price)
  {
    cash > 0.0 && cash - fees.commission > 0.0 && Bought(fees, cash - fees.commission, price) > 0.0
  }

  function Step(a: Account, fees: FeeModel, bar: nat, price: real, signal: int): Account
    requires Priceable(fees, price)
  {
    var after :=
      if signal == 1 && a.qty == 0.0 && a.cash > 0.0 then
        if CanFill(fees, a.cash, price) then
          var bought := Bought(fees, a.cash - fees.commission, price);
          var totalFees := BuyFees(fees, bought, price);
          a.(cash := a.cash - (Value(bought, price) + totalFees),
             qty := a.qty + bought,
             trades := a.trades + [Trade(bar, Buy, price, bought, totalFees)])
        else a
      else if signal == -1 && a.qty > 0.0 then
        a.(cash := a.cash + (Value(a.qty, price) - fees.commission),
           qty := 0.0,
           trades := a.trades + [Trade(bar, Sell, price, a.qty, fees.commission)])
      else a;
    after.(equity := a.equity + [after.cash + Value(after.qty, price)])
  }

  function RunTo(closes: seq<real>, signals: seq<int>, capital: real, fees: FeeModel, n: nat): Account
    requires n <= |closes| == |signals| && AllPriceable(fees, closes)
  {
    if n == 0 then Account(capital, 0.0, [], [])
    else Step(RunTo(closes, signals, capital, fees, n - 1), fees, n - 1, closes[n - 1], signals[n - 1])
  }

  /** Every bar appends its equity. */
  lemma EquityOfBar(a: Account, fees: FeeModel, bar: nat, price: real, signal: int)
    requires Priceable(fees, price)
    ensures var b := Step(a, fees, bar, price, signal);
            b.equity == a.equity + [b.cash + Value(b.qty, price)]
  {
    hide Value, BuyFees, Bought, UnitCost;
  }

  lemma NothingHeld(price: real)
    ensures Value(0.0, price) == 0.0
  {
  }

  /** The sale at the last price that realises an open position; it rewrites the last equity. */
  function CloseOut(a: Account, fees: FeeModel, bar: nat, price: real): Account
    requires |a.equity| == bar + 1
  {
    if a.qty > 0.0 then
      var cash := a.cash + (Value(a.qty, price) - fees.commission);
      Account(cash, a.qty, a.equity[..bar] + [cash],
              a.trades + [Trade(bar, Sell, price, a.qty, fees.commission)])
    else a
  }

  lemma EquityPerBar(closes: seq<real>, signals: seq<int>, capital: real, fees: FeeModel, n: nat)
    requires n <= |closes| == |signals| && AllPriceable(fees, closes)
    ensures |RunTo(closes, signals, capital, fees, n).equity| == n
  {
  }

  /** The whole backtest: what `RunBacktest` returns, as a function of its inputs. */
  function Backtested(closes: seq<real>, signals: seq<int>, capital: real, fees: FeeModel): (a: Account)
    requires |closes| == |signals| && AllPriceable(fees, closes)
    ensures |a.equity| == |closes|
  {
    EquityPerBar(closes, signals, capital, fees, |closes|);
    var open := RunTo(closes, signals, capital, fees, |closes|);
    if closes == [] then open else CloseOut(open, fees, |closes| - 1, closes[|closes| - 1])
  }

  method TradeBar(a: Account, fees: FeeModel, bar: nat, price: real, sig: int) returns (cash: real, qty: real, trades: seq<Trade>)
    requires Priceable(fees, price)
    ensures Account(cash, qty, a.equity + [cash + Value(qty, price)], trades) == Step(a, fees, bar, price, sig)
  {
    cash, qty, trades := a.cash, a.qty, a.trades;
    if sig == 1 && qty == 0.0 && cash > 0.0 {
      var notional := cash - fees.commission;
      if notional <= 0.0 {
        return;
      }
      var bought := Bought(fees, notional, price);
      if bought > 0.0 {
        var totalFees := BuyFees(fees, bought, price);
        cash := cash - (Value(bought, price) + totalFees);
        qty := qty + bought;
        trades := trades + [Trade(bar, Buy, price, bought, totalFees)];
      }
    } else if sig == -1 && qty > 0.0 {
      var proceeds := Value(qty, price) - fees.commission;
      cash := cash + proceeds;
      trades := trades + [Trade(bar, Sell, price, qty, fees.commission)];
      qty := 0.0;
    }
  }
  method RunBacktest(closes: seq<real>, signals: seq<int>, capital: real, fees: FeeModel)
    returns (equity: seq<real>, trades: seq<Trade>)
    requires |closes| == |signals| && AllPriceable(fees, closes)
    ensures equity == Backtested(closes, signals, capital, fees).equity
    ensures trades == Backtested(closes, signals, capital, fees).trades
  {
    equity, trades := [], [];
    if closes == [] {
      return;
    }
    var cash, qty := capital, 0.0;
    for i := 0 to |closes|
      invariant Account(cash, qty, equity, trades) == RunTo(closes, signals, capital, fees, i)
    {
      cash, qty, trades := TradeBar(Account(cash, qty, equity, trades), fees, i, closes[i], signals[i]);
      equity := equity + [cash + Value(qty, closes[i])];
    }
    EquityPerBar(closes, signals, capital, fees, |closes|);
    if qty > 0.0 {
      var last := closes[|closes| - 1];
      cash := cash + (Value(qty, last) - fees.commission);
      trades := trades + [Trade(|closes| - 1, Sell, last, qty, fees.commission)];
      equity := equity[..|equity| - 1] + [cash];
    }
  }
}
