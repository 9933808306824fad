/** The dashboard's "is this strategy long?" shortcut, which looks only at the last non-zero
    signal, against what the executor really holds before its final close-out. */
module PositionReadout {
  import opened Backtest
  import opened Solvency

  /** The index of the last non-zero signal, or -1. */
  function LastNonZero(signals: seq<int>): (i: int)
    ensures -1 <= i < |signals|
    ensures i >= 0 ==> signals[i] != 0
    ensures forall j | i < j < |signals| :: signals[j] == 0
  {
    if signals == [] then -1
    else if signals[|signals| - 1] != 0 then |signals| - 1
    else LastNonZero(signals[..|signals| - 1])
  }

  predicate InPosition(signals: seq<int>) {
    LastNonZero(signals) >= 0 && signals[LastNonZero(signals)] == 1
  }

  /** The values a signal function is documented to produce. */
  ghost predicate Documented(signals: seq<int>) {
    forall i | 0 <= i < |signals| :: signals[i] == -1 || signals[i] == 0 || signals[i] == 1
  }

  /** One past the last exit signal among the first `n`: the bar from which the executor is
      flat until something fills. */
  function TailStart(signals: seq<int>, n: nat): (start: nat)
    requires n <= |signals|
    ensures start <= n
    ensures start > 0 ==> signals[start - 1] == -1
    ensures forall t | start <= t < n :: signals[t] != -1
  {
    if n == 0 then 0 else if signals[n - 1] == -1 then n else TailStart(signals, n - 1)
  }

  function CashAfterLastExit(closes: seq<real>, signals: seq<int>, capital: real, fees: FeeModel, n: nat): real
    requires n <= |closes| == |signals| && AllPriceable(fees, closes)
  {
    RunTo(closes, signals, capital, fees, TailStart(signals, n)).cash
  }

  /** At some +1 since the last exit a lot is affordable with the cash that exit left behind. */
  ghost predicate SomeEntryFills(closes: seq<real>, signals: seq<int>, capital: real, fees: FeeModel, n: nat)
    requires n <= |closes| == |signals| && AllPriceable(fees, closes)
  {
    var cash := CashAfterLastExit(closes, signals, capital, fees, n);
    exists t :: TailStart(signals, n) <= t < n && signals[t] == 1 && Affordable(fees, cash, closes[t])
  }

  /** The executor holds a position after `n` bars exactly when at some entry since the last exit
      signal one lot was affordable with the cash that exit left behind. */
  lemma {:induction false} LongIffSomeEntryFills(
    closes: seq<real>, signals: seq<int>, capital: real, fees: FeeModel, n: nat)
    requires n <= |closes| == |signals| && AllPriceable(fees, closes)
    ensures var a := RunTo(closes, signals, capital, fees, n);
            && a.qty >= 0.0
            && (a.qty > 0.0 <==> SomeEntryFills(closes, signals, capital, fees, n))
            && (a.qty == 0.0 ==> a.cash == CashAfterLastExit(closes, signals, capital, fees, n))
  {
    hide Value, BuyFees, Bought, Priceable, Affordable;
    if n > 0 {
      LongIffSomeEntryFills(closes, signals, capital, fees, n - 1);
      FillsIffAffordable(fees, RunTo(closes, signals, capital, fees, n - 1).cash, closes[n - 1]);
      if signals[n - 1] != -1 {
        assert TailStart(signals, n) == TailStart(signals, n - 1);
      }
    }
  }

  lemma {:induction false} InPositionIsEntrySinceLastExit(signals: seq<int>)
    requires Documented(signals)
    ensures InPosition(signals) <==> exists t :: TailStart(signals, |signals|) <= t < |signals| && signals[t] == 1
  {
    var last, start := LastNonZero(signals), TailStart(signals, |signals|);
    if last >= 0 && signals[last] == 1 {
      assert start <= last;
    }
  }

  /** Whenever the executor is long the shortcut says so. The shortcut is right exactly when
      it says flat, or a lot was affordable at some entry since the last exit. */
  lemma ShortcutAgreement(closes: seq<real>, signals: seq<int>, capital: real, fees: FeeModel)
    requires |closes| == |signals| && AllPriceable(fees, closes) && Documented(signals)
    ensures var long := RunTo(closes, signals, capital, fees, |closes|).qty > 0.0;
            && (long ==> InPosition(signals))
            && ((InPosition(signals) <==> long)
                <==> (InPosition(signals) ==> SomeEntryFills(closes, signals, capital, fees, |closes|)))
  {
    hide RunTo, Priceable;
    LongIffSomeEntryFills(closes, signals, capital, fees, |closes|);
    InPositionIsEntrySinceLastExit(signals);
  }

  /** The shortcut can be wrong: an entry whose commission exceeds the capital never fills. */
  lemma ShortcutCanDisagree()
    ensures var fees := FeeModel(20.0, 0.0);
            && AllPriceable(fees, [1.0])
            && InPosition([1])
            && RunTo([1.0], [1], 10.0, fees, 1).qty == 0.0
  {
    var fees := FeeModel(20.0, 0.0);
    assert [1.0][0] == 1.0;
    assert RunTo([1.0], [1], 10.0, fees, 0).qty == 0.0;
  }
}
