/** Exactly when the backend's simulator reports another maximum drawdown than the executor it
    is documented to match. */
module DrawdownGap {
  import opened Backtest
  import opened Drawdown
  import opened Simulator
  import opened SimulatorDrawdown
  import opened NegativeEquity
  import Solvency
  import Reals

  // ---------------------------------------------------------------- a curve behind a point

  /** The number of points before the curve first reaches `level`. */
  function Before(curve: seq<real>, level: real): (t: nat)
    ensures t <= |curve|
    ensures t < |curve| ==> curve[t] >= level
    ensures forall j | 0 <= j < t :: curve[j] < level
  {
    FirstReaching(curve, 0, level)
  }

  lemma {:induction false} LargerPeak(c: real, curve: seq<real>, j: nat)
    requires j < |curve|
    ensures CumMax([c] + curve)[j + 1] == if CumMax(curve)[j] > c then CumMax(curve)[j] else c
    decreases |curve|
  {
    var n, behind := |curve| - 1, [c] + curve;
    assert behind[..n + 1] == [c] + curve[..n];
    if n == 0 {
      assert [c] + curve[..0] == [c];
      assert CumMax([c]) == [c];
    } else {
      LargerPeak(c, curve[..n], if j < n then j else n - 1);
    }
  }

  /** Behind a first point `c` the running peak is `c` until the curve reaches it, and the
      curve's own from then on. */
  lemma PeakBehind(c: real, curve: seq<real>, j: nat)
    requires j < |curve|
    ensures j < Before(curve, c) ==> CumMax([c] + curve)[j + 1] == c > CumMax(curve)[j]
    ensures j >= Before(curve, c) ==> CumMax([c] + curve)[j + 1] == CumMax(curve)[j] >= c
  {
    hide CumMax, Before;
    LargerPeak(c, curve, j);
    CumMaxIsMax(curve, j);
  }

  /** No point before the curve reaches `c` lies further below `c` than the curve's own worst
      fall. */
  ghost predicate NoneDeeper(c: real, curve: seq<real>)
    requires c > 0.0
  {
    forall j | 0 <= j < Before(curve, c) :: Relative(c, curve[j]) >= Worst(curve)
  }

  ghost predicate NoneNegative(c: real, curve: seq<real>) {
    forall j | 0 <= j < Before(curve, c) :: curve[j] >= 0.0
  }

  lemma OwnFallBehind(c: real, curve: seq<real>)
    requires c > 0.0 && NoneNegative(c, curve)
    ensures Worst([c] + curve) <= Worst(curve)
  {
    hide Worst, CumMax, Relative, Before;
    var behind := [c] + curve;
    WorstBounds(behind);
    WorstBounds(curve);
    if Worst(curve) != 0.0 {
      var j :| 0 <= j < |curve| && CumMax(curve)[j] > 0.0 && Worst(curve) == Relative(CumMax(curve)[j], curve[j]);
      PeakBehind(c, curve, j);
      assert behind[j + 1] == curve[j];
      assert Worst(behind) <= Relative(CumMax(behind)[j + 1], behind[j + 1]);
      if j < Before(curve, c) {
        WorseFromHigher(CumMax(curve)[j], c, curve[j]);
      }
    }
  }

  lemma FallBehindIsOwn(c: real, curve: seq<real>)
    requires c > 0.0
    ensures NoneDeeper(c, curve) ==> Worst([c] + curve) >= Worst(curve)
    ensures Worst([c] + curve) >= Worst(curve) ==> NoneDeeper(c, curve)
  {
    hide Worst, CumMax, Relative, Before;
    var behind := [c] + curve;
    WorstBounds(behind);
    WorstBounds(curve);
    forall j | 0 <= j < Before(curve, c)
      ensures Worst(behind) <= Relative(c, curve[j])
    {
      PeakBehind(c, curve, j);
      assert behind[j + 1] == curve[j];
    }
    if NoneDeeper(c, curve) && Worst(behind) != 0.0 {
      var k :| 0 <= k < |behind| && CumMax(behind)[k] > 0.0 && Worst(behind) == Relative(CumMax(behind)[k], behind[k]);
      FirstPeak(behind);
      if k == 0 {
        NoFall(c);
      } else {
        PeakBehind(c, curve, k - 1);
        assert behind[k] == curve[k - 1];
      }
    }
  }

  lemma FirstPeak(curve: seq<real>)
    requires curve != []
    ensures CumMax(curve)[0] == curve[0]
  {
    hide CumMax;
    CumMaxIsMax(curve, 0);
  }

  lemma NoFall(c: real)
    requires c > 0.0
    ensures Relative(c, c) == 0.0
  {
  }

  /** A curve that falls below zero for good before it reaches `c` reports a deeper fall alone
      than behind `c`, or none at all. */
  lemma NegativeDiffers(c: real, curve: seq<real>, j: nat)
    requires c > 0.0 && StaysDown(curve) && j < Before(curve, c) && curve[j] < 0.0
    ensures Worst([c] + curve) != Worst(curve)
  {
    hide Worst, CumMax, Relative, Before;
    var behind, v := [c] + curve, curve[j];
    assert Before(curve, c) == |curve|;
    WorstBounds(behind);
    WorstBounds(curve);
    PeakBehind(c, curve, j);
    assert behind[j + 1] == v;
    DeeperFromLower(c / 2.0, c, v);
    assert Worst(behind) <= Relative(c, v) < -1.0;
    if Worst(curve) != 0.0 {
      var k :| 0 <= k < |curve| && CumMax(curve)[k] > 0.0 && Worst(curve) == Relative(CumMax(curve)[k], curve[k]);
      PeakBehind(c, curve, k);
      if curve[k] >= 0.0 {
        AtMostAll(CumMax(curve)[k], curve[k]);
      } else {
        assert curve[k] == v;
        DeeperFromLower(CumMax(curve)[k], c, v);
        NoneDeeperThanNegative(c, curve, v);
      }
    }
  }

  lemma NoneDeeperThanNegative(c: real, curve: seq<real>, v: real)
    requires c > 0.0 && v < 0.0 && Before(curve, c) == |curve|
    requires forall k | 0 <= k < |curve| :: curve[k] >= v
    ensures Worst([c] + curve) >= Relative(c, v)
  {
    hide Worst, CumMax, Relative, Before;
    var behind := [c] + curve;
    WorstBounds(behind);
    DeeperFromLower(c / 2.0, c, v);
    if Worst(behind) != 0.0 {
      var k :| 0 <= k < |behind| && CumMax(behind)[k] > 0.0 && Worst(behind) == Relative(CumMax(behind)[k], behind[k]);
      FirstPeak(behind);
      if k == 0 {
        NoFall(c);
      } else {
        PeakBehind(c, curve, k - 1);
        RelativeIsMonotone(c, v, curve[k - 1]);
      }
    }
  }

  lemma RelativeIsMonotone(from: real, low: real, high: real)
    requires from > 0.0 && low <= high
    ensures Relative(from, low) <= Relative(from, high)
  {
    RelativeIsRatio(from, low);
    RelativeIsRatio(from, high);
    Reals.CancelFactor(high / from, low / from, from);
  }

  /** Standing a curve behind `c` leaves its worst fall as it was exactly when no point before
      it reaches `c` is below zero or further below `c` than that fall. */
  lemma SameBehindIff(c: real, curve: seq<real>)
    requires c > 0.0 && StaysDown(curve)
    ensures Worst([c] + curve) == Worst(curve) <==> NoneDeeper(c, curve) && NoneNegative(c, curve)
  {
    hide Worst, Before, NoneDeeper, StaysDown;
    FallBehindIsOwn(c, curve);
    if NoneNegative(c, curve) {
      OwnFallBehind(c, curve);
    } else {
      var j :| 0 <= j < Before(curve, c) && curve[j] < 0.0;
      NegativeDiffers(c, curve, j);
    }
  }

  // ---------------------------------------------------------------- the simulator's curve

  lemma {:induction false} ThinnedMembers(a: seq<real>, b: seq<real>, x: real)
    requires Thinned(a, b) && x in b
    ensures x in a
    decreases |a|
  {
    var m, n := |a| - 1, |b| - 1;
    assert a == a[..m] + [a[m]] && b == b[..n] + [b[n]];
    if x != b[n] {
      if Thinned(a[..m], b[..n]) {
        ThinnedMembers(a[..m], b[..n], x);
      } else {
        ThinnedMembers(a[..m], b, x);
      }
    }
  }

  lemma {:induction false} ThinnedStaysDown(a: seq<real>, b: seq<real>)
    requires Thinned(a, b) && StaysDown(a)
    ensures StaysDown(b)
    decreases |a|
  {
    if a != [] {
      var m, n := |a| - 1, |b| - 1;
      if Thinned(a[..m], b[..n]) {
        ThinnedStaysDown(a[..m], b[..n]);
        forall i | 0 <= i < n && b[i] < 0.0
          ensures b[n] == b[i]
        {
          assert b[..n][i] in b[..n];
          ThinnedMembers(a[..m], b[..n], b[i]);
          var k :| 0 <= k < m && a[..m][k] == b[i];
          assert a[k] == b[i];
        }
        SnocStaysDown(b);
      } else {
        ThinnedStaysDown(a[..m], b);
      }
    }
  }

  lemma SnocStaysDown(b: seq<real>)
    requires b != [] && StaysDown(b[..|b| - 1])
    requires forall i | 0 <= i < |b| - 1 && b[i] < 0.0 :: b[|b| - 1] == b[i]
    ensures StaysDown(b)
  {
    assert forall i | 0 <= i < |b| - 1 :: b[..|b| - 1][i] == b[i];
  }

  lemma SimulatedStaysDown(closes: seq<real>, signals: seq<int>, capital: real, fees: FeeModel)
    requires 0 < |closes| == |signals| && AllPriceable(fees, closes) && Solvency.Sane(closes, capital, fees)
    ensures StaysDown(Simulated(closes, signals, capital, fees).equity)
  {
    hide Backtested, Simulated, Thinned, StaysDown;
    var run, sim := Backtested(closes, signals, capital, fees).equity, Simulated(closes, signals, capital, fees).equity;
    BacktestStaysDown(closes, signals, capital, fees);
    CurvesThinned(closes, signals, capital, fees);
    ThinnedStaysDown(run, Anchor(closes, signals, capital, fees) + sim);
    TailStaysDown(Anchor(closes, signals, capital, fees), sim);
  }

  lemma TailStaysDown(a: seq<real>, b: seq<real>)
    requires StaysDown(a + b)
    ensures StaysDown(b)
  {
    assert forall i | 0 <= i < |b| :: b[i] == (a + b)[|a| + i];
  }

  /** With positive prices and no rebates, executor and simulator report the same maximum
      drawdown except exactly when the first bar is an entry that does not fill and the
      simulator's curve, before it reaches the initial capital, goes below zero or further
      below the capital than its own worst fall. */
  lemma SameDrawdownIff(closes: seq<real>, signals: seq<int>, capital: real, fees: FeeModel, day: seq<int>)
    requires 0 < |closes| == |signals| == |day| && AllPriceable(fees, closes) && Solvency.Sane(closes, capital, fees)
    requires Backtested(closes, signals, capital, fees).equity[0] > 0.0
    ensures var sim := Simulated(closes, signals, capital, fees).equity;
            Worst(sim) == ComputeStats(Backtested(closes, signals, capital, fees).equity, day).maxDrawdown
            <==> (Unfilled(RunTo(closes, signals, capital, fees, 0), fees, closes[0], signals[0])
                  ==> capital > 0.0 && NoneDeeper(capital, sim) && NoneNegative(capital, sim))
  {
    hide Worst, Backtested, Simulated, ComputeStats, NoneDeeper, NoneNegative;
    var sim := Simulated(closes, signals, capital, fees).equity;
    SameMaxDrawdown(closes, signals, capital, fees, day);
    if Unfilled(RunTo(closes, signals, capital, fees, 0), fees, closes[0], signals[0]) {
      SimulatedStaysDown(closes, signals, capital, fees);
      SameBehindIff(capital, sim);
    } else {
      assert [] + sim == sim;
    }
  }

  // ---------------------------------------------------------------- the first recorded bar

  ghost predicate UnfilledUntil(closes: seq<real>, signals: seq<int>, capital: real, fees: FeeModel, n: nat)
    requires n <= |closes| == |signals| && AllPriceable(fees, closes)
  {
    forall i | 0 <= i < n :: Unfilled(RunTo(closes, signals, capital, fees, i), fees, closes[i], signals[i])
  }

  /** The first bar that is not an unfilled entry. */
  ghost function FirstRecorded(closes: seq<real>, signals: seq<int>, capital: real, fees: FeeModel, i: nat): (n: nat)
    requires i <= |closes| == |signals| && AllPriceable(fees, closes) && UnfilledUntil(closes, signals, capital, fees, i)
    ensures i <= n <= |closes| && UnfilledUntil(closes, signals, capital, fees, n)
    ensures n < |closes| ==> !Unfilled(RunTo(closes, signals, capital, fees, n), fees, closes[n], signals[n])
    decreases |closes| - i
  {
    if i == |closes| || !Unfilled(RunTo(closes, signals, capital, fees, i), fees, closes[i], signals[i]) then i
    else FirstRecorded(closes, signals, capital, fees, i + 1)
  }

  lemma {:induction false} UntouchedUntil(closes: seq<real>, signals: seq<int>, capital: real, fees: FeeModel, n: nat)
    requires n <= |closes| == |signals| && AllPriceable(fees, closes) && UnfilledUntil(closes, signals, capital, fees, n)
    ensures var a := RunTo(closes, signals, capital, fees, n);
            a.cash == capital && a.qty == 0.0
    ensures Kept(closes, signals, capital, fees, n) == []
  {
    hide Step, Unfilled, Value, Priceable;
    if n > 0 {
      UntouchedUntil(closes, signals, capital, fees, n - 1);
      StepAlone(RunTo(closes, signals, capital, fees, n - 1), [], fees, n - 1, closes[n - 1], signals[n - 1]);
    }
  }

  lemma {:induction false} KeptHead(closes: seq<real>, signals: seq<int>, capital: real, fees: FeeModel, n: nat, m: nat)
    requires n < m <= |closes| == |signals| && AllPriceable(fees, closes) && UnfilledUntil(closes, signals, capital, fees, n)
    requires !Unfilled(RunTo(closes, signals, capital, fees, n), fees, closes[n], signals[n])
    ensures var kept, b := Kept(closes, signals, capital, fees, m), RunTo(closes, signals, capital, fees, n + 1);
            kept != [] && kept[0] == b.cash + Value(b.qty, closes[n])
  {
    hide Step, Unfilled, Value, Priceable, UnfilledUntil;
    if m == n + 1 {
      UntouchedUntil(closes, signals, capital, fees, n);
    } else {
      KeptHead(closes, signals, capital, fees, n, m - 1);
    }
  }

  /** What a purchase of the whole capital at bar `n` costs in fees by the end of that bar: the
      last bar also closes the position. */
  function FirstFees(closes: seq<real>, capital: real, fees: FeeModel, n: nat): real
    requires n < |closes| && AllPriceable(fees, closes)
  {
    BuyFees(fees, Bought(fees, capital - fees.commission, closes[n]), closes[n])
    + if n == |closes| - 1 then fees.commission else 0.0
  }

  lemma FirstRecordedStep(a: Account, fees: FeeModel, bar: nat, price: real, signal: int)
    requires Priceable(fees, price) && a.cash > 0.0 && a.qty == 0.0 && !Unfilled(a, fees, price, signal)
    ensures var b, buys := Step(a, fees, bar, price, signal), signal == 1 && CanFill(fees, a.cash, price);
            && b.cash + Value(b.qty, price)
               == a.cash - (if buys then BuyFees(fees, Bought(fees, a.cash - fees.commission, price), price) else 0.0)
            && (b.qty > 0.0 <==> buys)
  {
    hide Value, BuyFees, Bought, UnitCost;
    NothingHeld(price);
  }

  /** The first point of the simulator's curve is the capital, less the fees of a purchase at
      that bar. */
  lemma FirstPoint(closes: seq<real>, signals: seq<int>, capital: real, fees: FeeModel, n: nat)
    requires n < |closes| == |signals| && AllPriceable(fees, closes) && capital > 0.0
    requires UnfilledUntil(closes, signals, capital, fees, n)
    requires !Unfilled(RunTo(closes, signals, capital, fees, n), fees, closes[n], signals[n])
    ensures var sim := Simulated(closes, signals, capital, fees).equity;
            && sim != []
            && sim[0] == capital - if signals[n] == 1 && CanFill(fees, capital, closes[n])
                                   then FirstFees(closes, capital, fees, n) else 0.0
  {
    hide Step, Unfilled, Value, Priceable, UnfilledUntil, BuyFees, Bought, CanFill, Simulated, Backtested;
    var last := |closes| - 1;
    ClosedCurves(closes, signals, capital, fees);
    UntouchedUntil(closes, signals, capital, fees, n);
    FirstRecordedStep(RunTo(closes, signals, capital, fees, n), fees, n, closes[n], signals[n]);
    KeptHead(closes, signals, capital, fees, n, last + 1);
    if n < last {
      KeptHead(closes, signals, capital, fees, n, last);
    }
  }

  /** The two can differ only when the run opens with unfilled entries and the first bar that is
      recorded is a purchase that pays fees. */
  lemma DifferOnlyAfterPurchase(closes: seq<real>, signals: seq<int>, capital: real, fees: FeeModel, day: seq<int>)
    requires 0 < |closes| == |signals| == |day| && AllPriceable(fees, closes)
    requires Backtested(closes, signals, capital, fees).equity[0] > 0.0
    requires Worst(Simulated(closes, signals, capital, fees).equity)
             != ComputeStats(Backtested(closes, signals, capital, fees).equity, day).maxDrawdown
    ensures exists n :: 0 < n < |closes| && UnfilledUntil(closes, signals, capital, fees, n)
                     && signals[n] == 1 && Solvency.Affordable(fees, capital, closes[n])
                     && FirstFees(closes, capital, fees, n) > 0.0
  {
    hide Worst, Backtested, Simulated, ComputeStats, FirstFees, CanFill;
    var sim := Simulated(closes, signals, capital, fees).equity;
    SameMaxDrawdown(closes, signals, capital, fees, day);
    assert [] + sim == sim && [capital] + [] == [capital];
    var n := FirstRecorded(closes, signals, capital, fees, 0);
    if n == |closes| {
      NothingRecorded(closes, signals, capital, fees);
    } else {
      FirstPoint(closes, signals, capital, fees, n);
      Solvency.FillsIffAffordable(fees, capital, closes[n]);
      if sim[0] >= capital {
        OwnFallBehind(capital, sim);
        FallBehindIsOwn(capital, sim);
      }
    }
  }

  lemma NothingRecorded(closes: seq<real>, signals: seq<int>, capital: real, fees: FeeModel)
    requires 0 < |closes| == |signals| && AllPriceable(fees, closes) && UnfilledUntil(closes, signals, capital, fees, |closes|)
    ensures Simulated(closes, signals, capital, fees).equity == []
    ensures capital > 0.0 && Worst([capital]) == Worst([]) == 0.0
  {
    hide Step, Priceable, Simulated, Backtested, CanFill;
    ClosedCurves(closes, signals, capital, fees);
    UntouchedUntil(closes, signals, capital, fees, |closes|);
    assert Unfilled(RunTo(closes, signals, capital, fees, 0), fees, closes[0], signals[0]);
    OwnFallBehind(capital, []);
    FallBehindIsOwn(capital, []);
    assert [capital] + [] == [capital];
  }
}
