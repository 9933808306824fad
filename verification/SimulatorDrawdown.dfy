/** The backend's running drawdown loop, and when it reports the executor's drawdown although
    its equity curve leaves bars out. */
module SimulatorDrawdown {
  import opened Backtest
  import opened Drawdown
  import opened Simulator

  /** The running peak after a whole curve. */
  function Peak(curve: seq<real>): real
    requires curve != []
  {
    CumMax(curve)[|curve| - 1]
  }

  /** The worst fall from the running peak; zero or below, and peaks that are not positive do
      not count. */
  function Worst(curve: seq<real>): real {
    if curve == [] then 0.0
    else
      var n := |curve| - 1;
      var worst, peak := Worst(curve[..n]), Peak(curve);
      if peak > 0.0 && Relative(peak, curve[n]) < worst then Relative(peak, curve[n]) else worst
  }

  method MaxDrawdown(curve: seq<real>) returns (worst: real)
    ensures worst == Worst(curve)
  {
    if curve == [] {
      return 0.0;
    }
    var peak := curve[0];
    worst := 0.0;
    for i := 0 to |curve|
      invariant peak == if i == 0 then curve[0] else Peak(curve[..i])
      invariant worst == Worst(curve[..i])
    {
      assert curve[..i + 1][..i] == curve[..i];
      if curve[i] > peak {
        peak := curve[i];
      }
      if peak > 0.0 {
        var dd := (curve[i] - peak) / peak;
        if dd < worst {
          worst := dd;
        }
      }
    }
    assert curve[..|curve|] == curve;
  }

  /** The loop's result over any curve: zero, or the worst fall from a positive running peak. */
  lemma {:induction false} WorstBounds(curve: seq<real>)
    ensures Worst(curve) <= 0.0
    ensures forall j | 0 <= j < |curve| && CumMax(curve)[j] > 0.0 :: Worst(curve) <= Relative(CumMax(curve)[j], curve[j])
    ensures Worst(curve) == 0.0
            || exists j :: 0 <= j < |curve| && CumMax(curve)[j] > 0.0 && Worst(curve) == Relative(CumMax(curve)[j], curve[j])
    decreases |curve|
  {
    hide Relative;
    if curve != [] {
      var n := |curve| - 1;
      var init := curve[..n];
      WorstBounds(init);
      assert forall j | 0 <= j < n :: CumMax(curve)[j] == CumMax(init)[j] && curve[j] == init[j];
      if Worst(init) != 0.0 {
        var j :| 0 <= j < n && CumMax(init)[j] > 0.0 && Worst(init) == Relative(CumMax(init)[j], init[j]);
        assert CumMax(curve)[j] == CumMax(init)[j];
      }
    }
  }

  /** On a curve that starts above zero the loop computes the statistics' maximum drawdown. */
  lemma WorstIsMaxDrawdown(curve: seq<real>, day: seq<int>)
    requires curve != [] && curve[0] > 0.0 && |day| == |curve|
    ensures ComputeStats(curve, day).maxDrawdown == Worst(curve)
  {
    hide Worst, CumMax, Relative, ComputeStats, Drawdowns, ArgMin;
    var worst, dd := Worst(curve), Drawdowns(curve);
    WorstBounds(curve);
    FirstDrawdown(curve);
    MaxDrawdownIsSmallest(curve, day);
    if worst != 0.0 {
      var j :| 0 <= j < |curve| && CumMax(curve)[j] > 0.0 && worst == Relative(CumMax(curve)[j], curve[j]);
      assert dd[j] == worst;
    }
    var t :| 0 <= t < |curve| && ComputeStats(curve, day).maxDrawdown == dd[t];
    assert CumMax(curve)[t] > 0.0;
  }

  lemma MaxDrawdownIsSmallest(curve: seq<real>, day: seq<int>)
    requires curve != [] && curve[0] > 0.0 && |day| == |curve|
    ensures var m, dd := ComputeStats(curve, day).maxDrawdown, Drawdowns(curve);
            && (forall j | 0 <= j < |curve| :: m <= dd[j])
            && exists t :: 0 <= t < |curve| && m == dd[t]
  {
    hide Drawdowns;
    var t := ArgMin(Drawdowns(curve));
  }

  lemma FirstDrawdown(curve: seq<real>)
    requires curve != [] && curve[0] > 0.0
    ensures Drawdowns(curve)[0] == 0.0
  {
    hide CumMax;
    CumMaxIsMax(curve, 0);
  }

  // ---------------------------------------------------------------- leaving out repeats

  /** `b` is `a` without some points that only repeat the point kept before them. */
  ghost predicate Thinned(a: seq<real>, b: seq<real>) {
    if a == [] || b == [] then a == [] && b == []
    else
      var m, n := |a| - 1, |b| - 1;
      a[m] == b[n] && (Thinned(a[..m], b[..n]) || Thinned(a[..m], b))
  }

  lemma {:induction false} ThinnedKeepsWorst(a: seq<real>, b: seq<real>)
    requires Thinned(a, b) && a != []
    ensures b != [] && Peak(a) == Peak(b) && Worst(a) == Worst(b)
    decreases |a|
  {
    var m, n := |a| - 1, |b| - 1;
    if Thinned(a[..m], b[..n]) {
      if m > 0 {
        ThinnedKeepsWorst(a[..m], b[..n]);
      }
    } else {
      ThinnedKeepsWorst(a[..m], b);
      CumMaxIsMax(b, n);
      assert Peak(b) > 0.0 ==> Worst(b) <= Relative(Peak(b), b[n]);
    }
  }

  lemma ThinnedSnoc(a: seq<real>, b: seq<real>, x: real)
    requires Thinned(a, b)
    ensures Thinned(a + [x], b + [x])
    ensures b != [] && b[|b| - 1] == x ==> Thinned(a + [x], b)
  {
    assert (a + [x])[..|a|] == a && (b + [x])[..|b|] == b;
  }

  /** The point the simulator's curve lacks in front: the capital, when the first bar is an
      entry that does not fill. */
  function Anchor(closes: seq<real>, signals: seq<int>, capital: real, fees: FeeModel): seq<real>
    requires 0 < |closes| == |signals| && AllPriceable(fees, closes)
  {
    if Unfilled(RunTo(closes, signals, capital, fees, 0), fees, closes[0], signals[0]) then [capital] else []
  }

  lemma FirstIsThinned(closes: seq<real>, signals: seq<int>, capital: real, fees: FeeModel)
    requires 0 < |closes| == |signals| && AllPriceable(fees, closes)
    ensures var anchored := Anchor(closes, signals, capital, fees) + Kept(closes, signals, capital, fees, 1);
            anchored != [] && Thinned(RunTo(closes, signals, capital, fees, 1).equity, anchored)
  {
    hide Step, Unfilled, Value, Priceable, Thinned;
    var b := RunTo(closes, signals, capital, fees, 1);
    var equity := b.cash + Value(b.qty, closes[0]);
    EquityOfBar(RunTo(closes, signals, capital, fees, 0), fees, 0, closes[0], signals[0]);
    LastKept(closes, signals, capital, fees, 1);
    NothingThinned();
    ThinnedSnoc([], [], equity);
    assert Anchor(closes, signals, capital, fees) + Kept(closes, signals, capital, fees, 1) == [equity];
  }

  /** What one more bar does to the executor's curve and to the kept part of it. */
  lemma CurvesStep(closes: seq<real>, signals: seq<int>, capital: real, fees: FeeModel, n: nat)
    requires 0 < n <= |closes| == |signals| && AllPriceable(fees, closes)
    ensures var b, kept := RunTo(closes, signals, capital, fees, n), Kept(closes, signals, capital, fees, n - 1);
            var equity := b.cash + Value(b.qty, closes[n - 1]);
            && b.equity == RunTo(closes, signals, capital, fees, n - 1).equity + [equity]
            && (|| Kept(closes, signals, capital, fees, n) == kept + [equity]
                || (Kept(closes, signals, capital, fees, n) == kept && LastOf(kept, capital) == equity))
  {
    hide Step, Unfilled, Value, Priceable;
    EquityOfBar(RunTo(closes, signals, capital, fees, n - 1), fees, n - 1, closes[n - 1], signals[n - 1]);
    LastKept(closes, signals, capital, fees, n);
  }

  lemma AnchoredSnoc(curve: seq<real>, anchor: seq<real>, kept: seq<real>, after: seq<real>, capital: real, x: real)
    requires anchor + kept != [] && Thinned(curve, anchor + kept) && (anchor == [] || anchor == [capital])
    requires after == kept + [x] || (after == kept && LastOf(kept, capital) == x)
    ensures anchor + after != [] && Thinned(curve + [x], anchor + after)
  {
    hide Thinned;
    ThinnedSnoc(curve, anchor + kept, x);
    assert anchor + (kept + [x]) == anchor + kept + [x];
  }

  lemma NextIsThinned(closes: seq<real>, signals: seq<int>, capital: real, fees: FeeModel, n: nat)
    requires 1 < n <= |closes| == |signals| && AllPriceable(fees, closes)
    requires var anchored := Anchor(closes, signals, capital, fees) + Kept(closes, signals, capital, fees, n - 1);
             anchored != [] && Thinned(RunTo(closes, signals, capital, fees, n - 1).equity, anchored)
    ensures var anchored := Anchor(closes, signals, capital, fees) + Kept(closes, signals, capital, fees, n);
            anchored != [] && Thinned(RunTo(closes, signals, capital, fees, n).equity, anchored)
  {
    hide *;
    var b := RunTo(closes, signals, capital, fees, n);
    CurvesStep(closes, signals, capital, fees, n);
    AnchorIsCapital(closes, signals, capital, fees);
    AnchoredSnoc(RunTo(closes, signals, capital, fees, n - 1).equity, Anchor(closes, signals, capital, fees),
                 Kept(closes, signals, capital, fees, n - 1), Kept(closes, signals, capital, fees, n), capital,
                 b.cash + Value(b.qty, closes[n - 1]));
  }

  lemma {:induction false} KeptIsThinned(closes: seq<real>, signals: seq<int>, capital: real, fees: FeeModel, n: nat)
    requires 0 < n <= |closes| == |signals| && AllPriceable(fees, closes)
    ensures var anchored := Anchor(closes, signals, capital, fees) + Kept(closes, signals, capital, fees, n);
            anchored != [] && Thinned(RunTo(closes, signals, capital, fees, n).equity, anchored)
  {
    hide *;
    if n == 1 {
      FirstIsThinned(closes, signals, capital, fees);
    } else {
      KeptIsThinned(closes, signals, capital, fees, n - 1);
      NextIsThinned(closes, signals, capital, fees, n);
    }
  }

  lemma AnchorIsCapital(closes: seq<real>, signals: seq<int>, capital: real, fees: FeeModel)
    requires 0 < |closes| == |signals| && AllPriceable(fees, closes)
    ensures Anchor(closes, signals, capital, fees) == [] || Anchor(closes, signals, capital, fees) == [capital]
  {
  }

  lemma NothingThinned()
    ensures Thinned([], [])
  {
  }

  /** What closing out makes of the two curves: the bar of an open position was recorded, so
      the last point of both becomes the cash it leaves. */
  lemma ClosedCurves(closes: seq<real>, signals: seq<int>, capital: real, fees: FeeModel)
    requires 0 < |closes| == |signals| && AllPriceable(fees, closes)
    ensures var n := |closes|;
            var open := RunTo(closes, signals, capital, fees, n);
            var run, sim := Backtested(closes, signals, capital, fees).equity, Simulated(closes, signals, capital, fees).equity;
            if open.qty > 0.0 then
              var last := [open.cash + (Value(open.qty, closes[n - 1]) - fees.commission)];
              && run == RunTo(closes, signals, capital, fees, n - 1).equity + last
              && sim == Kept(closes, signals, capital, fees, n - 1) + last
            else
              run == open.equity && sim == Kept(closes, signals, capital, fees, n)
  {
    hide Unfilled, Value, Priceable, Step;
    var n := |closes|;
    var before, kept := RunTo(closes, signals, capital, fees, n - 1), Kept(closes, signals, capital, fees, n - 1);
    SimFollowsRun(closes, signals, capital, fees, n);
    EquityPerBar(closes, signals, capital, fees, n);
    EquityPerBar(closes, signals, capital, fees, n - 1);
    StepAlone(before, [], fees, n - 1, closes[n - 1], signals[n - 1]);
    EquityOfBar(before, fees, n - 1, closes[n - 1], signals[n - 1]);
    assert RunTo(closes, signals, capital, fees, n).equity[..n - 1] == before.equity;
    assert |Kept(closes, signals, capital, fees, n)| > |kept| ==> Kept(closes, signals, capital, fees, n)[..|kept|] == kept;
  }

  lemma CurvesThinned(closes: seq<real>, signals: seq<int>, capital: real, fees: FeeModel)
    requires 0 < |closes| == |signals| && AllPriceable(fees, closes)
    ensures Thinned(Backtested(closes, signals, capital, fees).equity,
                    Anchor(closes, signals, capital, fees) + Simulated(closes, signals, capital, fees).equity)
  {
    hide *;
    var n, anchor := |closes|, Anchor(closes, signals, capital, fees);
    ClosedCurves(closes, signals, capital, fees);
    var open := RunTo(closes, signals, capital, fees, n);
    if open.qty > 0.0 {
      var before, kept := RunTo(closes, signals, capital, fees, n - 1), Kept(closes, signals, capital, fees, n - 1);
      var proceeds := open.cash + (Value(open.qty, closes[n - 1]) - fees.commission);
      if n == 1 {
        NothingThinned();
        HeldIsFilled(closes, signals, capital, fees);
      } else {
        KeptIsThinned(closes, signals, capital, fees, n - 1);
      }
      ThinnedSnoc(before.equity, anchor + kept, proceeds);
      assert anchor + (kept + [proceeds]) == anchor + kept + [proceeds];
    } else {
      KeptIsThinned(closes, signals, capital, fees, n);
    }
  }

  lemma HeldIsFilled(closes: seq<real>, signals: seq<int>, capital: real, fees: FeeModel)
    requires 1 == |closes| == |signals| && AllPriceable(fees, closes)
    requires RunTo(closes, signals, capital, fees, 1).qty > 0.0
    ensures Anchor(closes, signals, capital, fees) == Kept(closes, signals, capital, fees, 0) == []
    ensures RunTo(closes, signals, capital, fees, 0).equity == []
  {
    hide Step, Unfilled;
    StepAlone(RunTo(closes, signals, capital, fees, 0), [], fees, 0, closes[0], signals[0]);
  }

  /** For all prices, signals and fees the executor's maximum drawdown is that of the simulator's
      curve with its anchor: the simulator's own, unless the very first bar is an entry that
      does not fill, and then that of its curve behind the initial capital. */
  lemma SameMaxDrawdown(closes: seq<real>, signals: seq<int>, capital: real, fees: FeeModel, day: seq<int>)
    requires 0 < |closes| == |signals| == |day| && AllPriceable(fees, closes)
    requires Backtested(closes, signals, capital, fees).equity[0] > 0.0
    ensures var first := RunTo(closes, signals, capital, fees, 0);
            ComputeStats(Backtested(closes, signals, capital, fees).equity, day).maxDrawdown
            == Worst((if Unfilled(first, fees, closes[0], signals[0]) then [capital] else [])
                     + Simulated(closes, signals, capital, fees).equity)
  {
    hide Worst, Thinned, Backtested, Simulated;
    CurvesThinned(closes, signals, capital, fees);
    ThinnedKeepsWorst(Backtested(closes, signals, capital, fees).equity,
                      Anchor(closes, signals, capital, fees) + Simulated(closes, signals, capital, fees).equity);
    WorstIsMaxDrawdown(Backtested(closes, signals, capital, fees).equity, day);
  }

  const EXAMPLE_FEES := FeeModel(0.0, 0.005)

  lemma ExampleSizes()
    ensures Priceable(EXAMPLE_FEES, 20000.0) && Priceable(EXAMPLE_FEES, 1.0)
    ensures Bought(EXAMPLE_FEES, 1.0, 20000.0) == 0.0 && Bought(EXAMPLE_FEES, 1.0, 1.0) == 0.995
  {
    assert (1.0 / 20100.0 * 10000.0).Floor == 0;
    assert (1.0 / 1.005 * 10000.0).Floor == 9950;
  }

  lemma ExampleSteps(a: Account)
    requires a == Account(1.0, 0.0, a.equity, [])
    ensures Priceable(EXAMPLE_FEES, 20000.0) && Priceable(EXAMPLE_FEES, 1.0)
    ensures Unfilled(a, EXAMPLE_FEES, 20000.0, 1) && !Unfilled(a, EXAMPLE_FEES, 1.0, 1)
    ensures Step(a, EXAMPLE_FEES, 0, 20000.0, 1) == a.(equity := a.equity + [1.0])
    ensures var b := Step(a, EXAMPLE_FEES, 1, 1.0, 1);
            b.cash == 0.000025 && b.qty == 0.995 && b.equity == a.equity + [0.995025]
  {
    hide Bought, Priceable, UnitCost;
    ExampleSizes();
  }

  lemma ExampleWorst()
    ensures Worst([1.0, 0.995025]) < Worst([0.995025]) == 0.0
  {
    assert [1.0, 0.995025][..1] == [1.0] && [1.0][..0] == [] && [0.995025][..0] == [];
    assert CumMax([1.0]) == [1.0] && CumMax([0.995025]) == [0.995025];
  }

  /** At the first bar the two do differ. With 1.00 of capital a first entry at 20000 is too dear
      to fill and a second at 1 fills: the executor's curve starts at the capital and dips by
      the stamp duty, the simulator's starts at the dip. */
  lemma FirstBarUnfilledHidesDrawdown()
    ensures var fees, closes, signals := EXAMPLE_FEES, [20000.0, 1.0], [1, 1];
            && AllPriceable(fees, closes)
            && Backtested(closes, signals, 1.0, fees).equity == [1.0, 0.995025]
            && Simulated(closes, signals, 1.0, fees).equity == [0.995025]
            && Worst([1.0, 0.995025]) < Worst([0.995025]) == 0.0
  {
    hide Step, Unfilled, Priceable, Worst;
    var fees, closes, signals, start := EXAMPLE_FEES, [20000.0, 1.0], [1, 1], Account(1.0, 0.0, [], []);
    ExampleSteps(start);
    ExampleSteps(start.(equity := [1.0]));
    ExampleWorst();
    assert RunTo(closes, signals, 1.0, fees, 0) == start;
    assert RunTo(closes, signals, 1.0, fees, 1) == start.(equity := [1.0]);
    assert RunTo(closes, signals, 1.0, fees, 2).equity == [1.0, 0.995025];
    assert SimTo(closes, signals, 1.0, fees, 1) == start;
    assert SimTo(closes, signals, 1.0, fees, 2).equity == [0.995025];
    SaleValue();
  }

  lemma SaleValue()
    ensures 0.000025 + Value(0.995, 1.0) == 0.995025
  {
  }
}
