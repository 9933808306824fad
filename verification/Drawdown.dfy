/** Maximum drawdown and its recovery, computed from one running maximum, against the
    definition over all pairs of bars. */
module Drawdown {
  import opened Lists
  import opened Reals

  /** The running maximum. */
  function CumMax(equity: seq<real>): (peak: seq<real>)
    ensures |peak| == |equity|
  {
    if equity == [] then []
    else
      var n := |equity| - 1;
      var peak := CumMax(equity[..n]);
      peak + [if n > 0 && peak[n - 1] > equity[n] then peak[n - 1] else equity[n]]
  }

  /** The first index of the smallest element. */
  function ArgMin(s: seq<real>): (i: nat)
    requires s != []
    ensures i < |s|
    ensures forall j | 0 <= j < |s| :: s[i] <= s[j]
    ensures forall j | 0 <= j < i :: s[i] < s[j]
  {
    if |s| == 1 then 0
    else
      var n := |s| - 1;
      var best := ArgMin(s[..n]);
      if s[n] < s[best] then n else best
  }

  /** The first index from `start` whose equity reaches `level`, or the length. */
  function FirstReaching(equity: seq<real>, start: nat, level: real): (i: nat)
    requires start <= |equity|
    ensures start <= i <= |equity|
    ensures i < |equity| ==> equity[i] >= level
    ensures forall j | start <= j < i :: equity[j] < level
    decreases |equity| - start
  {
    if start == |equity| || equity[start] >= level then start else FirstReaching(equity, start + 1, level)
  }

  function Relative(from: real, to: real): real
    requires from != 0.0
  {
    (to - from) / from
  }

  datatype Stats = Stats(
    maxDrawdown: real, trough: nat, recoveryDays: Option<int>, stillInDrawdown: bool, daysSinceTrough: Option<int>)

  /** The running maximum of a curve that starts above zero, with its index. */
  lemma {:induction false} CumMaxIsMax(equity: seq<real>, j: nat)
    requires j < |equity|
    ensures forall i | 0 <= i <= j :: equity[i] <= CumMax(equity)[j]
    ensures exists i :: 0 <= i <= j && equity[i] == CumMax(equity)[j]
  {
    var n := |equity| - 1;
    var init := equity[..n];
    if j < n {
      CumMaxIsMax(init, j);
      assert forall i | 0 <= i <= j :: init[i] == equity[i];
    } else {
      if n > 0 {
        CumMaxIsMax(init, n - 1);
        assert forall i | 0 <= i < n :: init[i] == equity[i];
      }
      assert equity[n] == equity[j];
    }
  }

  /** Drawdown from the running peak at each bar. The curve starts above zero, so every peak
      is positive. */
  function Drawdowns(equity: seq<real>): (dd: seq<real>)
    requires equity != [] && equity[0] > 0.0
    ensures |dd| == |equity|
    ensures forall j | 0 <= j < |equity| ::
              CumMax(equity)[j] > 0.0 && dd[j] == Relative(CumMax(equity)[j], equity[j])
  {
    var peak := CumMax(equity);
    assert forall j | 0 <= j < |equity| :: peak[j] > 0.0 by {
      forall j | 0 <= j < |equity| ensures peak[j] > 0.0 { CumMaxIsMax(equity, j); }
    }
    seq(|equity|, j requires 0 <= j < |equity| => Relative(peak[j], equity[j]))
  }

  /** The drawdown block of the statistics; `day[i]` is the calendar day of bar i. */
  function ComputeStats(equity: seq<real>, day: seq<int>): Stats
    requires equity != [] && equity[0] > 0.0 && |day| == |equity|
  {
    var dd := Drawdowns(equity);
    var trough := ArgMin(dd);
    var recovery := FirstReaching(equity, trough, CumMax(equity)[trough]);
    if recovery < |equity| then
      Stats(dd[trough], trough, Some(day[recovery] - day[trough]), false, None)
    else
      Stats(dd[trough], trough, None, true, Some(day[|day| - 1] - day[trough]))
  }

  // ---------------------------------------------------------------- the all-pairs definition

  lemma RelativeIsRatio(from: real, to: real)
    requires from > 0.0
    ensures Relative(from, to) == to / from - 1.0
  {
    CancelFactor(Relative(from, to), to / from - 1.0, from);
  }

  /** A loss is measured worst from the highest starting point. */
  lemma WorseFromHigher(low: real, high: real, to: real)
    requires 0.0 < low <= high && to >= 0.0
    ensures Relative(high, to) <= Relative(low, to)
  {
    hide Relative;
    RelativeIsRatio(low, to);
    RelativeIsRatio(high, to);
    LargerDivisor(to, low, high);
  }

  lemma LargerDivisor(x: real, low: real, high: real)
    requires 0.0 < low <= high && x >= 0.0
    ensures x / high <= x / low
  {
    var q, r := x / low, x / high;
    assert q * low == x && r * high == x;
    CancelFactor(r, 0.0, high);
    Distribute(r, low, high - low);
    assert r * low <= q * low;
    CancelFactor(q, r, low);
  }

  /** The one-pass maximum drawdown is attained by a pair of bars, a peak and a later bar, and
      no pair that ends at a non-negative equity does worse. */
  lemma MaxDrawdownIsWorstPair(equity: seq<real>, day: seq<int>)
    requires equity != [] && equity[0] > 0.0 && |day| == |equity|
    ensures var worst := ComputeStats(equity, day).maxDrawdown;
            && (exists i, j :: 0 <= i <= j < |equity| && equity[i] > 0.0 && worst == Relative(equity[i], equity[j]))
            && (forall i, j | 0 <= i <= j < |equity| && equity[i] > 0.0 && equity[j] >= 0.0 ::
                  worst <= Relative(equity[i], equity[j]))
  {
    var dd := Drawdowns(equity);
    var t := ArgMin(dd);
    CumMaxIsMax(equity, t);
    var p :| 0 <= p <= t && equity[p] == CumMax(equity)[t];
    assert dd[t] == Relative(equity[p], equity[t]);
    forall i, j | 0 <= i <= j < |equity| && equity[i] > 0.0 && equity[j] >= 0.0
      ensures dd[t] <= Relative(equity[i], equity[j])
    {
      CumMaxIsMax(equity, j);
      WorseFromHigher(equity[i], CumMax(equity)[j], equity[j]);
    }
  }

  /** The trough is the first bar as far below the high before it as any: the maximum drawdown
      is its fall from the highest equity so far, and before it no pair falls that far. */
  lemma TroughIsFirstWorst(equity: seq<real>, day: seq<int>)
    requires equity != [] && equity[0] > 0.0 && |day| == |equity|
    ensures var s := ComputeStats(equity, day);
            && s.trough < |equity|
            && (exists p :: 0 <= p <= s.trough && equity[p] > 0.0 && s.maxDrawdown == Relative(equity[p], equity[s.trough])
                         && forall k | 0 <= k <= s.trough :: equity[k] <= equity[p])
            && (forall i, j | 0 <= i <= j < s.trough && equity[i] > 0.0 && equity[j] >= 0.0 ::
                  s.maxDrawdown < Relative(equity[i], equity[j]))
  {
    hide Relative;
    var dd := Drawdowns(equity);
    var t := ArgMin(dd);
    CumMaxIsMax(equity, t);
    var p :| 0 <= p <= t && equity[p] == CumMax(equity)[t];
    forall i, j | 0 <= i <= j < t && equity[i] > 0.0 && equity[j] >= 0.0
      ensures dd[t] < Relative(equity[i], equity[j])
    {
      CumMaxIsMax(equity, j);
      WorseFromHigher(equity[i], CumMax(equity)[j], equity[j]);
    }
  }

  // ---------------------------------------------------------------- recovery

  /** A curve never draws down exactly when it never falls. */
  lemma NoDrawdownIffNeverFalls(equity: seq<real>, day: seq<int>)
    requires equity != [] && equity[0] > 0.0 && |day| == |equity|
    ensures ComputeStats(equity, day).maxDrawdown == 0.0
            <==> forall i, j | 0 <= i <= j < |equity| :: equity[i] <= equity[j]
  {
    var dd := Drawdowns(equity);
    var t := ArgMin(dd);
    forall j | 0 <= j < |equity|
      ensures (dd[j] >= 0.0 <==> CumMax(equity)[j] == equity[j]) && dd[j] <= 0.0
    {
      CumMaxIsMax(equity, j);
      SignOfRelative(CumMax(equity)[j], equity[j]);
    }
    if dd[t] == 0.0 {
      forall i, j | 0 <= i <= j < |equity|
        ensures equity[i] <= equity[j]
      {
        CumMaxIsMax(equity, j);
        assert dd[t] <= dd[j];
      }
    } else {
      CumMaxIsMax(equity, t);
      var p :| 0 <= p <= t && equity[p] == CumMax(equity)[t];
      assert equity[p] > equity[t];
    }
  }

  lemma SignOfRelative(from: real, to: real)
    requires from > 0.0
    ensures Relative(from, to) >= 0.0 <==> to >= from
    ensures Relative(from, to) <= 0.0 <==> to <= from
  {
    var r := Relative(from, to);
    assert r * from == to - from;
  }

  ghost predicate NewHigh(equity: seq<real>, r: nat) {
    r < |equity| && forall k | 0 <= k <= r :: equity[k] <= equity[r]
  }

  /** Exactly one of "recovered" and "still in drawdown" is reported. Recovery is the first bar
      at or after the trough whose equity is at least everything before it; still in drawdown
      means no such bar exists. */
  lemma RecoveryIsFirstNewHigh(equity: seq<real>, day: seq<int>)
    requires equity != [] && equity[0] > 0.0 && |day| == |equity|
    ensures var s := ComputeStats(equity, day);
            && s.trough < |equity|
            && s.recoveryDays.Some? != s.stillInDrawdown
            && s.daysSinceTrough.Some? == s.stillInDrawdown
            && (s.stillInDrawdown <==> forall r | s.trough <= r < |equity| :: !NewHigh(equity, r))
            && (s.stillInDrawdown ==> s.daysSinceTrough == Some(day[|day| - 1] - day[s.trough]))
            && (!s.stillInDrawdown ==>
                  exists r :: s.trough <= r < |equity| && NewHigh(equity, r)
                           && s.recoveryDays == Some(day[r] - day[s.trough])
                           && forall k | s.trough <= k < r :: !NewHigh(equity, k))
  {
    hide Drawdowns, CumMax, Relative;
    var t := ArgMin(Drawdowns(equity));
    var level := CumMax(equity)[t];
    var r := FirstReaching(equity, t, level);
    CumMaxIsMax(equity, t);
    var p :| 0 <= p <= t && equity[p] == level;
    forall k | t <= k < |equity| && equity[k] < level
      ensures !NewHigh(equity, k)
    {
      assert equity[p] > equity[k];
    }
    if r < |equity| {
      assert NewHigh(equity, r);
    }
  }

  /** A drawdown d needs a gain of 1/(1+d) - 1, so a recovered trough that is still worth
      something has gained at least that. */
  lemma RecoveryGain(equity: seq<real>, day: seq<int>, r: nat)
    requires equity != [] && equity[0] > 0.0 && |day| == |equity|
    requires var s := ComputeStats(equity, day);
             s.trough <= r && NewHigh(equity, r) && equity[s.trough] > 0.0
    ensures var s := ComputeStats(equity, day);
            && -1.0 < s.maxDrawdown <= 0.0
            && Relative(equity[s.trough], equity[r]) >= 1.0 / (1.0 + s.maxDrawdown) - 1.0
  {
    var t := ArgMin(Drawdowns(equity));
    var peak, low := CumMax(equity)[t], equity[t];
    CumMaxIsMax(equity, t);
    var p :| 0 <= p <= t && equity[p] == peak;
    assert equity[p] <= equity[r];
    GainToRegain(peak, low, equity[r]);
  }

  lemma GainToRegain(peak: real, low: real, to: real)
    requires 0.0 < low <= peak <= to
    ensures -1.0 < Relative(peak, low) <= 0.0
    ensures Relative(low, to) >= 1.0 / (1.0 + Relative(peak, low)) - 1.0
  {
    RelativeIsRatio(peak, low);
    RelativeIsRatio(low, to);
    Reciprocal(low, peak);
    CancelFactor(low / peak, 1.0, peak);
    CancelFactor(to / low, peak / low, low);
  }

  lemma Reciprocal(x: real, y: real)
    requires x > 0.0 && y > 0.0
    ensures x / y > 0.0 && 1.0 / (x / y) == y / x
  {
    CancelFactor(0.0, x / y, y);
    var f, g := x / y, y / x;
    assert f * y == x && g * x == y;
    Regroup(f, g, x);
    CancelFactor(f * g, 1.0, x);
    CancelFactor(1.0 / f, g, f);
  }
}
