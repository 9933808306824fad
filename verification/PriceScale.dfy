/** Quoting a history in another unit changes nothing the evaluation sees: a $12 stock and a
    $960 stock of the same shape get the same states, outcomes and prediction. */
module PriceScale {
  import opened Lists
  import opened Reals
  import opened Analogs
  import opened Noninterference

  function ScaleSeq(s: seq<real>, k: real): seq<real> {
    seq(|s|, i requires 0 <= i < |s| => Times(k, s[i]))
  }

  function ScaleHistory(x: History, k: real): History {
    History(ScaleSeq(x.close, k), ScaleSeq(x.high, k), ScaleSeq(x.low, k))
  }

  lemma TimesOrder(k: real, a: real, b: real)
    requires k > 0.0
    ensures a < b <==> Times(k, a) < Times(k, b)
    ensures a <= b <==> Times(k, a) <= Times(k, b)
    ensures a > 0.0 <==> Times(k, a) > 0.0
    ensures a >= 0.0 <==> Times(k, a) >= 0.0
  {
    CancelFactor(a, b, k);
    CancelFactor(b, a, k);
    CancelFactor(a, 0.0, k);
    CancelFactor(0.0, a, k);
  }

  lemma TimesAdds(k: real, a: real, b: real)
    ensures Times(k, a + b) == Times(k, a) + Times(k, b)
    ensures Times(k, a - b) == Times(k, a) - Times(k, b)
  {
  }

  lemma TimesQuotient(k: real, a: real, b: real)
    requires k > 0.0 && b > 0.0
    ensures Times(k, b) > 0.0
    ensures Times(k, a) / Times(k, b) == a / b
    ensures Times(k, a) / b == Times(k, a / b)
  {
    TimesOrder(k, 0.0, b);
    var q := a / b;
    assert q * b == a;
    assert q * (k * b) == k * (q * b);
    SameQuotient(Times(k, a), Times(k, b), q);
    assert k * q * b == k * (q * b);
    SameQuotient(Times(k, a), b, Times(k, q));
  }

  lemma {:induction false} SumScales(s: seq<real>, k: real)
    ensures Sum(ScaleSeq(s, k)) == Times(k, Sum(s))
  {
    if s != [] {
      hide Times;
      assert ScaleSeq(s, k)[1..] == ScaleSeq(s[1..], k);
      SumScales(s[1..], k);
      TimesAdds(k, s[0], Sum(s[1..]));
    }
  }

  lemma MaxScales(s: seq<real>, k: real)
    requires s != [] && k > 0.0
    ensures MaxOf(ScaleSeq(s, k)) == Times(k, MaxOf(s))
  {
    hide Times;
    var t := ScaleSeq(s, k);
    var i :| 0 <= i < |s| && s[i] == MaxOf(s);
    var j :| 0 <= j < |t| && t[j] == MaxOf(t);
    TimesOrder(k, s[i], s[j]);
    TimesOrder(k, s[j], s[i]);
    assert t[i] == Times(k, s[i]) && t[j] == Times(k, s[j]);
  }

  lemma SliceScales(s: seq<real>, k: real, lo: nat, hi: nat)
    requires lo <= hi <= |s|
    ensures ScaleSeq(s, k)[lo..hi] == ScaleSeq(s[lo..hi], k)
  {
  }

  lemma SmaScales(c: seq<real>, k: real, i: nat, n: nat)
    requires k > 0.0 && 0 < n <= i + 1 <= |c|
    ensures Sma(ScaleSeq(c, k), i, n) == Times(k, Sma(c, i, n))
  {
    hide Times;
    SliceScales(c, k, i - n + 1, i + 1);
    SumScales(c[i - n + 1..i + 1], k);
    TimesQuotient(k, Sum(c[i - n + 1..i + 1]), n as real);
  }

  lemma AbsScales(k: real, v: real)
    requires k > 0.0
    ensures Abs(Times(k, v)) == Times(k, Abs(v))
  {
    TimesOrder(k, v, 0.0);
  }

  lemma TrueRangeScales(x: History, k: real, j: nat)
    requires k > 0.0 && x.Valid() && 0 < j < |x.close|
    ensures TrueRange(ScaleHistory(x, k), j) == Times(k, TrueRange(x, j))
  {
    hide Times, Abs, MaxOf;
    var h, l, p := x.high[j], x.low[j], x.close[j - 1];
    TimesAdds(k, h, l);
    TimesAdds(k, h, p);
    TimesAdds(k, l, p);
    AbsScales(k, h - p);
    AbsScales(k, l - p);
    var s := [h - l, Abs(h - p), Abs(l - p)];
    MaxScales(s, k);
    ScaleThree(s[0], s[1], s[2], k);
  }

  lemma ScaleThree(a: real, b: real, c: real, k: real)
    ensures ScaleSeq([a, b, c], k) == [Times(k, a), Times(k, b), Times(k, c)]
  {
  }

  lemma TrueRangesScale(x: History, k: real, i: nat)
    requires k > 0.0 && x.Valid() && 14 <= i < |x.close|
    ensures TrueRanges(ScaleHistory(x, k), i) == ScaleSeq(TrueRanges(x, i), k)
  {
    hide Times, TrueRange;
    var a, b := TrueRanges(ScaleHistory(x, k), i), ScaleSeq(TrueRanges(x, i), k);
    forall n | 0 <= n < 14
      ensures a[n] == b[n]
    {
      TrueRangeScales(x, k, i - 13 + n);
    }
  }

  function ScaleReference(r: Reference, k: real): Reference {
    Reference(Times(k, r.close), Times(k, r.close20), Times(k, r.s200), Times(k, r.s50), Times(k, r.s20),
              Times(k, r.atr), Times(k, r.hi52))
  }

  lemma VectorScales(r: Reference, k: real)
    requires k > 0.0
    ensures Vector(ScaleReference(r, k)) == Vector(r)
  {
    hide Times;
    TimesOrder(k, r.close, 0.0);
    TimesOrder(k, r.close20, 0.0);
    TimesOrder(k, r.s200, 0.0);
    TimesOrder(k, r.s50, 0.0);
    TimesOrder(k, r.s20, 0.0);
    TimesOrder(k, r.hi52, 0.0);
    if Vector(r).Some? {
      TimesQuotient(k, r.close, r.s200);
      TimesQuotient(k, r.close, r.s50);
      TimesQuotient(k, r.close, r.s20);
      TimesQuotient(k, r.close, r.close20);
      HundredTimes(k, r.atr);
      TimesQuotient(k, 100.0 * r.atr, r.close);
      TimesAdds(k, r.hi52, r.close);
      HundredTimes(k, r.hi52 - r.close);
      TimesQuotient(k, 100.0 * (r.hi52 - r.close), r.hi52);
    }
  }

  lemma HundredTimes(k: real, v: real)
    ensures 100.0 * Times(k, v) == Times(k, 100.0 * v)
  {
  }

  lemma CloseScales(x: History, k: real, j: nat)
    requires x.Valid() && j < |x.close|
    ensures var y := ScaleHistory(x, k);
            y.Valid() && |y.close| == |x.close| && y.close[j] == Times(k, x.close[j])
  {
  }

  lemma ReferenceScales(x: History, k: real, i: nat)
    requires k > 0.0 && x.Valid() && 252 <= i < |x.close|
    ensures |ScaleHistory(x, k).close| == |x.close| && ScaleHistory(x, k).Valid()
    ensures ReferenceAt(ScaleHistory(x, k), i) == ScaleReference(ReferenceAt(x, i), k)
  {
    hide Times, Sma, TrueRanges, MaxOf, Sum, ScaleSeq;
    CloseScales(x, k, i);
    CloseScales(x, k, i - 20);
    SmaScales(x.close, k, i, 200);
    SmaScales(x.close, k, i, 50);
    SmaScales(x.close, k, i, 20);
    AtrScales(x, k, i);
    HighScales(x.high, k, i - 251, i + 1);
  }

  lemma AtrScales(x: History, k: real, i: nat)
    requires k > 0.0 && x.Valid() && 14 <= i < |x.close|
    ensures Sum(TrueRanges(ScaleHistory(x, k), i)) / 14.0 == Times(k, Sum(TrueRanges(x, i)) / 14.0)
  {
    hide Times, TrueRanges;
    TrueRangesScale(x, k, i);
    SumScales(TrueRanges(x, i), k);
    TimesQuotient(k, Sum(TrueRanges(x, i)), 14.0);
  }

  lemma HighScales(s: seq<real>, k: real, lo: nat, hi: nat)
    requires k > 0.0 && lo < hi <= |s|
    ensures MaxOf(ScaleSeq(s, k)[lo..hi]) == Times(k, MaxOf(s[lo..hi]))
  {
    SliceScales(s, k, lo, hi);
    MaxScales(s[lo..hi], k);
  }

  /** State vectors are scale-free. */
  lemma StateIsPriceScaleFree(x: History, k: real, i: nat)
    requires k > 0.0 && x.Valid() && i < |x.close|
    ensures StateAt(ScaleHistory(x, k), i) == StateAt(x, i)
  {
    hide Vector, ReferenceAt;
    if i >= 252 {
      ReferenceScales(x, k, i);
      VectorScales(ReferenceAt(x, i), k);
    }
  }

  lemma LevelScales(k: real, c: real, pct: real)
    ensures Level(Times(k, c), pct) == Times(k, Level(c, pct))
  {
    Regroup(k, c, 1.0 + pct);
  }

  /** Barrier outcomes are scale-free. */
  lemma OutcomeIsPriceScaleFree(x: History, k: real, i: nat, b: Barriers)
    requires k > 0.0 && x.Valid()
    ensures OutcomeOf(ScaleHistory(x, k), i, b) == OutcomeOf(x, i, b)
  {
    hide Times, Level;
    var y := ScaleHistory(x, k);
    if i + b.horizon < |x.close| {
      TimesOrder(k, x.close[i], 0.0);
      var up, dn := Level(x.close[i], b.upPct), Level(x.close[i], b.dnPct);
      LevelScales(k, x.close[i], b.upPct);
      LevelScales(k, x.close[i], b.dnPct);
      forall j | i < j <= i + b.horizon
        ensures y.high[j] >= Times(k, up) <==> x.high[j] >= up
        ensures y.low[j] > Times(k, dn) <==> x.low[j] > dn
      {
        TimesOrder(k, up, x.high[j]);
        TimesOrder(k, dn, x.low[j]);
      }
      if UpFirst(x, i, b) {
        var j :| i < j <= i + b.horizon && x.high[j] >= up && forall n | i < n <= j :: x.low[n] > dn;
        assert y.high[j] >= Times(k, up) && forall n | i < n <= j :: y.low[n] > Times(k, dn);
      }
      if UpFirst(y, i, b) {
        var j :| i < j <= i + b.horizon && y.high[j] >= Times(k, up) && forall n | i < n <= j :: y.low[n] > Times(k, dn);
        assert x.high[j] >= up && forall n | i < n <= j :: x.low[n] > dn;
      }
    }
  }

  lemma {:induction false} UsableScales(x: History, k: real, pool: seq<nat>, b: Barriers)
    requires k > 0.0 && x.Valid() && forall n | 0 <= n < |pool| :: pool[n] < |x.close|
    ensures Usable(ScaleHistory(x, k), pool, b) == Usable(x, pool, b)
  {
    hide StateAt, OutcomeOf;
    if pool != [] {
      StateIsPriceScaleFree(x, k, pool[0]);
      OutcomeIsPriceScaleFree(x, k, pool[0], b);
      UsableScales(x, k, pool[1..], b);
    }
  }

  /** The whole evaluation is scale-free: the same verdict, statistics, neighbours and P(up). */
  lemma EvaluationIsPriceScaleFree(
    x: History, k: real, i: nat, pool: seq<nat>, b: Barriers, sqrt: real -> real, n: nat)
    requires k > 0.0 && x.Valid() && i < |x.close| && IsSqrt(sqrt)
    ensures Evaluate(ScaleHistory(x, k), i, pool, b, sqrt, n) == Evaluate(x, i, pool, b, sqrt, n)
  {
    hide IsSqrt, Judge, StateAt, OutcomeOf;
    var y := ScaleHistory(x, k);
    StateIsPriceScaleFree(x, k, i);
    if NoLookahead(i, pool, b.horizon) {
      UsableScales(x, k, pool, b);
      var index := Usable(x, pool, b);
      forall m | 0 <= m < |index|
        ensures StateAt(y, index[m]) == StateAt(x, index[m])
        ensures OutcomeOf(y, index[m], b) == OutcomeOf(x, index[m], b)
      {
        StateIsPriceScaleFree(x, k, index[m]);
        OutcomeIsPriceScaleFree(x, k, index[m], b);
      }
      assert StatesOf(y, index) == StatesOf(x, index);
      assert OutcomesOf(y, index, b) == OutcomesOf(x, index, b);
    }
  }
}
