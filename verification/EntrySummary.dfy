/** The figures reported for one horizon: means, the two controls, the hit rate, and the mean
    without the symbol that deviates most. */
module EntrySummary {
  import opened Lists
  import opened Reals
  import opened Rounding
  import opened EntryEdge
  import FirstAppearances

  datatype DropTop = DropTop(symbol: string, itsReturn: real, meanWithout: real, signFlips: bool)

  /** A signal mean against a control: the control's mean, the difference, and who wins. */
  datatype Versus = Versus(control: real, difference: real, beats: bool)

  datatype Summary = Summary(
    n: nat, signalPct: real, versusSymbol: Option<Versus>, versusBenchmark: Option<Versus>, hitRatePct: real,
    dropTop: Option<DropTop>)

  function Pcts(rows: seq<Row>): (r: seq<real>)
    ensures |r| == |rows|
  {
    seq(|rows|, k requires 0 <= k < |rows| => rows[k].pct)
  }

  /** The values present among the rows. */
  function Present(rows: seq<Row>, control: Row -> Option<real>): seq<real> {
    if rows == [] then []
    else
      match control(rows[0])
      case Some(v) => [v] + Present(rows[1..], control)
      case None => Present(rows[1..], control)
  }

  function Against(signal: real, controls: seq<real>): Option<Versus> {
    if controls == [] then None
    else
      var c := Mean(controls);
      Some(Versus(Round(c, 1000.0), Round(signal - c, 1000.0), signal > c))
  }

  function Deviation(pct: real, mean: real): real {
    if pct < mean then mean - pct else pct - mean
  }

  /** The first row as far from the mean as any. */
  function Farthest(rows: seq<Row>, mean: real): (k: nat)
    requires rows != []
    ensures k < |rows|
    ensures forall j | 0 <= j < |rows| :: Deviation(rows[j].pct, mean) <= Deviation(rows[k].pct, mean)
    ensures forall j | 0 <= j < k :: Deviation(rows[j].pct, mean) < Deviation(rows[k].pct, mean)
  {
    if |rows| == 1 then 0
    else
      var n := |rows| - 1;
      var best := Farthest(rows[..n], mean);
      assert forall j | 0 <= j < n :: rows[..n][j] == rows[j];
      if Deviation(rows[n].pct, mean) > Deviation(rows[best].pct, mean) then n else best
  }

  function Without(rows: seq<Row>, symbol: string): seq<Row> {
    Filter((r: Row) => r.symbol != symbol, rows)
  }

  function Concentration(rows: seq<Row>): Option<DropTop>
    requires rows != []
  {
    var mean := Mean(Pcts(rows));
    var far := rows[Farthest(rows, mean)];
    var rest := Without(rows, far.symbol);
    if |rows| == 1 || rest == [] then None
    else
      var without := Mean(Pcts(rest));
      Some(DropTop(far.symbol, Round(far.pct, 100.0), Round(without, 1000.0), (mean > 0.0) != (without > 0.0)))
  }

  function Hits(rows: seq<Row>): nat {
    if rows == [] then 0 else (if rows[0].pct > 0.0 then 1 else 0) + Hits(rows[1..])
  }

  function Summarise(rows: seq<Row>): Summary
    requires rows != []
  {
    var mean := Mean(Pcts(rows));
    Summary(|rows|, Round(mean, 1000.0), Against(mean, Present(rows, (r: Row) => r.controlA)),
            Against(mean, Present(rows, (r: Row) => r.controlB)), Round(100.0 * Hits(rows) as real / |rows| as real, 10.0),
            Concentration(rows))
  }

  /** The figures of every horizon that has rows. */
  method Summaries(rows: map<nat, seq<Row>>, horizons: seq<nat>) returns (out: map<nat, Summary>)
    requires forall h | h in horizons :: h in rows
    ensures forall h :: h in out <==> h in horizons && rows[h] != []
    ensures forall h | h in out :: out[h] == Summarise(rows[h])
  {
    hide Summarise;
    out := map[];
    for i := 0 to |horizons|
      invariant forall h :: h in out <==> h in horizons[..i] && rows[h] != []
      invariant forall h | h in out :: h in rows && rows[h] != [] && out[h] == Summarise(rows[h])
    {
      var h := horizons[i];
      assert horizons[..i + 1] == horizons[..i] + [h];
      if rows[h] == [] {
        continue;
      }
      out := out[h := Summarise(rows[h])];
    }
    assert horizons[..|horizons|] == horizons;
  }

  // ---------------------------------------------------------------- against a control

  /** The returns of the rows that have a control. */
  function Covered(rows: seq<Row>, control: Row -> Option<real>): seq<real> {
    if rows == [] then []
    else if control(rows[0]).Some? then [rows[0].pct] + Covered(rows[1..], control)
    else Covered(rows[1..], control)
  }

  /** Each of them less its own control. */
  function Margins(rows: seq<Row>, control: Row -> Option<real>): seq<real> {
    if rows == [] then []
    else
      match control(rows[0])
      case Some(v) => [rows[0].pct - v] + Margins(rows[1..], control)
      case None => Margins(rows[1..], control)
  }

  lemma {:induction false} MarginsLength(rows: seq<Row>, control: Row -> Option<real>)
    ensures |Margins(rows, control)| == |Covered(rows, control)| == |Present(rows, control)|
  {
    if rows != [] {
      MarginsLength(rows[1..], control);
    }
  }

  lemma {:induction false} CoveredAll(rows: seq<Row>, control: Row -> Option<real>)
    requires forall r | r in rows :: control(r).Some?
    ensures Covered(rows, control) == Pcts(rows)
  {
    if rows != [] {
      assert rows == [rows[0]] + rows[1..];
      CoveredAll(rows[1..], control);
      assert Pcts(rows) == [rows[0].pct] + Pcts(rows[1..]);
    }
  }

  lemma {:induction false} MarginsSum(rows: seq<Row>, control: Row -> Option<real>)
    ensures Sum(Margins(rows, control)) == Sum(Covered(rows, control)) - Sum(Present(rows, control))
  {
    if rows != [] {
      var rest := rows[1..];
      MarginsSum(rest, control);
      if control(rows[0]).Some? {
        assert Covered(rows, control)[1..] == Covered(rest, control);
        assert Present(rows, control)[1..] == Present(rest, control);
        assert Margins(rows, control)[1..] == Margins(rest, control);
      }
    }
  }

  lemma MeanDifference(x: seq<real>, y: seq<real>, d: seq<real>)
    requires 0 < |x| == |y| == |d| && Sum(d) == Sum(x) - Sum(y)
    ensures Mean(d) == Mean(x) - Mean(y)
  {
    DifferenceOfQuotients(Sum(x), Sum(y), |d| as real);
  }

  /** The signals beat a control exactly when their mean margin over it exceeds what the rows
      without a control take off the mean; with every control present that is nothing, and the
      margin alone decides. */
  lemma BeatsMeans(rows: seq<Row>, control: Row -> Option<real>)
    requires rows != [] && Present(rows, control) != []
    ensures Margins(rows, control) != [] && Covered(rows, control) != []
    ensures var margin := Mean(Margins(rows, control));
            var lacking := Mean(Covered(rows, control)) - Mean(Pcts(rows));
            var v := Against(Mean(Pcts(rows)), Present(rows, control));
            && v.Some? && -0.0005 <= v.value.difference - (margin - lacking) <= 0.0005
            && -0.0005 <= v.value.control - Mean(Present(rows, control)) <= 0.0005
            && (v.value.beats <==> margin > lacking)
            && ((forall r | r in rows :: control(r).Some?) ==> lacking == 0.0)
  {
    hide Mean, Round;
    MarginsLength(rows, control);
    MarginsSum(rows, control);
    if forall r | r in rows :: control(r).Some? {
      CoveredAll(rows, control);
    }
    MeanDifference(Covered(rows, control), Present(rows, control), Margins(rows, control));
    RoundedWithin(Mean(Present(rows, control)), 1000.0);
    RoundedWithin(Mean(Pcts(rows)) - Mean(Present(rows, control)), 1000.0);
  }

  /** So a benchmark can be beaten on paper while the one signal on its dates lost to it. */
  lemma MissingControlMisleads()
    ensures var rows := [Row("A", 3.0, None, None), Row("B", 0.0, None, Some(1.0))];
            var v := Against(Mean(Pcts(rows)), Present(rows, (r: Row) => r.controlB));
            v.Some? && v.value.beats && Margins(rows, (r: Row) => r.controlB) == [-1.0]
  {
    hide Round;
    var a, b := Row("A", 3.0, None, None), Row("B", 0.0, None, Some(1.0));
    var rows, control := [a, b], (r: Row) => r.controlB;
    assert rows[1..] == [b] && [b][1..] == [];
    assert control(a) == None && control(b) == Some(1.0);
    assert Present([b], control) == [1.0] + Present([], control);
    assert Margins([b], control) == [-1.0] + Margins([], control);
    assert Present(rows, control) == Present(rows[1..], control);
    assert Margins(rows, control) == Margins(rows[1..], control);
    assert Pcts(rows) == [3.0, 0.0] && [3.0, 0.0][1..] == [0.0] && [0.0][1..] == [] && [1.0][1..] == [];
    assert Sum([0.0]) == 0.0 && Sum([3.0, 0.0]) == 3.0 && Sum([1.0]) == 1.0;
  }

  /** The hit rate is the share of rows with a return above zero, in percent to one decimal;
      each control is compared under its own name. */
  lemma SummaryMeans(rows: seq<Row>)
    requires rows != []
    ensures var r := Summarise(rows);
            && r.n == |rows|
            && -0.0005 <= r.signalPct - Mean(Pcts(rows)) <= 0.0005
            && -0.05 <= r.hitRatePct - 100.0 * |Filter((x: Row) => x.pct > 0.0, rows)| as real / |rows| as real <= 0.05
            && r.versusSymbol == Against(Mean(Pcts(rows)), Present(rows, (x: Row) => x.controlA))
            && r.versusBenchmark == Against(Mean(Pcts(rows)), Present(rows, (x: Row) => x.controlB))
  {
    hide Mean, Round, Against, Concentration, Present;
    HitsAreFiltered(rows);
    RoundedWithin(Mean(Pcts(rows)), 1000.0);
    RoundedWithin(100.0 * Hits(rows) as real / |rows| as real, 10.0);
  }

  lemma {:induction false} HitsAreFiltered(rows: seq<Row>)
    ensures Hits(rows) == |Filter((x: Row) => x.pct > 0.0, rows)|
  {
    if rows != [] {
      HitsAreFiltered(rows[1..]);
    }
  }

  // ---------------------------------------------------------------- one symbol dropped

  ghost predicate DistinctRows(rows: seq<Row>) {
    forall j, k | 0 <= j < k < |rows| :: rows[j].symbol != rows[k].symbol
  }

  lemma {:induction false} WithoutNone(rows: seq<Row>, symbol: string)
    requires forall r | r in rows :: r.symbol != symbol
    ensures Without(rows, symbol) == rows
  {
    if rows != [] {
      WithoutNone(rows[1..], symbol);
      assert rows == [rows[0]] + rows[1..];
    }
  }

  lemma WithoutAppend(a: seq<Row>, b: seq<Row>, symbol: string)
    ensures Without(a + b, symbol) == Without(a, symbol) + Without(b, symbol)
  {
    FilterAppend((r: Row) => r.symbol != symbol, a, b);
  }

  lemma WithoutItself(r: Row)
    ensures Without([r], r.symbol) == []
  {
    assert Filter((x: Row) => x.symbol != r.symbol, [r][1..]) == [];
  }

  lemma OthersDiffer(rows: seq<Row>, k: nat)
    requires DistinctRows(rows) && k < |rows|
    ensures forall r | r in rows[..k] :: r.symbol != rows[k].symbol
    ensures forall r | r in rows[k + 1..] :: r.symbol != rows[k].symbol
  {
  }

  /** With one row a symbol, dropping a symbol drops its row. */
  lemma WithoutOne(rows: seq<Row>, k: nat)
    requires DistinctRows(rows) && k < |rows|
    ensures Without(rows, rows[k].symbol) == rows[..k] + rows[k + 1..]
  {
    hide Without, DistinctRows;
    var symbol := rows[k].symbol;
    OthersDiffer(rows, k);
    WithoutNone(rows[..k], symbol);
    WithoutNone(rows[k + 1..], symbol);
    WithoutItself(rows[k]);
    WithoutAppend(rows[..k], [rows[k]], symbol);
    WithoutAppend(rows[..k] + [rows[k]], rows[k + 1..], symbol);
    assert rows == rows[..k] + [rows[k]] + rows[k + 1..];
  }

  lemma SumWithout(rows: seq<Row>, k: nat)
    requires k < |rows|
    ensures Sum(Pcts(rows)) == Sum(Pcts(rows[..k] + rows[k + 1..])) + rows[k].pct
  {
    var a, b, x := Pcts(rows[..k]), Pcts(rows[k + 1..]), rows[k].pct;
    assert Pcts(rows) == a + ([x] + b);
    assert Pcts(rows[..k] + rows[k + 1..]) == a + b;
    SumAppend(a, [x] + b);
    SumAppend(a, b);
    assert ([x] + b)[1..] == b;
  }

  lemma MeanSign(values: seq<real>)
    requires values != []
    ensures Mean(values) > 0.0 <==> Sum(values) > 0.0
  {
    var n := |values| as real;
    MeanTimes(values);
    CancelFactor(0.0, Mean(values), n);
  }

  /** No return is farther from the mean than that of row `k`, and none before it as far. */
  ghost predicate DeviatesMost(rows: seq<Row>, mean: real, k: nat) {
    && k < |rows|
    && var x := rows[k].pct;
       && (forall j | 0 <= j < |rows| ::
             if x >= mean then mean - (x - mean) <= rows[j].pct <= x else x <= rows[j].pct <= mean + (mean - x))
       && (forall j | 0 <= j < k ::
             if x >= mean then mean - (x - mean) < rows[j].pct < x else x < rows[j].pct < mean + (mean - x))
  }

  lemma FarthestDeviatesMost(rows: seq<Row>, mean: real)
    requires rows != []
    ensures DeviatesMost(rows, mean, Farthest(rows, mean))
  {
    hide Farthest;
  }

  /** With one row a symbol, what is reported is the row that deviates most, the mean of all
      the other rows, and a flip exactly when that one return carries the sign of the sum. */
  lemma ConcentrationMeans(rows: seq<Row>)
    requires DistinctRows(rows) && |rows| > 1
    ensures var sum, r := Sum(Pcts(rows)), Concentration(rows);
            r.Some? && exists k: nat ::
              && DeviatesMost(rows, sum / |rows| as real, k)
              && r.value.symbol == rows[k].symbol
              && -0.005 <= r.value.itsReturn - rows[k].pct <= 0.005
              && -0.0005 <= r.value.meanWithout - (sum - rows[k].pct) / (|rows| - 1) as real <= 0.0005
              && (r.value.signFlips <==> if sum > 0.0 then rows[k].pct >= sum else rows[k].pct < sum)
  {
    hide Round, Without, Farthest, Pcts, Sum, DistinctRows, DeviatesMost;
    var k := Farthest(rows, Mean(Pcts(rows)));
    var rest := rows[..k] + rows[k + 1..];
    FarthestDeviatesMost(rows, Mean(Pcts(rows)));
    WithoutOne(rows, k);
    SumWithout(rows, k);
    MeanSign(Pcts(rows));
    MeanSign(Pcts(rest));
    RoundedWithin(rows[k].pct, 100.0);
    RoundedWithin(Mean(Pcts(rest)), 1000.0);
  }

  /** First appearances give one row a symbol at every horizon. */
  lemma {:induction false} FirstAppearancesDistinct(
    signals: seq<Signal>, load: map<string, Series>, bench: Option<Series>, horizons: seq<nat>, h: nat)
    requires FirstAppearances.DistinctSymbols(signals) && DistinctHorizons(horizons)
    ensures DistinctRows(RowsFor(signals, load, bench, horizons, h))
  {
    hide RowAt, Contributes;
    if signals != [] {
      var n := |signals| - 1;
      var s, before := signals[n], RowsFor(signals[..n], load, bench, horizons, h);
      FirstAppearancesDistinct(signals[..n], load, bench, horizons, h);
      RowsOfOnce(s, load, bench, horizons, h);
      RowsForSymbol(signals[..n], load, bench, horizons, h, s.symbol);
      NotBefore(signals, load, bench, h);
      RowsOfSymbol(s, load, bench, horizons, h);
      SnocDistinct(before, RowsOf(s, load, bench, horizons, h), s.symbol);
    }
  }

  lemma NotBefore(signals: seq<Signal>, load: map<string, Series>, bench: Option<Series>, h: nat)
    requires signals != [] && FirstAppearances.DistinctSymbols(signals)
    ensures !Contributes(signals[..|signals| - 1], load, bench, h, signals[|signals| - 1].symbol)
  {
    hide RowAt;
  }

  lemma SnocDistinct(rows: seq<Row>, last: seq<Row>, symbol: string)
    requires DistinctRows(rows) && |last| <= 1 && symbol !in SymbolsIn(rows)
    requires forall r | r in last :: r.symbol == symbol
    ensures DistinctRows(rows + last)
  {
    forall k | 0 <= k < |rows|
      ensures rows[k].symbol != symbol
    {
      assert rows[k].symbol in SymbolsIn(rows);
    }
    assert last != [] ==> last[0] in last;
  }
}
