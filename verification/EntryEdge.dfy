/** Grading entries: the forward return of every (symbol, day) signal at every horizon, beside
    its two controls, with every signal that could not be measured named. A missing symbol is
    the empty string, a missing day is None; days are numbers. */
module EntryEdge {
  import opened Lists
  import opened Reals

  datatype Signal = Signal(symbol: string, day: Option<int>)

  datatype Series = Series(dates: seq<int>, closes: seq<real>)

  datatype Row = Row(symbol: string, pct: real, controlA: Option<real>, controlB: Option<real>)

  datatype Why = Incomplete | NoBars | NotInStore | TooRecent

  datatype Unmeasured = Unmeasured(symbol: string, day: Option<int>, why: Why)

  // ---------------------------------------------------------------- one signal

  function ForwardReturn(closes: seq<real>, i: nat, h: nat): Option<real> {
    if i + h >= |closes| || closes[i] <= 0.0 then None
    else Some(100.0 * (closes[i + h] / closes[i] - 1.0))
  }

  /** The returns from every bar before `n` but `skip`. */
  function ReturnsUpto(closes: seq<real>, h: nat, skip: nat, n: nat): seq<real> {
    if n == 0 then []
    else
      match ForwardReturn(closes, n - 1, h)
      case Some(v) => if n - 1 != skip then ReturnsUpto(closes, h, skip, n - 1) + [v] else ReturnsUpto(closes, h, skip, n - 1)
      case None => ReturnsUpto(closes, h, skip, n - 1)
  }

  function UnconditionalMean(closes: seq<real>, h: nat, skip: nat): Option<real> {
    var vals := ReturnsUpto(closes, h, skip, |closes|);
    if vals == [] then None else Some(Mean(vals))
  }

  function IndexOf(dates: seq<int>, day: int): (i: nat)
    requires day in dates
    ensures i < |dates| && dates[i] == day && day !in dates[..i]
  {
    if dates[0] == day then 0
    else
      var i := IndexOf(dates[1..], day);
      assert dates[..i + 1] == [dates[0]] + dates[1..][..i];
      i + 1
  }

  /** The bar a signal is measured from, or why there is none. */
  datatype Located = At(series: Series, bar: nat) | Lost(why: Why)

  function Locate(s: Signal, load: map<string, Series>): Located {
    if s.symbol == "" || s.day.None? then Lost(Incomplete)
    else if s.symbol !in load then Lost(NoBars)
    else
      var series := load[s.symbol];
      if s.day.value !in series.dates then Lost(NotInStore) else At(series, IndexOf(series.dates, s.day.value))
  }

  function ControlB(bench: Option<Series>, day: Option<int>, h: nat): Option<real> {
    if bench.Some? && day.Some? && day.value in bench.value.dates
    then ForwardReturn(bench.value.closes, IndexOf(bench.value.dates, day.value), h)
    else None
  }

  /** The row a signal contributes at a horizon, if any. */
  function RowAt(s: Signal, load: map<string, Series>, bench: Option<Series>, h: nat): Option<Row> {
    match Locate(s, load)
    case Lost(_) => None
    case At(series, i) =>
      match ForwardReturn(series.closes, i, h)
      case None => None
      case Some(v) => Some(Row(s.symbol, v, UnconditionalMean(series.closes, h, i), ControlB(bench, s.day, h)))
  }

  predicate Measured(s: Signal, load: map<string, Series>, bench: Option<Series>, horizons: seq<nat>) {
    exists k | 0 <= k < |horizons| :: RowAt(s, load, bench, horizons[k]).Some?
  }

  function WhyNot(s: Signal, load: map<string, Series>): Why {
    match Locate(s, load)
    case Lost(why) => why
    case At(_, _) => TooRecent
  }

  /** The entry that lists a signal as unmeasured. */
  function EntryOf(s: Signal, load: map<string, Series>): Unmeasured {
    Unmeasured(s.symbol, s.day, WhyNot(s, load))
  }

  /** A forward return is the percentage that turns the signal bar's close into the later
      one, and exists exactly when that bar has a positive close and a bar h later. */
  lemma ForwardReturnMeans(closes: seq<real>, i: nat, h: nat, pct: real)
    ensures ForwardReturn(closes, i, h) == Some(pct)
       <==> i + h < |closes| && closes[i] > 0.0 && Times(closes[i], 1.0 + pct / 100.0) == closes[i + h]
  {
    if i + h < |closes| && closes[i] > 0.0 {
      var c, d := closes[i], closes[i + h];
      var q := d / c;
      assert q * c == d;
      CancelFactor(1.0 + pct / 100.0, q, c);
    }
  }

  /** The first bar dated `day`. */
  ghost predicate FirstOn(dates: seq<int>, day: int, i: nat) {
    i < |dates| && dates[i] == day && forall j | 0 <= j < i :: dates[j] != day
  }

  lemma IndexIsFirst(dates: seq<int>, day: int)
    requires day in dates
    ensures FirstOn(dates, day, IndexOf(dates, day))
    ensures forall i: nat | FirstOn(dates, day, i) :: i == IndexOf(dates, day)
  {
    var i := IndexOf(dates, day);
    forall j | 0 <= j < i
      ensures dates[j] != day
    {
      assert dates[..i][j] == dates[j];
    }
  }

  /** What a row says: the signal's symbol, the return of its series from the first bar dated on
      the signal's day, and the two controls of that bar and day. A signal has a row exactly when
      that bar has a positive close and a bar `h` later. */
  lemma RowMeans(s: Signal, load: map<string, Series>, bench: Option<Series>, h: nat, i: nat)
    requires s.symbol != "" && s.day.Some? && s.symbol in load && FirstOn(load[s.symbol].dates, s.day.value, i)
    ensures var series, r := load[s.symbol], RowAt(s, load, bench, h);
            && (r.Some? <==> i + h < |series.closes| && series.closes[i] > 0.0)
            && (r.Some? ==>
                  && r.value.symbol == s.symbol
                  && Times(series.closes[i], 1.0 + r.value.pct / 100.0) == series.closes[i + h]
                  && r.value.controlA == UnconditionalMean(series.closes, h, i)
                  && r.value.controlB == ControlB(bench, s.day, h))
  {
    hide Times, UnconditionalMean, IndexOf;
    var series, day := load[s.symbol], s.day.value;
    assert day in series.dates;
    IndexIsFirst(series.dates, day);
    if RowAt(s, load, bench, h).Some? {
      ForwardReturnMeans(series.closes, i, h, RowAt(s, load, bench, h).value.pct);
    }
  }

  /** Control B is the benchmark's return from its own first bar of the day. */
  lemma ControlBMeans(bench: Option<Series>, day: Option<int>, h: nat, pct: real)
    ensures ControlB(bench, day, h) == Some(pct)
       <==> bench.Some? && day.Some? && exists j: nat :: FirstOn(bench.value.dates, day.value, j) && MovesFrom(bench.value.closes, j, h, pct)
  {
    hide IndexOf, Times, ForwardReturn;
    if bench.Some? && day.Some? && day.value in bench.value.dates {
      var j := IndexOf(bench.value.dates, day.value);
      IndexIsFirst(bench.value.dates, day.value);
      ForwardReturnMeans(bench.value.closes, j, h, pct);
    }
  }

  /** Bar `i` has a positive close and a bar `h` later, and moves by `pct` percent to it. */
  predicate MovesFrom(closes: seq<real>, i: nat, h: nat, pct: real) {
    i + h < |closes| && closes[i] > 0.0 && Times(closes[i], 1.0 + pct / 100.0) == closes[i + h]
  }

  /** Control A is the mean of the returns of all other bars of the series that have one. */
  lemma ControlAMeans(closes: seq<real>, h: nat, i: nat)
    ensures var a := UnconditionalMean(closes, h, i);
            && (a.None? <==> forall j | 0 <= j < |closes| && j != i :: ForwardReturn(closes, j, h).None?)
            && (a.Some? ==> ReturnsUpto(closes, h, i, |closes|) != [] && a.value == Mean(ReturnsUpto(closes, h, i, |closes|)))
  {
    hide ForwardReturn, Mean;
    SomeReturn(closes, h, i, |closes|);
  }

  lemma {:induction false} SomeReturn(closes: seq<real>, h: nat, i: nat, n: nat)
    requires n <= |closes|
    ensures ReturnsUpto(closes, h, i, n) == [] <==> forall j | 0 <= j < n && j != i :: ForwardReturn(closes, j, h).None?
  {
    hide ForwardReturn;
    if n > 0 {
      SomeReturn(closes, h, i, n - 1);
    }
  }

  /** Why a signal has no bar to start from, in the order the source looks. */
  lemma LostMeans(s: Signal, load: map<string, Series>)
    ensures (Locate(s, load) == Lost(Incomplete) <==> s.symbol == "" || s.day.None?)
    ensures (Locate(s, load) == Lost(NoBars) <==> s.symbol != "" && s.day.Some? && s.symbol !in load)
    ensures (Locate(s, load) == Lost(NotInStore)
             <==> s.symbol != "" && s.day.Some? && s.symbol in load && forall i: nat :: !FirstOn(load[s.symbol].dates, s.day.value, i))
    ensures Locate(s, load) != Lost(TooRecent)
  {
    if s.day.Some? && s.symbol in load && s.day.value in load[s.symbol].dates {
      IndexIsFirst(load[s.symbol].dates, s.day.value);
    }
  }

  /** Control A leaves out the signal bar's own return and nothing else: adding it back gives
      every return of the series. */
  lemma {:induction false} ControlLeavesOutSignal(closes: seq<real>, h: nat, i: nat, n: nat)
    requires i < |closes| && n <= |closes| && ForwardReturn(closes, i, h).Some?
    ensures var without, all := ReturnsUpto(closes, h, i, n), ReturnsUpto(closes, h, |closes|, n);
            && |all| == |without| + (if i < n then 1 else 0)
            && Sum(all) == Sum(without) + (if i < n then ForwardReturn(closes, i, h).value else 0.0)
  {
    hide ForwardReturn;
    if n > 0 {
      ControlLeavesOutSignal(closes, h, i, n - 1);
      var v := ForwardReturn(closes, n - 1, h);
      if v.Some? {
        SumAppend(ReturnsUpto(closes, h, i, n - 1), [v.value]);
        SumAppend(ReturnsUpto(closes, h, |closes|, n - 1), [v.value]);
        SumOfOne(v.value);
      }
    }
  }

  // ---------------------------------------------------------------- all signals

  /** The rows one signal adds under `h`: one for each time `h` is asked for. */
  function RowsOf(s: Signal, load: map<string, Series>, bench: Option<Series>, horizons: seq<nat>, h: nat): seq<Row> {
    if horizons == [] then []
    else
      var n := |horizons| - 1;
      var rows := RowsOf(s, load, bench, horizons[..n], h);
      if horizons[n] == h && RowAt(s, load, bench, h).Some? then rows + [RowAt(s, load, bench, h).value] else rows
  }

  function RowsFor(signals: seq<Signal>, load: map<string, Series>, bench: Option<Series>, horizons: seq<nat>, h: nat): seq<Row> {
    if signals == [] then []
    else
      var n := |signals| - 1;
      RowsFor(signals[..n], load, bench, horizons, h) + RowsOf(signals[n], load, bench, horizons, h)
  }

  function UnmeasuredIn(signals: seq<Signal>, load: map<string, Series>, bench: Option<Series>, horizons: seq<nat>): seq<Unmeasured> {
    if signals == [] then []
    else
      var n := |signals| - 1;
      var s := signals[n];
      var before := UnmeasuredIn(signals[..n], load, bench, horizons);
      if Measured(s, load, bench, horizons) then before
      else before + [EntryOf(s, load)]
  }

  function MeasuredSymbols(signals: seq<Signal>, load: map<string, Series>, bench: Option<Series>, horizons: seq<nat>): set<string> {
    set n | 0 <= n < |signals| && Measured(signals[n], load, bench, horizons) :: signals[n].symbol
  }

  function SymbolsIn(rows: seq<Row>): set<string> {
    set n | 0 <= n < |rows| :: rows[n].symbol
  }

  datatype Graded = Graded(rows: map<nat, seq<Row>>, unmeasured: seq<Unmeasured>, signalsMeasured: nat)

  function Extended(rows: map<nat, seq<Row>>, s: Signal, load: map<string, Series>, bench: Option<Series>, horizons: seq<nat>): map<nat, seq<Row>> {
    map h | h in rows :: rows[h] + RowsOf(s, load, bench, horizons, h)
  }

  lemma RowsOfSnoc(s: Signal, load: map<string, Series>, bench: Option<Series>, horizons: seq<nat>, k: nat, h: nat)
    requires k < |horizons|
    ensures RowsOf(s, load, bench, horizons[..k + 1], h)
         == if horizons[k] == h && RowAt(s, load, bench, h).Some?
            then RowsOf(s, load, bench, horizons[..k], h) + [RowAt(s, load, bench, h).value]
            else RowsOf(s, load, bench, horizons[..k], h)
  {
    hide RowAt;
    assert horizons[..k + 1][..k] == horizons[..k];
  }

  lemma ExtendedByNothing(rows: map<nat, seq<Row>>, s: Signal, load: map<string, Series>, bench: Option<Series>)
    ensures Extended(rows, s, load, bench, []) == rows
  {
    assert forall h | h in rows :: rows[h] + RowsOf(s, load, bench, [], h) == rows[h];
  }

  lemma ExtendedSnoc(rows: map<nat, seq<Row>>, s: Signal, load: map<string, Series>, bench: Option<Series>, horizons: seq<nat>, k: nat)
    requires k < |horizons| && horizons[k] in rows
    ensures var h, before := horizons[k], Extended(rows, s, load, bench, horizons[..k]);
            Extended(rows, s, load, bench, horizons[..k + 1])
            == if RowAt(s, load, bench, h).Some? then before[h := before[h] + [RowAt(s, load, bench, h).value]] else before
  {
    hide RowAt, RowsOf;
    var h, before, after := horizons[k], Extended(rows, s, load, bench, horizons[..k]), Extended(rows, s, load, bench, horizons[..k + 1]);
    forall j | j in rows
      ensures after[j] == if j == h && RowAt(s, load, bench, h).Some? then before[h] + [RowAt(s, load, bench, h).value] else before[j]
    {
      RowsOfSnoc(s, load, bench, horizons, k, j);
    }
  }

  /** The rows of one signal, horizon by horizon. */
  method Grade(rows: map<nat, seq<Row>>, s: Signal, series: Series, i: nat, load: map<string, Series>,
               bench: Option<Series>, horizons: seq<nat>)
    returns (after: map<nat, seq<Row>>, measuredAny: bool)
    requires Locate(s, load) == At(series, i)
    requires forall h | h in horizons :: h in rows
    ensures after == Extended(rows, s, load, bench, horizons)
    ensures measuredAny == Measured(s, load, bench, horizons)
  {
    hide UnconditionalMean, ForwardReturn, ControlB, RowsOf;
    after, measuredAny := rows, false;
    ExtendedByNothing(rows, s, load, bench);
    assert horizons[..0] == [];
    for k := 0 to |horizons|
      invariant after == Extended(rows, s, load, bench, horizons[..k])
      invariant measuredAny == exists m | 0 <= m < k :: RowAt(s, load, bench, horizons[m]).Some?
    {
      var h := horizons[k];
      ExtendedSnoc(rows, s, load, bench, horizons, k);
      var sig := ForwardReturn(series.closes, i, h);
      if sig.None? {
        continue;
      }
      measuredAny := true;
      var controlA := UnconditionalMean(series.closes, h, i);
      var controlB := ControlB(bench, s.day, h);
      after := after[h := after[h] + [Row(s.symbol, sig.value, controlA, controlB)]];
    }
    assert horizons[..|horizons|] == horizons;
  }

  method Evaluate(signals: seq<Signal>, load: map<string, Series>, horizons: seq<nat>, benchmark: Option<string>)
    returns (g: Graded)
    ensures var bench := if benchmark.Some? && benchmark.value in load then Some(load[benchmark.value]) else None;
            && g.rows.Keys == (set h | h in horizons)
            && (forall h | h in g.rows :: g.rows[h] == RowsFor(signals, load, bench, horizons, h))
            && g.unmeasured == UnmeasuredIn(signals, load, bench, horizons)
            && g.signalsMeasured == |MeasuredSymbols(signals, load, bench, horizons)|
  {
    hide RowsOf, RowAt, Measured;
    var bench := Bench(load, benchmark);
    var rows: map<nat, seq<Row>> := map h | h in horizons :: [];
    var unmeasured: seq<Unmeasured> := [];
    for n := 0 to |signals|
      invariant rows.Keys == set h | h in horizons
      invariant forall h | h in rows :: rows[h] == RowsFor(signals[..n], load, bench, horizons, h)
      invariant unmeasured == UnmeasuredIn(signals[..n], load, bench, horizons)
    {
      var s := signals[n];
      assert signals[..n + 1][..n] == signals[..n];
      match Locate(s, load) {
        case Lost(why) =>
          LostIsUnmeasured(s, load, bench, horizons);
          unmeasured := unmeasured + [Unmeasured(s.symbol, s.day, why)];
        case At(series, i) =>
          var measuredAny;
          rows, measuredAny := Grade(rows, s, series, i, load, bench, horizons);
          if !measuredAny {
            unmeasured := unmeasured + [Unmeasured(s.symbol, s.day, TooRecent)];
          }
      }
    }
    assert signals[..|signals|] == signals;
    var measured := set h, x | h in rows && x in SymbolsIn(rows[h]) :: x;
    forall x
      ensures x in measured <==> x in MeasuredSymbols(signals, load, bench, horizons)
    {
      MeasuredInRows(signals, load, bench, horizons, x);
    }
    assert measured == MeasuredSymbols(signals, load, bench, horizons);
    g := Graded(rows, unmeasured, |measured|);
  }

  function Bench(load: map<string, Series>, benchmark: Option<string>): Option<Series> {
    if benchmark.Some? && benchmark.value in load then Some(load[benchmark.value]) else None
  }

  lemma {:induction false} LostIsUnmeasured(s: Signal, load: map<string, Series>, bench: Option<Series>, horizons: seq<nat>)
    requires Locate(s, load).Lost?
    ensures !Measured(s, load, bench, horizons)
    ensures forall h :: RowsOf(s, load, bench, horizons, h) == []
  {
    if horizons != [] {
      LostIsUnmeasured(s, load, bench, horizons[..|horizons| - 1]);
    }
  }

  lemma {:induction false} RowsOfSymbol(s: Signal, load: map<string, Series>, bench: Option<Series>, horizons: seq<nat>, h: nat)
    ensures forall r | r in RowsOf(s, load, bench, horizons, h) :: r.symbol == s.symbol
    ensures RowsOf(s, load, bench, horizons, h) != [] <==> h in horizons && RowAt(s, load, bench, h).Some?
  {
    if horizons != [] {
      RowsOfSymbol(s, load, bench, horizons[..|horizons| - 1], h);
    }
  }

  /** Some signal of symbol `x` has a row at `h`. */
  ghost predicate Contributes(signals: seq<Signal>, load: map<string, Series>, bench: Option<Series>, h: nat, x: string) {
    exists n :: 0 <= n < |signals| && signals[n].symbol == x && RowAt(signals[n], load, bench, h).Some?
  }

  lemma ContributesSnoc(init: seq<Signal>, s: Signal, load: map<string, Series>, bench: Option<Series>, h: nat, x: string)
    ensures Contributes(init + [s], load, bench, h, x)
       <==> Contributes(init, load, bench, h, x) || (s.symbol == x && RowAt(s, load, bench, h).Some?)
  {
    hide RowAt;
    var t := init + [s];
    assert t[|init|] == s;
    if Contributes(init, load, bench, h, x) {
      var n :| 0 <= n < |init| && init[n].symbol == x && RowAt(init[n], load, bench, h).Some?;
      assert t[n] == init[n];
    }
  }

  lemma {:induction false} RowsForSymbol(signals: seq<Signal>, load: map<string, Series>, bench: Option<Series>, horizons: seq<nat>, h: nat, x: string)
    ensures x in SymbolsIn(RowsFor(signals, load, bench, horizons, h))
       <==> h in horizons && Contributes(signals, load, bench, h, x)
  {
    hide RowAt, SymbolsIn, Contributes;
    if signals == [] {
      NoSymbols(load, bench, h, x);
    } else {
      var n := |signals| - 1;
      var init, last := RowsFor(signals[..n], load, bench, horizons, h), RowsOf(signals[n], load, bench, horizons, h);
      assert signals == signals[..n] + [signals[n]];
      RowsForSymbol(signals[..n], load, bench, horizons, h, x);
      ContributesSnoc(signals[..n], signals[n], load, bench, h, x);
      RowsOfSymbol(signals[n], load, bench, horizons, h);
      SymbolsConcat(init, last);
      SymbolsOne(last, signals[n].symbol, x);
    }
  }

  lemma NoSymbols(load: map<string, Series>, bench: Option<Series>, h: nat, x: string)
    ensures x !in SymbolsIn([]) && !Contributes([], load, bench, h, x)
  {
  }

  lemma SymbolsOne(rows: seq<Row>, symbol: string, x: string)
    requires forall r | r in rows :: r.symbol == symbol
    ensures x in SymbolsIn(rows) <==> rows != [] && x == symbol
  {
    if rows != [] {
      assert rows[0] in rows;
    }
  }

  lemma SymbolsConcat(a: seq<Row>, b: seq<Row>)
    ensures SymbolsIn(a + b) == SymbolsIn(a) + SymbolsIn(b)
  {
    var t := a + b;
    assert forall n | 0 <= n < |a| :: t[n] == a[n];
    assert forall n | 0 <= n < |b| :: t[|a| + n] == b[n];
    forall x | x in SymbolsIn(a) + SymbolsIn(b)
      ensures x in SymbolsIn(t)
    {
      if x in SymbolsIn(a) {
        var n :| 0 <= n < |a| && a[n].symbol == x;
        assert t[n].symbol == x;
      } else {
        var n :| 0 <= n < |b| && b[n].symbol == x;
        assert t[|a| + n].symbol == x;
      }
    }
  }

  lemma MeasuredInRows(signals: seq<Signal>, load: map<string, Series>, bench: Option<Series>, horizons: seq<nat>, x: string)
    ensures (exists h :: h in horizons && x in SymbolsIn(RowsFor(signals, load, bench, horizons, h)))
       <==> x in MeasuredSymbols(signals, load, bench, horizons)
  {
    hide RowAt, SymbolsIn;
    forall h: nat
      ensures x in SymbolsIn(RowsFor(signals, load, bench, horizons, h))
         <==> h in horizons && Contributes(signals, load, bench, h, x)
    {
      RowsForSymbol(signals, load, bench, horizons, h, x);
    }
    if x in MeasuredSymbols(signals, load, bench, horizons) {
      var n :| 0 <= n < |signals| && Measured(signals[n], load, bench, horizons) && signals[n].symbol == x;
      var k :| 0 <= k < |horizons| && RowAt(signals[n], load, bench, horizons[k]).Some?;
      assert horizons[k] in horizons && Contributes(signals, load, bench, horizons[k], x);
    }
  }

  // ---------------------------------------------------------------- every signal accounted for

  function MeasuredCount(signals: seq<Signal>, load: map<string, Series>, bench: Option<Series>, horizons: seq<nat>): nat {
    if signals == [] then 0
    else
      var n := |signals| - 1;
      MeasuredCount(signals[..n], load, bench, horizons) + (if Measured(signals[n], load, bench, horizons) then 1 else 0)
  }

  lemma {:induction false} CountsAddUp(signals: seq<Signal>, load: map<string, Series>, bench: Option<Series>, horizons: seq<nat>)
    ensures MeasuredCount(signals, load, bench, horizons) + |UnmeasuredIn(signals, load, bench, horizons)| == |signals|
  {
    if signals != [] {
      CountsAddUp(signals[..|signals| - 1], load, bench, horizons);
    }
  }

  /** The list holds an unmeasured signal's entry as often as the signal occurs, and nothing
      for a measured one; there are no other entries. */
  lemma {:induction false} EverySignalAccounted(
    signals: seq<Signal>, load: map<string, Series>, bench: Option<Series>, horizons: seq<nat>, s: Signal)
    ensures multiset(UnmeasuredIn(signals, load, bench, horizons))[EntryOf(s, load)]
         == if Measured(s, load, bench, horizons) then 0 else multiset(signals)[s]
    ensures forall u | u in UnmeasuredIn(signals, load, bench, horizons) :: u == EntryOf(Signal(u.symbol, u.day), load)
  {
    hide Measured, WhyNot;
    if signals != [] {
      var n := |signals| - 1;
      EverySignalAccounted(signals[..n], load, bench, horizons, s);
      assert signals == signals[..n] + [signals[n]];
    }
  }

  /** The list is in the order of the signals. */
  lemma {:induction false} UnmeasuredInOrder(a: seq<Signal>, b: seq<Signal>, load: map<string, Series>, bench: Option<Series>, horizons: seq<nat>)
    ensures UnmeasuredIn(a + b, load, bench, horizons)
         == UnmeasuredIn(a, load, bench, horizons) + UnmeasuredIn(b, load, bench, horizons)
  {
    hide Measured, WhyNot;
    if b == [] {
      assert a + b == a;
    } else {
      var n := |b| - 1;
      UnmeasuredInOrder(a, b[..n], load, bench, horizons);
      assert (a + b)[..|a + b| - 1] == a + b[..n];
    }
  }

  lemma {:induction false} RowsForSplits(
    a: seq<Signal>, b: seq<Signal>, load: map<string, Series>, bench: Option<Series>, horizons: seq<nat>, h: nat)
    ensures RowsFor(a + b, load, bench, horizons, h)
         == RowsFor(a, load, bench, horizons, h) + RowsFor(b, load, bench, horizons, h)
  {
    hide RowsOf;
    if b == [] {
      assert a + b == a;
    } else {
      var n := |b| - 1;
      RowsForSplits(a, b[..n], load, bench, horizons, h);
      assert (a + b)[..|a + b| - 1] == a + b[..n];
    }
  }

  lemma RowsForOne(s: Signal, load: map<string, Series>, bench: Option<Series>, horizons: seq<nat>, h: nat)
    ensures RowsFor([s], load, bench, horizons, h) == RowsOf(s, load, bench, horizons, h)
  {
    assert [s][..0] == [];
  }

  /** Whatever the other signals are, the n-th one's rows are a stretch of the rows at every
      horizon. It has a row at some horizon exactly when the list does not name it; if it has
      none, the rows are those of the other signals. */
  lemma SignalHasRowOrReason(signals: seq<Signal>, n: nat, load: map<string, Series>, bench: Option<Series>, horizons: seq<nat>)
    requires n < |signals|
    ensures forall h: nat ::
              RowsFor(signals, load, bench, horizons, h)
              == RowsFor(signals[..n], load, bench, horizons, h) + RowsOf(signals[n], load, bench, horizons, h)
                 + RowsFor(signals[n + 1..], load, bench, horizons, h)
    ensures (exists h :: h in horizons && RowsOf(signals[n], load, bench, horizons, h) != [])
       <==> EntryOf(signals[n], load) !in UnmeasuredIn(signals, load, bench, horizons)
    ensures EntryOf(signals[n], load) in UnmeasuredIn(signals, load, bench, horizons)
            ==> forall h: nat :: RowsOf(signals[n], load, bench, horizons, h) == []
  {
    hide RowsOf, RowsFor, RowAt, WhyNot, UnmeasuredIn;
    var s := signals[n];
    forall h: nat
      ensures RowsOf(s, load, bench, horizons, h) != [] <==> h in horizons && RowAt(s, load, bench, h).Some?
      ensures RowsFor(signals, load, bench, horizons, h)
           == RowsFor(signals[..n], load, bench, horizons, h) + RowsOf(s, load, bench, horizons, h)
              + RowsFor(signals[n + 1..], load, bench, horizons, h)
    {
      RowsOfSymbol(s, load, bench, horizons, h);
      RowsForOne(s, load, bench, horizons, h);
      RowsForSplits(signals[..n], [s], load, bench, horizons, h);
      RowsForSplits(signals[..n] + [s], signals[n + 1..], load, bench, horizons, h);
      assert signals == signals[..n] + [s] + signals[n + 1..];
    }
    EverySignalAccounted(signals, load, bench, horizons, s);
    assert s in multiset(signals);
    if Measured(s, load, bench, horizons) {
      var k :| 0 <= k < |horizons| && RowAt(s, load, bench, horizons[k]).Some?;
      assert horizons[k] in horizons && RowsOf(s, load, bench, horizons, horizons[k]) != [];
    }
  }

  ghost predicate DistinctHorizons(horizons: seq<nat>) {
    forall j, k | 0 <= j < k < |horizons| :: horizons[j] != horizons[k]
  }

  lemma {:induction false} RowsOfOnce(s: Signal, load: map<string, Series>, bench: Option<Series>, horizons: seq<nat>, h: nat)
    requires DistinctHorizons(horizons)
    ensures RowsOf(s, load, bench, horizons, h)
         == if h in horizons && RowAt(s, load, bench, h).Some? then [RowAt(s, load, bench, h).value] else []
  {
    hide RowAt;
    if horizons != [] {
      var init, last := horizons[..|horizons| - 1], horizons[|horizons| - 1];
      RowsOfOnce(s, load, bench, init, h);
      assert horizons == init + [last];
    }
  }

  lemma ShorterHorizonMeasures(s: Signal, load: map<string, Series>, bench: Option<Series>, short: nat, long: nat)
    requires short <= long && RowAt(s, load, bench, long).Some?
    ensures RowAt(s, load, bench, short).Some?
  {
  }

  /** Asking for a longer horizon never measures more signals. */
  lemma {:induction false} CountFallsWithHorizon(
    signals: seq<Signal>, load: map<string, Series>, bench: Option<Series>, horizons: seq<nat>, short: nat, long: nat)
    requires DistinctHorizons(horizons) && short in horizons && long in horizons && short <= long
    ensures |RowsFor(signals, load, bench, horizons, long)| <= |RowsFor(signals, load, bench, horizons, short)| <= |signals|
  {
    hide RowAt;
    if signals != [] {
      var s := signals[|signals| - 1];
      CountFallsWithHorizon(signals[..|signals| - 1], load, bench, horizons, short, long);
      RowsOfOnce(s, load, bench, horizons, short);
      RowsOfOnce(s, load, bench, horizons, long);
      if RowAt(s, load, bench, long).Some? {
        ShorterHorizonMeasures(s, load, bench, short, long);
      }
    }
  }

  /** No two measured signals share a symbol. */
  ghost predicate MeasuredOnce(signals: seq<Signal>, load: map<string, Series>, bench: Option<Series>, horizons: seq<nat>) {
    forall j, k | 0 <= j < k < |signals| && Measured(signals[j], load, bench, horizons)
                  && Measured(signals[k], load, bench, horizons) :: signals[j].symbol != signals[k].symbol
  }

  lemma MeasuredSymbolsSnoc(init: seq<Signal>, s: Signal, load: map<string, Series>, bench: Option<Series>, horizons: seq<nat>)
    ensures MeasuredSymbols(init + [s], load, bench, horizons)
         == MeasuredSymbols(init, load, bench, horizons) + (if Measured(s, load, bench, horizons) then {s.symbol} else {})
  {
    hide Measured;
    var t := init + [s];
    assert t[|init|] == s;
    forall x | x in MeasuredSymbols(init, load, bench, horizons)
      ensures x in MeasuredSymbols(t, load, bench, horizons)
    {
      var n :| 0 <= n < |init| && Measured(init[n], load, bench, horizons) && init[n].symbol == x;
      assert t[n] == init[n];
    }
    assert Measured(s, load, bench, horizons) ==> t[|init|].symbol in MeasuredSymbols(t, load, bench, horizons);
  }

  lemma MeasuredOnceSnoc(init: seq<Signal>, s: Signal, load: map<string, Series>, bench: Option<Series>, horizons: seq<nat>)
    ensures MeasuredOnce(init + [s], load, bench, horizons)
       <==> MeasuredOnce(init, load, bench, horizons)
            && (Measured(s, load, bench, horizons) ==> s.symbol !in MeasuredSymbols(init, load, bench, horizons))
  {
    hide Measured;
    var t := init + [s];
    assert t[|init|] == s;
    assert forall j | 0 <= j < |init| :: t[j] == init[j];
    if Measured(s, load, bench, horizons) && s.symbol in MeasuredSymbols(init, load, bench, horizons) {
      var j :| 0 <= j < |init| && Measured(init[j], load, bench, horizons) && init[j].symbol == s.symbol;
      assert t[j] == init[j];
    }
  }

  /** `signals_measured` counts symbols, so it is the number of measured signals exactly when
      no symbol is measured twice; otherwise it is less. */
  lemma {:induction false} SymbolsCountSignalsIff(signals: seq<Signal>, load: map<string, Series>, bench: Option<Series>, horizons: seq<nat>)
    ensures |MeasuredSymbols(signals, load, bench, horizons)| <= MeasuredCount(signals, load, bench, horizons)
    ensures |MeasuredSymbols(signals, load, bench, horizons)| == MeasuredCount(signals, load, bench, horizons)
       <==> MeasuredOnce(signals, load, bench, horizons)
  {
    if signals == [] {
      assert MeasuredSymbols(signals, load, bench, horizons) == {};
    } else {
      var n := |signals| - 1;
      var init, s := signals[..n], signals[n];
      assert signals == init + [s];
      SymbolsCountSignalsIff(init, load, bench, horizons);
      SymbolsCountStep(init, s, load, bench, horizons);
    }
  }

  lemma SymbolsCountStep(init: seq<Signal>, s: Signal, load: map<string, Series>, bench: Option<Series>, horizons: seq<nat>)
    requires var count, symbols := MeasuredCount(init, load, bench, horizons), |MeasuredSymbols(init, load, bench, horizons)|;
             symbols <= count && (symbols == count <==> MeasuredOnce(init, load, bench, horizons))
    ensures var count, symbols :=
              MeasuredCount(init + [s], load, bench, horizons), |MeasuredSymbols(init + [s], load, bench, horizons)|;
            symbols <= count && (symbols == count <==> MeasuredOnce(init + [s], load, bench, horizons))
  {
    hide Measured, MeasuredOnce, MeasuredSymbols;
    assert (init + [s])[..|init|] == init;
    MeasuredSymbolsSnoc(init, s, load, bench, horizons);
    MeasuredOnceSnoc(init, s, load, bench, horizons);
    var before := MeasuredSymbols(init, load, bench, horizons);
    if s.symbol in before {
      assert before + {s.symbol} == before;
    }
  }

  /** The report's totals: symbols measured plus signals listed is the number of signals
      exactly when no symbol is measured twice. */
  lemma TotalsAddUpIff(signals: seq<Signal>, load: map<string, Series>, bench: Option<Series>, horizons: seq<nat>)
    ensures |MeasuredSymbols(signals, load, bench, horizons)| + |UnmeasuredIn(signals, load, bench, horizons)| <= |signals|
    ensures |MeasuredSymbols(signals, load, bench, horizons)| + |UnmeasuredIn(signals, load, bench, horizons)| == |signals|
       <==> MeasuredOnce(signals, load, bench, horizons)
  {
    CountsAddUp(signals, load, bench, horizons);
    SymbolsCountSignalsIff(signals, load, bench, horizons);
  }
}
