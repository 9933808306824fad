/** Ranking a basket by one metric: momentum ranks with z-scores, and valuation quartiles. */
module CrossSection {
  import opened Lists
  import opened Reals
  import Ordering

  /** One entry of the basket; symbols are distinct, the value may be missing. */
  datatype Item = Item(symbol: string, value: Option<real>)

  datatype Scored = Scored(symbol: string, value: real)

  ghost predicate DistinctItems(items: seq<Item>) {
    forall j, k | 0 <= j < k < |items| :: items[j].symbol != items[k].symbol
  }

  ghost predicate Distinct(s: seq<Scored>) {
    forall j, k | 0 <= j < k < |s| :: s[j].symbol != s[k].symbol
  }

  function Valid(items: seq<Item>): seq<Scored> {
    if items == [] then []
    else if items[0].value.Some? then [Scored(items[0].symbol, items[0].value.value)] + Valid(items[1..])
    else Valid(items[1..])
  }

  predicate Higher(a: Scored, b: Scored) {
    a.value >= b.value
  }

  predicate Lower(a: Scored, b: Scored) {
    a.value <= b.value
  }

  /** The valid entries, best first; equal values keep the basket's order. */
  function Ranked(items: seq<Item>, higherFirst: bool): seq<Scored> {
    if higherFirst then Ordering.Sort(Higher, Valid(items)) else Ordering.Sort(Lower, Valid(items))
  }

  /** The 1-based position of a symbol, or 0. */
  function RankIn(ranked: seq<Scored>, symbol: string): (r: nat)
    ensures r <= |ranked|
    ensures r > 0 ==> ranked[r - 1].symbol == symbol
    ensures r == 0 ==> forall k | 0 <= k < |ranked| :: ranked[k].symbol != symbol
  {
    if ranked == [] then 0
    else if ranked[0].symbol == symbol then 1
    else
      var r := RankIn(ranked[1..], symbol);
      if r == 0 then 0 else r + 1
  }

  lemma {:induction false} ValidMember(items: seq<Item>, x: Scored)
    ensures x in Valid(items) <==> Item(x.symbol, Some(x.value)) in items
  {
    if items != [] {
      ValidMember(items[1..], x);
      assert items == [items[0]] + items[1..];
    }
  }

  lemma {:induction false} ValidDistinct(items: seq<Item>)
    requires DistinctItems(items)
    ensures Distinct(Valid(items))
  {
    if items != [] {
      ValidDistinct(items[1..]);
      var rest := Valid(items[1..]);
      forall k | 0 <= k < |rest|
        ensures rest[k].symbol != items[0].symbol
      {
        ValidMember(items[1..], rest[k]);
        assert rest[k] in rest;
      }
    }
  }

  lemma RankedFacts(items: seq<Item>, higherFirst: bool)
    requires DistinctItems(items)
    ensures var r := Ranked(items, higherFirst);
            && Distinct(r) && |r| == |Valid(items)|
            && (forall x :: x in r <==> Item(x.symbol, Some(x.value)) in items)
            && (forall j, k | 0 <= j <= k < |r| :: if higherFirst then r[j].value >= r[k].value else r[j].value <= r[k].value)
  {
    ValidDistinct(items);
    var v := Valid(items);
    forall x
      ensures x in v <==> Item(x.symbol, Some(x.value)) in items
    {
      ValidMember(items, x);
    }
    if higherFirst {
      assert Ordering.TotalPreorder(Higher);
      Ordering.SortSorted(Higher, v);
      Ordering.SortContents(Higher, v);
    } else {
      assert Ordering.TotalPreorder(Lower);
      Ordering.SortSorted(Lower, v);
      Ordering.SortContents(Lower, v);
    }
    Ordering.PermutedDistinct((x: Scored) => x.symbol, v, Ranked(items, higherFirst));
  }

  lemma RankAt(ranked: seq<Scored>, k: nat)
    requires Distinct(ranked) && k < |ranked|
    ensures RankIn(ranked, ranked[k].symbol) == k + 1
  {
  }

  ghost predicate IsTaken(items: seq<Item>, ranked: seq<Scored>, rank: nat) {
    exists i :: 0 <= i < |items| && items[i].value.Some? && RankIn(ranked, items[i].symbol) == rank
  }

  /** Ranks are a bijection from the symbols that have a value onto 1..n, and a strictly better
      value has a strictly smaller rank. */
  lemma RanksAreABijection(items: seq<Item>, higherFirst: bool)
    requires DistinctItems(items)
    ensures var r, n := Ranked(items, higherFirst), |Valid(items)|;
            && (forall i | 0 <= i < |items| ::
                  if items[i].value.Some? then 1 <= RankIn(r, items[i].symbol) <= n else RankIn(r, items[i].symbol) == 0)
            && (forall i, j | 0 <= i < j < |items| && items[i].value.Some? && items[j].value.Some? ::
                  RankIn(r, items[i].symbol) != RankIn(r, items[j].symbol))
            && (forall rank | 1 <= rank <= n :: IsTaken(items, r, rank))
            && (forall i, j | 0 <= i < |items| && 0 <= j < |items| && items[i].value.Some? && items[j].value.Some?
                              && (if higherFirst then items[i].value.value > items[j].value.value
                                  else items[i].value.value < items[j].value.value) ::
                  RankIn(r, items[i].symbol) < RankIn(r, items[j].symbol))
  {
    hide Ranked, Valid;
    RankedFacts(items, higherFirst);
    var r := Ranked(items, higherFirst);
    forall i | 0 <= i < |items|
      ensures if items[i].value.Some?
              then RankIn(r, items[i].symbol) > 0
                   && r[RankIn(r, items[i].symbol) - 1] == Scored(items[i].symbol, items[i].value.value)
              else RankIn(r, items[i].symbol) == 0
    {
      RankOfItem(items, r, i);
    }
    forall rank | 1 <= rank <= |r|
      ensures IsTaken(items, r, rank)
    {
      RankAt(r, rank - 1);
      assert r[rank - 1] in r;
      var i :| 0 <= i < |items| && items[i] == Item(r[rank - 1].symbol, Some(r[rank - 1].value));
      assert RankIn(r, items[i].symbol) == rank;
    }
  }

  lemma {:induction false} ValidPrecedes(items: seq<Item>, i: nat, j: nat)
    requires i < j < |items| && items[i].value.Some? && items[j].value.Some?
    ensures Ordering.Precedes(Valid(items), Scored(items[i].symbol, items[i].value.value), Scored(items[j].symbol, items[j].value.value))
  {
    var v, rest := Valid(items), Valid(items[1..]);
    var a, b := Scored(items[i].symbol, items[i].value.value), Scored(items[j].symbol, items[j].value.value);
    if i > 0 {
      ValidPrecedes(items[1..], i - 1, j - 1);
      if items[0].value.Some? {
        assert v[1..] == rest;
        Ordering.PrecedesStep(v, a, b);
      }
    } else {
      ValidMember(items[1..], b);
      assert items[j] == items[1..][j - 1];
      assert v[1..] == rest;
      Ordering.PrecedesStep(v, a, b);
    }
  }

  lemma RankOfEntry(items: seq<Item>, higherFirst: bool, i: nat)
    requires DistinctItems(items) && i < |items| && items[i].value.Some?
    ensures var r, rank := Ranked(items, higherFirst), RankIn(Ranked(items, higherFirst), items[i].symbol);
            0 < rank <= |r| && r[rank - 1] == Scored(items[i].symbol, items[i].value.value)
  {
    hide Ranked, Valid;
    RankedFacts(items, higherFirst);
    RankOfItem(items, Ranked(items, higherFirst), i);
  }

  lemma ByValueIsTotal()
    ensures Ordering.TotalPreorder(Higher) && Ordering.TotalPreorder(Lower)
  {
  }

  /** Equal values rank in the basket's order: together with the order of the values this fixes
      every rank. */
  lemma EqualValuesKeepOrder(items: seq<Item>, higherFirst: bool, i: nat, j: nat)
    requires DistinctItems(items) && i < j < |items| && items[i].value.Some? && items[i].value == items[j].value
    ensures RankIn(Ranked(items, higherFirst), items[i].symbol) < RankIn(Ranked(items, higherFirst), items[j].symbol)
  {
    var a, b := Scored(items[i].symbol, items[i].value.value), Scored(items[j].symbol, items[j].value.value);
    ValidPrecedes(items, i, j);
    ByValueIsTotal();
    Ordering.TieOrderKept(Higher, Valid(items), a, b);
    Ordering.TieOrderKept(Lower, Valid(items), a, b);
    RankOfEntry(items, higherFirst, i);
    RankOfEntry(items, higherFirst, j);
    hide Valid;
    RankedFacts(items, higherFirst);
    var r := Ranked(items, higherFirst);
    var p, q :| 0 <= p < q < |r| && r[p] == a && r[q] == b;
    hide Ranked;
    RankAt(r, p);
    RankAt(r, q);
  }

  lemma RankOfItem(items: seq<Item>, r: seq<Scored>, i: nat)
    requires DistinctItems(items) && Distinct(r) && i < |items|
    requires forall x :: x in r <==> Item(x.symbol, Some(x.value)) in items
    ensures var rank := RankIn(r, items[i].symbol);
            if items[i].value.Some? then rank > 0 && r[rank - 1] == Scored(items[i].symbol, items[i].value.value)
            else rank == 0
  {
    var rank := RankIn(r, items[i].symbol);
    if items[i].value.Some? {
      assert Scored(items[i].symbol, items[i].value.value) in r;
    }
    if rank > 0 {
      assert r[rank - 1] in r;
      var j :| 0 <= j < |items| && items[j] == Item(r[rank - 1].symbol, Some(r[rank - 1].value));
      assert i == j;
    }
  }

  // ---------------------------------------------------------------- quartiles

  datatype Flag = Cheap | Fair | Expensive | NotAvailable

  function Quarter(n: nat): nat {
    Max(1, n / 4)
  }

  function FlagAt(rank: nat, n: nat): Flag {
    if rank == 0 then NotAvailable
    else if rank <= Quarter(n) then Cheap
    else if rank >= n - Quarter(n) + 1 then Expensive
    else Fair
  }

  /** A dictionary with one entry per item. */
  function Table<V>(items: seq<Item>, f: Item -> V): map<string, V> {
    if items == [] then map[]
    else
      var n := |items| - 1;
      Table(items[..n], f)[items[n].symbol := f(items[n])]
  }

  lemma {:induction false} TableAt<V>(items: seq<Item>, f: Item -> V, i: nat)
    requires DistinctItems(items) && i < |items|
    ensures items[i].symbol in Table(items, f) && Table(items, f)[items[i].symbol] == f(items[i])
  {
    var n := |items| - 1;
    if i < n {
      TableAt(items[..n], f, i);
    }
  }

  lemma {:induction false} TableKeys<V>(items: seq<Item>, f: Item -> V, symbol: string)
    ensures symbol in Table(items, f) <==> exists i :: 0 <= i < |items| && items[i].symbol == symbol
  {
    if items != [] {
      var n := |items| - 1;
      var init := items[..n];
      TableKeys(init, f, symbol);
      if symbol in Table(init, f) {
        var i :| 0 <= i < |init| && init[i].symbol == symbol;
        assert items[i].symbol == symbol;
      }
      if symbol !in Table(init, f) {
        assert forall i | 0 <= i < n :: items[i] == init[i];
      }
    }
  }

  function FlagOf(items: seq<Item>, higherIsCheap: bool, item: Item): Flag {
    FlagAt(RankIn(Ranked(items, higherIsCheap), item.symbol), |Valid(items)|)
  }

  /** The cheapest quarter is flagged cheap and the dearest expensive; `higherIsCheap` says
      which end of the metric is cheap. */
  method QuartileBucket(items: seq<Item>, higherIsCheap: bool) returns (out: map<string, Flag>)
    requires DistinctItems(items)
    ensures forall symbol :: symbol in out <==> exists i :: 0 <= i < |items| && items[i].symbol == symbol
    ensures forall i | 0 <= i < |items| ::
              items[i].symbol in out && out[items[i].symbol] == FlagOf(items, higherIsCheap, items[i])
  {
    hide Ranked, Valid, Table, FlagOf;
    out := map[];
    var ranked := Ranked(items, higherIsCheap);
    RankedFacts(items, higherIsCheap);
    var n := |ranked|;
    ghost var f := (x: Item) => FlagOf(items, higherIsCheap, x);
    EmptyTable(f);
    for i := 0 to |items|
      invariant out == Table(items[..i], f)
    {
      var r := RankIn(ranked, items[i].symbol);
      var flag :=
        if r == 0 then NotAvailable
        else if r <= Max(1, n / 4) then Cheap
        else if r >= n - Max(1, n / 4) + 1 then Expensive
        else Fair;
      FlagOfIs(items, higherIsCheap, items[i], r, n);
      TableSnoc(items, f, i);
      out := out[items[i].symbol := flag];
    }
    assert items[..|items|] == items;
    forall i | 0 <= i < |items|
      ensures items[i].symbol in out && out[items[i].symbol] == FlagOf(items, higherIsCheap, items[i])
    {
      TableAt(items, f, i);
    }
    forall symbol
      ensures symbol in out <==> exists i :: 0 <= i < |items| && items[i].symbol == symbol
    {
      TableKeys(items, f, symbol);
    }
  }

  lemma FlagOfIs(items: seq<Item>, higherIsCheap: bool, item: Item, rank: nat, n: nat)
    requires rank == RankIn(Ranked(items, higherIsCheap), item.symbol) && n == |Valid(items)|
    ensures FlagOf(items, higherIsCheap, item) == FlagAt(rank, n)
  {
  }

  lemma EmptyTable<V>(f: Item -> V)
    ensures Table([], f) == map[]
  {
  }

  lemma TableSnoc<V>(items: seq<Item>, f: Item -> V, i: nat)
    requires i < |items|
    ensures Table(items[..i + 1], f) == Table(items[..i], f)[items[i].symbol := f(items[i])]
  {
    assert items[..i + 1][..i] == items[..i];
  }

  ghost function Flagged(items: seq<Item>, higherIsCheap: bool, flag: Flag): set<string> {
    set i | 0 <= i < |items|
            && FlagOf(items, higherIsCheap, items[i]) == flag :: items[i].symbol
  }

  function SymbolsOf(s: seq<Scored>): set<string> {
    set k | 0 <= k < |s| :: s[k].symbol
  }

  lemma SymbolsSnoc(s: seq<Scored>, x: Scored)
    ensures SymbolsOf(s + [x]) == SymbolsOf(s) + {x.symbol}
  {
    var t := s + [x];
    assert t[|s|] == x;
    forall y | y in SymbolsOf(s)
      ensures y in SymbolsOf(t)
    {
      var k :| 0 <= k < |s| && s[k].symbol == y;
      assert t[k].symbol == y;
    }
  }

  lemma {:induction false} DistinctCount(s: seq<Scored>)
    requires Distinct(s)
    ensures |SymbolsOf(s)| == |s|
  {
    if s == [] {
      assert SymbolsOf(s) == {};
    } else {
      var n := |s| - 1;
      assert s == s[..n] + [s[n]];
      DistinctCount(s[..n]);
      SymbolsSnoc(s[..n], s[n]);
      assert forall k | 0 <= k < n :: s[..n][k].symbol != s[n].symbol;
    }
  }

  /** The symbols with ranks from `lo + 1` to `hi`. */
  ghost function Between(items: seq<Item>, r: seq<Scored>, lo: nat, hi: nat): set<string> {
    set i | 0 <= i < |items| && lo < RankIn(r, items[i].symbol) <= hi :: items[i].symbol
  }

  lemma BetweenHasSlice(items: seq<Item>, r: seq<Scored>, lo: nat, hi: nat, k: nat)
    requires Distinct(r) && lo <= k < hi <= |r|
    requires forall y :: y in r <==> Item(y.symbol, Some(y.value)) in items
    ensures r[k].symbol in Between(items, r, lo, hi)
  {
    RankAt(r, k);
    assert r[k] in r;
    var i :| 0 <= i < |items| && items[i] == Item(r[k].symbol, Some(r[k].value));
    assert lo < RankIn(r, items[i].symbol) <= hi;
  }

  lemma SliceHasBetween(items: seq<Item>, r: seq<Scored>, lo: nat, hi: nat, x: string)
    requires lo <= hi <= |r| && x in Between(items, r, lo, hi)
    ensures x in SymbolsOf(r[lo..hi])
  {
    var rank := RankIn(r, x);
    assert r[lo..hi][rank - 1 - lo] == r[rank - 1];
  }

  lemma SliceIndex(r: seq<Scored>, lo: nat, hi: nat, x: string) returns (k: nat)
    requires lo <= hi <= |r| && x in SymbolsOf(r[lo..hi])
    ensures lo <= k < hi && r[k].symbol == x
  {
    var n :| 0 <= n < hi - lo && r[lo..hi][n].symbol == x;
    k := lo + n;
  }

  lemma RankRange(items: seq<Item>, r: seq<Scored>, lo: nat, hi: nat)
    requires Distinct(r) && lo <= hi <= |r|
    requires forall y :: y in r <==> Item(y.symbol, Some(y.value)) in items
    ensures Between(items, r, lo, hi) == SymbolsOf(r[lo..hi]) && |Between(items, r, lo, hi)| == hi - lo
  {
    hide Between, SymbolsOf;
    DistinctCount(r[lo..hi]);
    forall x
      ensures x in SymbolsOf(r[lo..hi]) <==> x in Between(items, r, lo, hi)
    {
      if x in Between(items, r, lo, hi) {
        SliceHasBetween(items, r, lo, hi, x);
      }
      if x in SymbolsOf(r[lo..hi]) {
        var k := SliceIndex(r, lo, hi, x);
        BetweenHasSlice(items, r, lo, hi, k);
      }
    }
  }

  lemma FlaggedIs(items: seq<Item>, higherIsCheap: bool, flag: Flag, lo: nat, hi: nat)
    requires |Ranked(items, higherIsCheap)| == |Valid(items)|
    requires forall rank: nat | rank <= |Valid(items)| :: FlagAt(rank, |Valid(items)|) == flag <==> lo < rank <= hi
    ensures Flagged(items, higherIsCheap, flag) == Between(items, Ranked(items, higherIsCheap), lo, hi)
  {
    hide Ranked, Valid, FlagAt;
  }

  lemma FlagRanges(n: nat)
    requires n >= 2
    ensures var q := Quarter(n);
            && 1 <= q <= n - q
            && (forall rank: nat | rank <= n :: FlagAt(rank, n) == Cheap <==> 0 < rank <= q)
            && (forall rank: nat | rank <= n :: FlagAt(rank, n) == Fair <==> q < rank <= n - q)
            && (forall rank: nat | rank <= n :: FlagAt(rank, n) == Expensive <==> n - q < rank <= n)
  {
  }

  /** With at least two values: exactly a quarter (at least one) is flagged cheap and as many
      expensive, and the rest are fair. */
  lemma QuartilesSplitTheBasket(items: seq<Item>, higherIsCheap: bool)
    requires DistinctItems(items) && |Valid(items)| >= 2
    ensures |Flagged(items, higherIsCheap, Cheap)| == Quarter(|Valid(items)|)
    ensures |Flagged(items, higherIsCheap, Expensive)| == Quarter(|Valid(items)|)
    ensures |Flagged(items, higherIsCheap, Fair)| == |Valid(items)| - 2 * Quarter(|Valid(items)|)
  {
    hide Ranked, Valid, Quarter, FlagAt, Flagged, Between, SymbolsOf;
    RankedFacts(items, higherIsCheap);
    var r, n := Ranked(items, higherIsCheap), |Valid(items)|;
    var q := Quarter(n);
    FlagRanges(n);
    RankRange(items, r, 0, q);
    RankRange(items, r, q, n - q);
    RankRange(items, r, n - q, n);
    FlaggedIs(items, higherIsCheap, Cheap, 0, q);
    FlaggedIs(items, higherIsCheap, Fair, q, n - q);
    FlaggedIs(items, higherIsCheap, Expensive, n - q, n);
  }

  function Cheapness(flag: Flag): int {
    match flag
    case Cheap => 2
    case Fair => 1
    case Expensive => 0
    case NotAvailable => -1
  }

  /** A cheaper flag means a value at least as cheap. */
  lemma FlagsRespectValues(items: seq<Item>, higherIsCheap: bool, i: nat, j: nat)
    requires DistinctItems(items) && i < |items| && j < |items|
    requires items[i].value.Some? && items[j].value.Some?
    requires Cheapness(FlagOf(items, higherIsCheap, items[i])) > Cheapness(FlagOf(items, higherIsCheap, items[j]))
    ensures if higherIsCheap then items[i].value.value >= items[j].value.value
            else items[i].value.value <= items[j].value.value
  {
    hide Ranked, Valid;
    RankedFacts(items, higherIsCheap);
    var r := Ranked(items, higherIsCheap);
    RankOfItem(items, r, i);
    RankOfItem(items, r, j);
    assert RankIn(r, items[i].symbol) < RankIn(r, items[j].symbol);
  }

  // ---------------------------------------------------------------- momentum

  /** A symbol's annotation; a symbol without data still carries the basket's figures, if any
      symbol has data. */
  datatype Momentum =
    | Placed(value: real, rank: nat, rankPct: real, zscore: real, peerCount: nat, basket: Basket, topQuartile: bool)
    | Unplaced(peers: Option<nat>, basketOfPeers: Option<Basket>)

  datatype Basket = Basket(mean: real, median: real)

  predicate AtMost(x: real, y: real) {
    x <= y
  }

  /** The middle value, or the mean of the middle two; zero of nothing. */
  function Median(values: seq<real>): real {
    if values == [] then 0.0
    else
      var s, mid := Ordering.Sort(AtMost, values), |values| / 2;
      Ordering.SortContents(AtMost, values);
      if |values| % 2 == 0 then (s[mid - 1] + s[mid]) / 2.0 else s[mid]
  }

  function Values(s: seq<Scored>): (r: seq<real>)
    ensures |r| == |s|
  {
    seq(|s|, k requires 0 <= k < |s| => s[k].value)
  }

  function Offsets(values: seq<real>, m: real): seq<real> {
    seq(|values|, k requires 0 <= k < |values| => values[k] - m)
  }

  function Squares(values: seq<real>, m: real): seq<real> {
    seq(|values|, k requires 0 <= k < |values| => Square(values[k] - m))
  }

  /** The population standard deviation; a single value has none. */
  function Deviation(values: seq<real>, sqrt: real -> real): real
    requires values != []
  {
    var variance := Sum(Squares(values, Mean(values))) / |values| as real;
    if |values| > 1 && variance > 0.0 then sqrt(variance) else 0.0
  }

  function Zscore(v: real, m: real, sd: real): real {
    if sd > 0.0 then (v - m) / sd else 0.0
  }

  /** 1 for the best of n, 1/n for the last. */
  function RankPct(rank: nat, n: nat): real
    requires n > 0
  {
    (n - rank + 1) as real / n as real
  }

  function PlaceOf(valid: seq<Scored>, ranked: seq<Scored>, item: Item, sqrt: real -> real): Momentum {
    var n, rank := |valid|, RankIn(ranked, item.symbol);
    if n == 0 then Unplaced(None, None)
    else
      var values := Values(valid);
      var basket := Basket(Mean(values), Median(values));
      if rank == 0 || item.value.None? then Unplaced(Some(n), Some(basket))
      else
        Placed(item.value.value, rank, RankPct(rank, n), Zscore(item.value.value, basket.mean, Deviation(values, sqrt)),
               n - 1, basket, rank <= Quarter(n))
  }

  method RankByMomentum(items: seq<Item>, sqrt: real -> real) returns (out: map<string, Momentum>)
    requires DistinctItems(items)
    ensures forall symbol :: symbol in out <==> exists i :: 0 <= i < |items| && items[i].symbol == symbol
    ensures forall i | 0 <= i < |items| ::
              items[i].symbol in out && out[items[i].symbol] == PlaceOf(Valid(items), Ranked(items, true), items[i], sqrt)
  {
    hide Mean, Median, Deviation, Zscore, RankPct, Ranked, Valid, Values, Quarter, Table;
    out := map[];
    var valid := Valid(items);
    var ranked := Ranked(items, true);
    RankedFacts(items, true);
    var n := |valid|;
    var mean, median, sd := 0.0, 0.0, 0.0;
    if n > 0 {
      mean, median, sd := Mean(Values(valid)), Median(Values(valid)), Deviation(Values(valid), sqrt);
    }
    ghost var f := (x: Item) => PlaceOf(valid, ranked, x, sqrt);
    EmptyTable(f);
    for i := 0 to |items|
      invariant out == Table(items[..i], f)
    {
      var rank := RankIn(ranked, items[i].symbol);
      RankOfItem(items, ranked, i);
      var place := if n == 0 then Unplaced(None, None) else Unplaced(Some(n), Some(Basket(mean, median)));
      if rank > 0 {
        var v := items[i].value.value;
        place := Placed(v, rank, RankPct(rank, n), Zscore(v, mean, sd), n - 1, Basket(mean, median), rank <= Quarter(n));
      }
      TableSnoc(items, f, i);
      out := out[items[i].symbol := place];
    }
    assert items[..|items|] == items;
    forall i | 0 <= i < |items|
      ensures items[i].symbol in out && out[items[i].symbol] == PlaceOf(valid, ranked, items[i], sqrt)
    {
      TableAt(items, f, i);
    }
    forall symbol
      ensures symbol in out <==> exists i :: 0 <= i < |items| && items[i].symbol == symbol
    {
      TableKeys(items, f, symbol);
    }
  }

  /** What an annotation says of an item with a value: its value and rank, the share of the
      basket it ranks ahead of or at, its distance from the mean in deviations, the other symbols
      with data, and whether it is one of the best max(1, n/4). */
  lemma PlaceMeans(items: seq<Item>, i: nat, sqrt: real -> real)
    requires DistinctItems(items) && i < |items| && items[i].value.Some? && IsSqrt(sqrt)
    ensures var r, rank, n := Ranked(items, true), RankIn(Ranked(items, true), items[i].symbol), |Valid(items)|;
            var p, values := PlaceOf(Valid(items), r, items[i], sqrt), Values(Valid(items));
            && 1 <= rank <= n
            && p.Placed?
            && p.value == items[i].value.value && p.rank == rank
            && Times(p.rankPct, n as real) == (n - (rank - 1)) as real
            && p.peerCount == n - 1
            && p.basket == Basket(Mean(values), Median(values))
            && (p.topQuartile <==> rank == 1 || 4 * rank <= n)
            && (Deviation(values, sqrt) > 0.0 ==>
                  Times(p.zscore, Deviation(values, sqrt)) == items[i].value.value - Mean(values))
            && (Deviation(values, sqrt) == 0.0 ==> p.zscore == 0.0)
  {
    hide Ranked, Valid, Mean, Median, Deviation;
    RanksAreABijection(items, true);
    var n, rank := |Valid(items)|, RankIn(Ranked(items, true), items[i].symbol);
    TimesQuotient((n - rank + 1) as real, n as real);
    if Deviation(Values(Valid(items)), sqrt) > 0.0 {
      TimesQuotient(items[i].value.value - Mean(Values(Valid(items))), Deviation(Values(Valid(items)), sqrt));
    }
  }

  /** An item without a value carries the number of symbols with data and their figures. */
  lemma UnplacedMeans(items: seq<Item>, i: nat, sqrt: real -> real)
    requires DistinctItems(items) && i < |items| && items[i].value.None?
    ensures var p, values := PlaceOf(Valid(items), Ranked(items, true), items[i], sqrt), Values(Valid(items));
            p == if values == [] then Unplaced(None, None) else Unplaced(Some(|values|), Some(Basket(Mean(values), Median(values))))
  {
    hide Ranked, Valid, Mean, Median, Deviation;
    RanksAreABijection(items, true);
  }

  // ---------------------------------------------------------------- the median

  function Count(p: real -> bool, values: seq<real>): nat {
    if values == [] then 0 else (if p(values[0]) then 1 else 0) + Count(p, values[1..])
  }

  lemma {:induction false} CountInsert(p: real -> bool, x: real, s: seq<real>)
    ensures Count(p, Ordering.Insert(AtMost, x, s)) == (if p(x) then 1 else 0) + Count(p, s)
  {
    if s != [] && !AtMost(x, s[0]) {
      CountInsert(p, x, s[1..]);
      assert Ordering.Insert(AtMost, x, s)[1..] == Ordering.Insert(AtMost, x, s[1..]);
    } else {
      assert ([x] + s)[1..] == s;
    }
  }

  lemma {:induction false} CountSorted(p: real -> bool, values: seq<real>)
    ensures Count(p, Ordering.Sort(AtMost, values)) == Count(p, values)
  {
    if values != [] {
      CountSorted(p, values[1..]);
      CountInsert(p, values[0], Ordering.Sort(AtMost, values[1..]));
    }
  }

  lemma {:induction false} CountWithin(p: real -> bool, s: seq<real>, lo: int, hi: int)
    requires lo <= hi && 0 <= hi && forall k | 0 <= k < |s| && p(s[k]) :: lo <= k < hi
    ensures Count(p, s) <= if lo < 0 then hi else hi - lo
  {
    if s != [] {
      assert p(s[0]) ==> lo <= 0 < hi;
      CountWithin(p, s[1..], lo - 1, if hi == 0 then 0 else hi - 1);
    }
  }

  /** The values in ascending order. */
  ghost predicate Ascending(s: seq<real>, values: seq<real>) {
    multiset(s) == multiset(values) && |s| == |values| && forall i, j | 0 <= i < j < |s| :: s[i] <= s[j]
  }

  lemma SortAscends(values: seq<real>)
    ensures Ascending(Ordering.Sort(AtMost, values), values)
  {
    Ordering.SortContents(AtMost, values);
    Ordering.SortSorted(AtMost, values);
    var s := Ordering.Sort(AtMost, values);
    hide Ordering.Sort;
    forall i, j | 0 <= i < j < |s|
      ensures s[i] <= s[j]
    {
      assert AtMost(s[i], s[j]);
    }
  }

  /** The median is the middle of the values in ascending order: the one in the middle, or
      halfway between the two. */
  lemma MedianIsMiddle(values: seq<real>)
    requires values != []
    ensures exists s :: Ascending(s, values)
              && var mid := |values| / 2;
                 if |values| % 2 == 0 then 2.0 * Median(values) == s[mid - 1] + s[mid] else Median(values) == s[mid]
  {
    hide Ascending, Ordering.Sort;
    SortAscends(values);
    Ordering.SortContents(AtMost, values);
  }

  lemma MedianBounds(values: seq<real>)
    requires values != []
    ensures var s := Ordering.Sort(AtMost, values);
            && |s| == |values|
            && (forall k | 0 <= k < |s| && s[k] < Median(values) :: k < |values| / 2)
            && (forall k | 0 <= k < |s| && s[k] > Median(values) :: k >= |values| - |values| / 2)
  {
    hide Ordering.Sort;
    Ordering.SortContents(AtMost, values);
    Ordering.SortSorted(AtMost, values);
    var s, mid := Ordering.Sort(AtMost, values), |values| / 2;
    assert forall i, j | 0 <= i < j < |s| :: AtMost(s[i], s[j]);
  }

  /** At most half of the values lie below the median and at most half above. */
  lemma MedianSplits(values: seq<real>)
    requires values != []
    ensures 2 * Count(x => x < Median(values), values) <= |values|
    ensures 2 * Count(x => x > Median(values), values) <= |values|
  {
    hide Median;
    var below, above, s := (x: real) => x < Median(values), (x: real) => x > Median(values), Ordering.Sort(AtMost, values);
    MedianBounds(values);
    CountSorted(below, values);
    CountSorted(above, values);
    CountWithin(below, s, 0, |values| / 2);
    CountWithin(above, s, |values| - |values| / 2, |values|);
  }

  /** The top quartile of a basket of n values has max(1, n/4) members. */
  lemma TopQuartileSize(items: seq<Item>)
    requires DistinctItems(items) && Valid(items) != []
    ensures |Between(items, Ranked(items, true), 0, Quarter(|Valid(items)|))| == Quarter(|Valid(items)|)
  {
    hide Ranked, Valid, Between;
    RankedFacts(items, true);
    RankRange(items, Ranked(items, true), 0, Quarter(|Valid(items)|));
  }

  lemma {:induction false} SumOfOffsets(values: seq<real>, m: real)
    ensures Sum(Offsets(values, m)) == Sum(values) - |values| as real * m
  {
    if values != [] {
      assert Offsets(values, m)[1..] == Offsets(values[1..], m);
      SumOfOffsets(values[1..], m);
      Distribute(m, 1.0, |values[1..]| as real);
    }
  }

  lemma {:induction false} SquaresAreNonNegative(values: seq<real>, m: real)
    ensures Sum(Squares(values, m)) >= 0.0
  {
    if values != [] {
      hide Square;
      assert Squares(values, m)[1..] == Squares(values[1..], m);
      SquaresAreNonNegative(values[1..], m);
      SquareNonNegative(values[0] - m);
    }
  }

  /** The deviation is the population's: its square is the mean squared distance from the mean. */
  lemma DeviationMeans(values: seq<real>, sqrt: real -> real)
    requires values != [] && IsSqrt(sqrt)
    ensures var sd := Deviation(values, sqrt);
            sd >= 0.0 && Times(Square(sd), |values| as real) == Sum(Squares(values, Mean(values)))
  {
    var n, m, s := |values| as real, Mean(values), Sum(Squares(values, Mean(values)));
    SquaresAreNonNegative(values, m);
    TimesQuotient(s, n);
    if |values| == 1 {
      assert values[1..] == [];
      assert m == values[0];
      assert Squares(values, m)[1..] == [];
      assert s == Square(0.0);
    } else {
      VarianceSign(s, n);
    }
  }

  lemma VarianceSign(s: real, n: real)
    requires s >= 0.0 && n > 0.0
    ensures s / n >= 0.0
  {
    var v := s / n;
    assert v * n == s;
    CancelFactor(v, 0.0, n);
  }

  function Zscores(values: seq<real>, m: real, sd: real): seq<real> {
    seq(|values|, k requires 0 <= k < |values| => Zscore(values[k], m, sd))
  }

  lemma {:induction false} SumOfZscores(values: seq<real>, m: real, sd: real)
    requires sd > 0.0
    ensures Sum(Zscores(values, m, sd)) * sd == Sum(Offsets(values, m))
  {
    if values != [] {
      assert Zscores(values, m, sd)[1..] == Zscores(values[1..], m, sd);
      assert Offsets(values, m)[1..] == Offsets(values[1..], m);
      SumOfZscores(values[1..], m, sd);
      Distribute(sd, Zscore(values[0], m, sd), Sum(Zscores(values[1..], m, sd)));
    }
  }

  lemma {:induction false} ZeroZscores(values: seq<real>, m: real)
    ensures Sum(Zscores(values, m, 0.0)) == 0.0
  {
    if values != [] {
      assert Zscores(values, m, 0.0)[1..] == Zscores(values[1..], m, 0.0);
      ZeroZscores(values[1..], m);
    }
  }

  /** The z-scores of a basket sum to zero. */
  lemma ZscoresSumToZero(values: seq<real>, sqrt: real -> real)
    requires values != [] && IsSqrt(sqrt)
    ensures Sum(Zscores(values, Mean(values), Deviation(values, sqrt))) == 0.0
  {
    var m, sd := Mean(values), Deviation(values, sqrt);
    if sd > 0.0 {
      SumOfZscores(values, m, sd);
      SumOfOffsets(values, m);
      CancelFactor(Sum(Zscores(values, m, sd)), 0.0, sd);
    } else {
      ZeroZscores(values, m);
    }
  }

  lemma ZscoreSquared(v: real, m: real, sd: real)
    requires sd > 0.0
    ensures Times(Square(Zscore(v, m, sd)), Square(sd)) == Square(v - m)
  {
    var z := Zscore(v, m, sd);
    assert z * sd == v - m;
    SquareOfProduct(z, sd);
  }

  function SquaresOf(values: seq<real>): seq<real> {
    seq(|values|, k requires 0 <= k < |values| => Square(values[k]))
  }

  lemma SquaresTails(values: seq<real>, m: real, sd: real)
    requires values != []
    ensures var z := Zscores(values, m, sd);
            && SquaresOf(z) != [] && SquaresOf(z)[0] == Square(Zscore(values[0], m, sd))
            && SquaresOf(z)[1..] == SquaresOf(Zscores(values[1..], m, sd))
            && Squares(values, m)[0] == Square(values[0] - m)
            && Squares(values, m)[1..] == Squares(values[1..], m)
  {
    hide Zscore, Square;
    assert Zscores(values, m, sd)[1..] == Zscores(values[1..], m, sd);
  }

  lemma {:induction false} SumOfSquaredZscores(values: seq<real>, m: real, sd: real)
    requires sd > 0.0
    ensures Times(Sum(SquaresOf(Zscores(values, m, sd))), Square(sd)) == Sum(Squares(values, m))
  {
    if values == [] {
      assert Sum(SquaresOf(Zscores(values, m, sd))) == 0.0;
    } else {
      SquaresTails(values, m, sd);
      hide Zscore, Square, SquaresOf, Zscores, Squares, Times;
      SumOfSquaredZscores(values[1..], m, sd);
      ZscoreSquared(values[0], m, sd);
      AddTerm(Square(Zscore(values[0], m, sd)), Sum(SquaresOf(Zscores(values[1..], m, sd))), Square(sd),
              Square(values[0] - m), Sum(Squares(values[1..], m)), Sum(SquaresOf(Zscores(values, m, sd))));
    }
  }

  lemma AddTerm(first: real, rest: real, factor: real, x: real, y: real, sum: real)
    requires Times(first, factor) == x && Times(rest, factor) == y && sum == first + rest
    ensures Times(sum, factor) == x + y
  {
  }

  /** Unless all values are equal the z-scores have unit variance: their squares sum to n. */
  lemma ZscoresHaveUnitVariance(values: seq<real>, sqrt: real -> real)
    requires values != [] && IsSqrt(sqrt) && Deviation(values, sqrt) > 0.0
    ensures Sum(SquaresOf(Zscores(values, Mean(values), Deviation(values, sqrt)))) == |values| as real
  {
    hide Zscores, Mean, Squares;
    var m, sd := Mean(values), Deviation(values, sqrt);
    var n, s := |values| as real, Sum(Squares(values, m));
    SumOfSquaredZscores(values, m, sd);
    assert Square(sd) == s / n && s / n > 0.0;
    assert s / n * n == s;
    CancelFactor(Sum(SquaresOf(Zscores(values, m, sd))), n, s / n);
  }
}
