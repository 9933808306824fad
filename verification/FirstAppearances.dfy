/** Archived boards reduced to each symbol's first appearance, and why the grading report then
    adds up. */
module FirstAppearances {
  import opened Lists
  import opened EntryEdge
  import Ordering

  /** A board of the archive: the day it was published, its signal bar, its symbols. */
  datatype Board = Board(day: int, signalBar: Option<int>, symbols: seq<string>)

  predicate ByDay(a: Board, b: Board) {
    a.day <= b.day
  }

  ghost predicate DistinctSymbols(signals: seq<Signal>) {
    forall j, k | 0 <= j < k < |signals| :: signals[j].symbol != signals[k].symbol
  }

  /** The signal is dated by the signal bar of a board that lists its symbol, and no board
      published earlier lists it. */
  ghost predicate FirstAppearance(boards: seq<Board>, s: Signal) {
    exists b :: b in boards && s.symbol in b.symbols && s.day == b.signalBar
      && forall e | e in boards && s.symbol in e.symbols :: b.day <= e.day
  }

  function Listing(bar: Option<int>, symbols: seq<string>): seq<Signal> {
    seq(|symbols|, k requires 0 <= k < |symbols| => Signal(symbols[k], bar))
  }

  /** Every symbol of every board with the board's signal bar, in order. */
  function Mentions(boards: seq<Board>): seq<Signal> {
    if boards == [] then []
    else
      var n := |boards| - 1;
      Mentions(boards[..n]) + Listing(boards[n].signalBar, boards[n].symbols)
  }

  /** What has been collected once the first `done` boards have been read. */
  ghost predicate Collected(boards: seq<Board>, done: nat, out: seq<Signal>, seen: set<string>)
    requires done <= |boards|
  {
    && DistinctSymbols(out)
    && (forall k | 0 <= k < |out| :: out[k].symbol in seen && out[k].symbol != "" && FirstAppearance(boards, out[k]))
    && (forall x | x in seen :: Listed(out, x))
    && (forall d, x | 0 <= d < done && x in boards[d].symbols && x != "" :: x in seen)
  }

  ghost predicate Listed(out: seq<Signal>, symbol: string) {
    exists k :: 0 <= k < |out| && out[k].symbol == symbol
  }

  /** Each non-empty symbol of any board once, with the signal bar of its first board, in the
      order of the boards' days. */
  method Collect(boards: seq<Board>) returns (out: seq<Signal>)
    ensures DistinctSymbols(out)
    ensures forall k | 0 <= k < |out| :: out[k].symbol != "" && FirstAppearance(boards, out[k])
    ensures forall b, x | b in boards && x in b.symbols && x != "" :: Listed(out, x)
    ensures Subsequence(out, Mentions(Ordering.Sort(ByDay, boards)))
  {
    hide Subsequence, Mentions;
    var sorted := Ordering.Sort(ByDay, boards);
    ByDayIsTotal();
    Ordering.SortSorted(ByDay, boards);
    Ordering.SortContents(ByDay, boards);
    var seen: set<string>;
    out, seen := [], {};
    NothingMentioned();
    assert sorted[..0] == [];
    for d := 0 to |sorted|
      invariant Collected(sorted, d, out, seen)
      invariant Subsequence(out, Mentions(sorted[..d]))
    {
      out, seen := ReadBoard(sorted, d, out, seen);
      MentionsSnoc(sorted, d);
    }
    assert sorted[..|sorted|] == sorted;
    forall k | 0 <= k < |out|
      ensures FirstAppearance(boards, out[k])
    {
      SameBoards(boards, sorted, out[k]);
    }
    forall b, x | b in boards && x in b.symbols && x != ""
      ensures Listed(out, x)
    {
      assert b in sorted;
    }
  }

  lemma ByDayIsTotal()
    ensures Ordering.TotalPreorder(ByDay)
  {
  }

  lemma SameBoards(boards: seq<Board>, sorted: seq<Board>, s: Signal)
    requires FirstAppearance(sorted, s) && forall b :: b in sorted <==> b in boards
    ensures FirstAppearance(boards, s)
  {
  }

  method ReadBoard(boards: seq<Board>, d: nat, before: seq<Signal>, seenBefore: set<string>)
    returns (out: seq<Signal>, seen: set<string>)
    requires Ordering.Sorted(ByDay, boards) && d < |boards| && Collected(boards, d, before, seenBefore)
    requires Subsequence(before, Mentions(boards[..d]))
    ensures Collected(boards, d + 1, out, seen)
    ensures Subsequence(out, Mentions(boards[..d]) + Listing(boards[d].signalBar, boards[d].symbols))
  {
    hide Subsequence, Mentions;
    out, seen := before, seenBefore;
    var symbols, bar := boards[d].symbols, boards[d].signalBar;
    ghost var mentioned := Mentions(boards[..d]);
    assert mentioned + Listing(bar, symbols[..0]) == mentioned;
    for i := 0 to |symbols|
      invariant Collected(boards, d, out, seen)
      invariant Subsequence(out, mentioned + Listing(bar, symbols[..i]))
      invariant forall k | 0 <= k < i && symbols[k] != "" :: symbols[k] in seen
    {
      var sym := symbols[i];
      SubsequenceSnoc(out, mentioned + Listing(bar, symbols[..i]), Signal(sym, bar));
      assert mentioned + Listing(bar, symbols[..i + 1]) == mentioned + Listing(bar, symbols[..i]) + [Signal(sym, bar)];
      if sym != "" && sym !in seen {
        NewSymbol(boards, d, out, seen, sym);
        seen := seen + {sym};
        out := out + [Signal(sym, boards[d].signalBar)];
      }
    }
    assert symbols[..|symbols|] == symbols;
  }

  lemma NothingMentioned()
    ensures Mentions([]) == [] && Subsequence<Signal>([], [])
  {
  }

  lemma MentionsSnoc(boards: seq<Board>, d: nat)
    requires d < |boards|
    ensures Mentions(boards[..d + 1]) == Mentions(boards[..d]) + Listing(boards[d].signalBar, boards[d].symbols)
  {
    assert boards[..d + 1][..d] == boards[..d];
  }

  lemma NewSymbol(boards: seq<Board>, d: nat, out: seq<Signal>, seen: set<string>, sym: string)
    requires Ordering.Sorted(ByDay, boards) && d < |boards| && Collected(boards, d, out, seen)
    requires sym in boards[d].symbols && sym != "" && sym !in seen
    ensures Collected(boards, d, out + [Signal(sym, boards[d].signalBar)], seen + {sym})
  {
    var s := Signal(sym, boards[d].signalBar);
    var t := out + [s];
    FirstUnseen(boards, d, s, seen);
    assert t[|out|] == s;
    assert forall k | 0 <= k < |out| :: t[k] == out[k];
    forall x | x in seen + {sym}
      ensures Listed(t, x)
    {
      if x in seen {
        var k :| 0 <= k < |out| && out[k].symbol == x;
        assert t[k].symbol == x;
      }
    }
  }

  lemma FirstUnseen(boards: seq<Board>, d: nat, s: Signal, seen: set<string>)
    requires Ordering.Sorted(ByDay, boards) && d < |boards|
    requires s.symbol in boards[d].symbols && s.day == boards[d].signalBar
    requires forall e | 0 <= e < d :: s.symbol !in boards[e].symbols
    ensures FirstAppearance(boards, s)
  {
    forall e | e in boards && s.symbol in e.symbols
      ensures boards[d].day <= e.day
    {
      var n :| 0 <= n < |boards| && boards[n] == e;
      assert n == d || ByDay(boards[d], boards[n]);
    }
    assert boards[d] in boards;
  }

  /** Fed from first appearances, symbols measured plus signals listed is the number of
      signals, whatever the store holds. */
  lemma FirstAppearancesAddUp(signals: seq<Signal>, load: map<string, Series>, bench: Option<Series>, horizons: seq<nat>)
    requires DistinctSymbols(signals)
    ensures |MeasuredSymbols(signals, load, bench, horizons)| + |UnmeasuredIn(signals, load, bench, horizons)| == |signals|
  {
    TotalsAddUpIff(signals, load, bench, horizons);
  }
}
