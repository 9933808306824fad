/** Paging through a candle server that answers with the earliest bars of a window, at most
    1000 at a time. */
module Pagination {

  datatype Bar = Bar(openMs: int, close: real)

  const PAGE := 1000

  ghost predicate Ascending(bars: seq<Bar>) {
    forall j, k | 0 <= j < k < |bars| :: bars[j].openMs < bars[k].openMs
  }

  /** The bars opening from `lo` to `hi`, both included. */
  function Within(bars: seq<Bar>, lo: int, hi: int): seq<Bar> {
    if bars == [] then []
    else if lo <= bars[0].openMs <= hi then [bars[0]] + Within(bars[1..], lo, hi)
    else Within(bars[1..], lo, hi)
  }

  /** The server's answer to one request. */
  function Page(bars: seq<Bar>, cursor: int, end: int): seq<Bar> {
    var window := Within(bars, cursor, end);
    if |window| <= PAGE then window else window[..PAGE]
  }

  lemma {:induction false} WithinMember(bars: seq<Bar>, lo: int, hi: int, b: Bar)
    ensures b in Within(bars, lo, hi) <==> b in bars && lo <= b.openMs <= hi
  {
    if bars != [] {
      WithinMember(bars[1..], lo, hi, b);
      assert bars == [bars[0]] + bars[1..];
    }
  }

  lemma {:induction false} WithinAscending(bars: seq<Bar>, lo: int, hi: int)
    requires Ascending(bars)
    ensures Ascending(Within(bars, lo, hi))
  {
    if bars != [] {
      WithinAscending(bars[1..], lo, hi);
      var rest := Within(bars[1..], lo, hi);
      forall k | 0 <= k < |rest|
        ensures rest[k].openMs > bars[0].openMs
      {
        WithinMember(bars[1..], lo, hi, rest[k]);
        assert rest[k] in rest;
      }
    }
  }

  lemma {:induction false} WithinNothing(bars: seq<Bar>, lo: int, hi: int)
    requires forall k | 0 <= k < |bars| :: !(lo <= bars[k].openMs <= hi)
    ensures Within(bars, lo, hi) == []
  {
    if bars != [] {
      WithinNothing(bars[1..], lo, hi);
    }
  }

  lemma {:induction false} WithinAll(bars: seq<Bar>, lo: int, hi: int)
    requires forall k | 0 <= k < |bars| :: lo <= bars[k].openMs <= hi
    ensures Within(bars, lo, hi) == bars
  {
    if bars != [] {
      WithinAll(bars[1..], lo, hi);
    }
  }

  /** A window splits at any point. */
  lemma {:induction false} WithinSplits(bars: seq<Bar>, lo: int, mid: int, hi: int)
    requires Ascending(bars) && lo <= mid <= hi + 1
    ensures Within(bars, lo, hi) == Within(bars, lo, mid - 1) + Within(bars, mid, hi)
  {
    if bars != [] {
      WithinSplits(bars[1..], lo, mid, hi);
      if bars[0].openMs >= mid {
        WithinNothing(bars[1..], lo, mid - 1);
      }
    }
  }

  /** After the first `n` bars of a window, what is left is the window after the last of them. */
  lemma RestOfWindow(bars: seq<Bar>, lo: int, hi: int, n: nat)
    requires Ascending(bars) && 0 < n <= |Within(bars, lo, hi)|
    ensures var w := Within(bars, lo, hi);
            w[n..] == Within(bars, w[n - 1].openMs + 1, hi)
  {
    var w := Within(bars, lo, hi);
    WithinAscending(bars, lo, hi);
    WithinMember(bars, lo, hi, w[n - 1]);
    var mid := w[n - 1].openMs + 1;
    WithinSplits(bars, lo, mid, hi);
    var a, b := Within(bars, lo, mid - 1), Within(bars, mid, hi);
    if |a| < n {
      assert w[n - 1] == b[n - 1 - |a|];
      WithinMember(bars, mid, hi, b[n - 1 - |a|]);
    } else if |a| > n {
      assert w[n] == a[n];
      WithinMember(bars, lo, mid - 1, a[n]);
    }
  }

  /** Whether the bar opening exactly at `end`, should there be one, is returned: not when the
      bars before it fill whole pages and the last of those opens just before `end`. */
  predicate EndBarReturned(bars: seq<Bar>, start: int, end: int) {
    var before := Within(bars, start, end - 1);
    start < end && !(before != [] && |before| % 1000 == 0 && before[|before| - 1].openMs == end - 1)
  }

  /** Every bar with start <= open < end, once, in ascending order, and then the bar at `end`
      if `EndBarReturned`. */
  function Expected(bars: seq<Bar>, start: int, end: int): seq<Bar> {
    Within(bars, start, end - 1) + (if EndBarReturned(bars, start, end) then Within(bars, end, end) else [])
  }

  /** The whole window, when it was read to its end. */
  lemma ReadToTheEnd(bars: seq<Bar>, start: int, end: int, cursor: int, got: nat)
    requires Ascending(bars) && start <= cursor < end
    requires got % PAGE == 0 && got <= |Within(bars, start, end)| < got + PAGE
    requires if got == 0 then cursor == start else Within(bars, start, end)[got - 1].openMs == cursor - 1
    ensures Within(bars, start, end) == Expected(bars, start, end)
  {
    var all, before := Within(bars, start, end), Within(bars, start, end - 1);
    hide Within, Ascending;
    WithinSplits(bars, start, end, end);
    OneAtEnd(bars, end);
    assert all == before + Within(bars, end, end);
    if before != [] && |before| % PAGE == 0 {
      SameMultiple(|before|, got);
      assert all[got - 1] == before[got - 1];
    }
    assert EndBarReturned(bars, start, end);
  }

  lemma SameMultiple(n: nat, got: nat)
    requires n % PAGE == 0 && got % PAGE == 0 && got - 1 <= n < got + PAGE
    ensures n == got
  {
  }

  lemma WithinBounds(bars: seq<Bar>, lo: int, hi: int)
    ensures forall k | 0 <= k < |Within(bars, lo, hi)| :: lo <= Within(bars, lo, hi)[k].openMs <= hi
  {
    var w := Within(bars, lo, hi);
    forall k | 0 <= k < |w|
      ensures lo <= w[k].openMs <= hi
    {
      WithinMember(bars, lo, hi, w[k]);
    }
  }

  /** The last page was full and ended at or just before `end`. */
  lemma ReadFullPages(bars: seq<Bar>, start: int, end: int, got: nat)
    requires Ascending(bars) && start < end
    requires 0 < got <= |Within(bars, start, end)| && got % PAGE == 0
    requires Within(bars, start, end)[got - 1].openMs >= end - 1
    ensures Within(bars, start, end)[..got] == Expected(bars, start, end)
  {
    hide Within;
    var all, before, last := Within(bars, start, end), Within(bars, start, end - 1), Within(bars, end, end);
    WithinSplits(bars, start, end, end);
    RestOfWindow(bars, start, end, got);
    WithinBounds(bars, start, end);
    WithinBounds(bars, start, end - 1);
    if all[got - 1].openMs == end {
      EmptyWindow(bars, end + 1, end);
      assert all[..got] == all;
      OneAtEnd(bars, end);
      assert |before| < got;
      assert |before| == got - 1;
    } else {
      assert all[got..] == last;
      assert before == all[..got];
    }
  }

  lemma EmptyWindow(bars: seq<Bar>, lo: int, hi: int)
    requires lo > hi
    ensures Within(bars, lo, hi) == []
  {
    WithinNothing(bars, lo, hi);
  }

  lemma PageIsPrefix(bars: seq<Bar>, cursor: int, end: int)
    ensures var data, window := Page(bars, cursor, end), Within(bars, cursor, end);
            && |data| <= PAGE && |data| <= |window| && data == window[..|data|]
            && (|data| < PAGE ==> data == window)
  {
  }

  lemma NothingToFetch(bars: seq<Bar>, start: int, end: int)
    requires start >= end
    ensures Expected(bars, start, end) == []
  {
    EmptyWindow(bars, start, end - 1);
  }

  /** What is expected, bar by bar: everything from `start` up to but not at `end`, and the bar
      at `end` under its condition, in ascending order, so each once. */
  lemma ExpectedMeans(bars: seq<Bar>, start: int, end: int, b: Bar)
    requires Ascending(bars)
    ensures Ascending(Expected(bars, start, end))
    ensures b in Expected(bars, start, end)
       <==> b in bars && (start <= b.openMs < end || (b.openMs == end && EndBarReturned(bars, start, end)))
  {
    hide EndBarReturned, Within;
    WithinAscending(bars, start, end - 1);
    WithinAscending(bars, end, end);
    WithinBounds(bars, start, end - 1);
    WithinBounds(bars, end, end);
    WithinMember(bars, start, end - 1, b);
    WithinMember(bars, end, end, b);
  }

  lemma OneAtEnd(bars: seq<Bar>, end: int)
    requires Ascending(bars)
    ensures |Within(bars, end, end)| <= 1
  {
    var last := Within(bars, end, end);
    WithinAscending(bars, end, end);
    if |last| > 1 {
      WithinMember(bars, end, end, last[0]);
      WithinMember(bars, end, end, last[1]);
    }
  }

  /** The pagination loop returns exactly the expected bars, and `end - cursor` falls with
      every page. */
  method FetchAll(bars: seq<Bar>, start: int, end: int) returns (rows: seq<Bar>)
    requires Ascending(bars)
    ensures rows == Expected(bars, start, end)
  {
    hide Within, Expected, Page;
    rows := [];
    var cursor := start;
    ghost var all := Within(bars, start, end);
    if start >= end {
      NothingToFetch(bars, start, end);
    }
    while cursor < end
      invariant start <= cursor
      invariant |rows| <= |all| && rows == all[..|rows|] && all[|rows|..] == Within(bars, cursor, end)
      invariant |rows| % PAGE == 0
      invariant if rows == [] then cursor == start else rows[|rows| - 1].openMs == cursor - 1
      invariant cursor >= end ==> rows == Expected(bars, start, end)
      decreases end - cursor
    {
      var data := Page(bars, cursor, end);
      ghost var got := |rows|;
      PageIsPrefix(bars, cursor, end);
      if data == [] {
        ReadToTheEnd(bars, start, end, cursor, got);
        break;
      }
      rows := rows + data;
      if |data| < PAGE {
        ReadToTheEnd(bars, start, end, cursor, got);
        break;
      }
      WithinMember(bars, cursor, end, data[|data| - 1]);
      RestOfWindow(bars, start, end, |rows|);
      cursor := data[|data| - 1].openMs + 1;
      if cursor >= end {
        ReadFullPages(bars, start, end, |rows|);
      }
    }
  }
}
