/** The candle cache of one symbol: a refresh merges fetched rows over the cached ones by
    timestamp and drops garbage bars. */
module CandleCache {
  import opened Lists
  import Ordering

  /** A bar: its timestamp, its close (absent for NaN) and its other columns. */
  datatype Row = Row(ts: int, close: Option<real>, rest: seq<real>)

  // ---------------------------------------------------------------- merging

  predicate ByTs(a: Row, b: Row) {
    a.ts <= b.ts
  }

  predicate HasTs(rows: seq<Row>, ts: int) {
    exists k | 0 <= k < |rows| :: rows[k].ts == ts
  }

  /** Of rows with the same timestamp, the last. */
  function KeepLast(rows: seq<Row>): seq<Row> {
    if rows == [] then []
    else (if HasTs(rows[1..], rows[0].ts) then [] else [rows[0]]) + KeepLast(rows[1..])
  }

  function Merge(existing: seq<Row>, fetched: seq<Row>): seq<Row> {
    if existing == [] then fetched else Ordering.Sort(ByTs, KeepLast(existing + fetched))
  }

  // ---------------------------------------------------------------- garbage bars

  /** Far above, or far below, both neighbours. */
  predicate SpikeUp(prev: real, c: real, next: real) {
    c > prev * 4.0 && c > next * 4.0
  }

  predicate SpikeDown(prev: real, c: real, next: real) {
    c < prev * 0.25 && c < next * 0.25
  }

  /** The three closes around an interior bar, when all are present. */
  predicate Comparable(rows: seq<Row>, i: nat) {
    0 < i < |rows| - 1 && rows[i - 1].close.Some? && rows[i].close.Some? && rows[i + 1].close.Some?
  }

  predicate SpikedUp(rows: seq<Row>, i: nat) {
    Comparable(rows, i) && SpikeUp(rows[i - 1].close.value, rows[i].close.value, rows[i + 1].close.value)
  }

  predicate SpikedDown(rows: seq<Row>, i: nat) {
    Comparable(rows, i) && SpikeDown(rows[i - 1].close.value, rows[i].close.value, rows[i + 1].close.value)
  }

  predicate IsGarbage(rows: seq<Row>, i: nat)
    requires i < |rows|
  {
    rows[i].close.None? || SpikedUp(rows, i) || SpikedDown(rows, i)
  }

  function CleanFrom(rows: seq<Row>, i: nat): seq<Row>
    requires i <= |rows|
    decreases |rows| - i
  {
    if i == |rows| then []
    else if IsGarbage(rows, i) then CleanFrom(rows, i + 1)
    else [rows[i]] + CleanFrom(rows, i + 1)
  }

  function DropGarbage(rows: seq<Row>): seq<Row> {
    CleanFrom(rows, 0)
  }

  // ---------------------------------------------------------------- refreshing

  function Refreshed(existing: seq<Row>, fetched: seq<Row>): seq<Row> {
    if fetched == [] then existing else DropGarbage(Merge(existing, fetched))
  }

  class SymbolCache {
    var rows: seq<Row>

    constructor ()
      ensures rows == []
    {
      rows := [];
    }

    method RefreshSymbol(fetched: seq<Row>) returns (count: nat)
      modifies this
      ensures rows == Refreshed(old(rows), fetched)
      ensures count == |rows|
    {
      if fetched == [] {
        return |rows|;
      }
      var merged;
      if rows == [] {
        merged := fetched;
      } else {
        merged := rows + fetched;
        merged := Ordering.Sort(ByTs, KeepLast(merged));
      }
      merged := DropGarbage(merged);
      rows := merged;
      return |rows|;
    }
  }

  // ---------------------------------------------------------------- what the merge holds

  ghost predicate Strict(rows: seq<Row>) {
    forall j, k | 0 <= j < k < |rows| :: rows[j].ts < rows[k].ts
  }

  ghost predicate DistinctTs(rows: seq<Row>) {
    forall j, k | 0 <= j < k < |rows| :: rows[j].ts != rows[k].ts
  }

  /** `r` is the last row of its timestamp. */
  ghost predicate IsLast(rows: seq<Row>, r: Row) {
    exists k | 0 <= k < |rows| :: rows[k] == r && !HasTs(rows[k + 1..], r.ts)
  }

  lemma {:induction false} KeepLastMembers(rows: seq<Row>, r: Row)
    ensures r in KeepLast(rows) <==> IsLast(rows, r)
  {
    if rows != [] {
      KeepLastMembers(rows[1..], r);
      assert forall k | 1 <= k < |rows| :: rows[k + 1..] == rows[1..][k..];
      if IsLast(rows[1..], r) {
        var k :| 0 <= k < |rows[1..]| && rows[1..][k] == r && !HasTs(rows[1..][k + 1..], r.ts);
        assert rows[k + 1] == r && rows[k + 2..] == rows[1..][k + 1..];
      }
      if IsLast(rows, r) {
        var k :| 0 <= k < |rows| && rows[k] == r && !HasTs(rows[k + 1..], r.ts);
        if k > 0 {
          assert rows[1..][k - 1] == r;
        }
      }
    }
  }

  lemma {:induction false} KeepLastDistinct(rows: seq<Row>)
    ensures DistinctTs(KeepLast(rows))
  {
    if rows != [] {
      KeepLastDistinct(rows[1..]);
      var kept := KeepLast(rows[1..]);
      if !HasTs(rows[1..], rows[0].ts) {
        forall k | 0 <= k < |kept|
          ensures kept[k].ts != rows[0].ts
        {
          KeepLastMembers(rows[1..], kept[k]);
          assert kept[k] in kept;
        }
      }
    }
  }

  lemma ByTsIsTotal()
    ensures Ordering.TotalPreorder(ByTs)
  {
  }

  /** Merging into a non-empty cache gives strictly increasing timestamps holding the last row
      of each, whatever the order of what was fetched. */
  lemma MergeKeepsLast(existing: seq<Row>, fetched: seq<Row>)
    requires existing != []
    ensures Strict(Merge(existing, fetched))
    ensures forall r :: r in Merge(existing, fetched) <==> IsLast(existing + fetched, r)
  {
    var kept := KeepLast(existing + fetched);
    KeepLastDistinct(existing + fetched);
    ByTsIsTotal();
    Ordering.SortSorted(ByTs, kept);
    Ordering.SortContents(ByTs, kept);
    Ordering.PermutedDistinct((r: Row) => r.ts, kept, Ordering.Sort(ByTs, kept));
    forall r
      ensures r in kept <==> IsLast(existing + fetched, r)
    {
      KeepLastMembers(existing + fetched, r);
    }
  }

  /** The first fetch of a symbol is stored as it came: the merge is strictly sorted exactly
      when there was a cache to merge into or the fetch was strictly sorted already. */
  lemma MergeStrictIff(existing: seq<Row>, fetched: seq<Row>)
    ensures Strict(Merge(existing, fetched)) <==> existing != [] || Strict(fetched)
  {
    if existing != [] {
      MergeKeepsLast(existing, fetched);
    }
  }

  /** Between strictly sorted tables: every fetched row, and every cached row whose timestamp
      was not fetched. */
  lemma MergeMembers(existing: seq<Row>, fetched: seq<Row>)
    requires Strict(existing) && Strict(fetched)
    ensures Strict(Merge(existing, fetched))
    ensures forall r :: r in Merge(existing, fetched) <==> r in fetched || (r in existing && !HasTs(fetched, r.ts))
  {
    if existing != [] {
      MergeKeepsLast(existing, fetched);
      forall r
        ensures IsLast(existing + fetched, r) <==> r in fetched || (r in existing && !HasTs(fetched, r.ts))
      {
        LastOfConcatenation(existing, fetched, r);
      }
    }
  }

  lemma HasTsConcat(a: seq<Row>, b: seq<Row>, ts: int)
    ensures HasTs(a + b, ts) <==> HasTs(a, ts) || HasTs(b, ts)
  {
    if HasTs(b, ts) {
      var k :| 0 <= k < |b| && b[k].ts == ts;
      assert (a + b)[|a| + k] == b[k];
    }
    if HasTs(a, ts) {
      var k :| 0 <= k < |a| && a[k].ts == ts;
      assert (a + b)[k] == a[k];
    }
  }

  /** The rows after position `k` of a concatenation. */
  lemma Suffix(a: seq<Row>, b: seq<Row>, k: nat)
    requires k < |a + b|
    ensures (a + b)[k + 1..] == if k < |a| then a[k + 1..] + b else b[k - |a| + 1..]
    ensures (a + b)[k] == if k < |a| then a[k] else b[k - |a|]
  {
  }

  lemma LastOfConcatenation(existing: seq<Row>, fetched: seq<Row>, r: Row)
    requires Strict(existing) && Strict(fetched)
    ensures IsLast(existing + fetched, r) <==> r in fetched || (r in existing && !HasTs(fetched, r.ts))
  {
    hide HasTs, Strict;
    var all, n := existing + fetched, |existing|;
    if IsLast(all, r) {
      var k :| 0 <= k < |all| && all[k] == r && !HasTs(all[k + 1..], r.ts);
      Suffix(existing, fetched, k);
      if k < n {
        HasTsConcat(existing[k + 1..], fetched, r.ts);
      }
    }
    if r in fetched {
      var j :| 0 <= j < |fetched| && fetched[j] == r;
      Suffix(existing, fetched, n + j);
      StrictSuffix(fetched, j);
    } else if r in existing && !HasTs(fetched, r.ts) {
      var k :| 0 <= k < n && existing[k] == r;
      Suffix(existing, fetched, k);
      HasTsConcat(existing[k + 1..], fetched, r.ts);
      StrictSuffix(existing, k);
    }
  }

  lemma StrictSuffix(rows: seq<Row>, k: nat)
    requires Strict(rows) && k < |rows|
    ensures !HasTs(rows[k + 1..], rows[k].ts)
  {
  }
}
