/** Repeating a refresh with the same fetched rows: not idempotent in general, but it settles. */
module RefreshSettles {
  import opened Lists
  import opened CandleCache
  import opened GarbageFilter
  import Ordering

  /** The rows of a table whose timestamp was not fetched. */
  function Uncovered(rows: seq<Row>, fetched: seq<Row>): seq<Row> {
    if rows == [] then []
    else (if HasTs(fetched, rows[0].ts) then [] else [rows[0]]) + Uncovered(rows[1..], fetched)
  }

  lemma {:induction false} UncoveredMember(rows: seq<Row>, fetched: seq<Row>, r: Row)
    ensures r in Uncovered(rows, fetched) <==> r in rows && !HasTs(fetched, r.ts)
  {
    if rows != [] {
      UncoveredMember(rows[1..], fetched, r);
      assert rows == [rows[0]] + rows[1..];
    }
  }

  lemma {:induction false} UncoveredStrict(rows: seq<Row>, fetched: seq<Row>)
    requires Strict(rows)
    ensures Strict(Uncovered(rows, fetched))
  {
    if rows != [] {
      UncoveredStrict(rows[1..], fetched);
      var rest := Uncovered(rows[1..], fetched);
      forall k | 0 <= k < |rest|
        ensures rest[k].ts > rows[0].ts
      {
        UncoveredMember(rows[1..], fetched, rest[k]);
        assert rest[k] in rest;
      }
    }
  }

  /** A strictly sorted table is determined by its rows. */
  lemma {:induction false} StrictUnique(a: seq<Row>, b: seq<Row>)
    requires Strict(a) && Strict(b) && forall r :: r in a <==> r in b
    ensures a == b
  {
    if a == [] {
      FirstMember(b);
    } else {
      FirstMember(a);
      FirstMember(b);
      assert a[0] == b[0];
      forall r
        ensures r in a[1..] <==> r in b[1..]
      {
        assert a == [a[0]] + a[1..] && b == [b[0]] + b[1..];
        TailMember(a, r);
        TailMember(b, r);
      }
      StrictUnique(a[1..], b[1..]);
      assert a == [a[0]] + a[1..] && b == [b[0]] + b[1..];
    }
  }

  lemma TailMember(a: seq<Row>, r: Row)
    requires Strict(a) && a != []
    ensures r in a[1..] <==> r in a && r != a[0]
  {
    if r in a && r != a[0] {
      var k :| 0 <= k < |a| && a[k] == r;
      assert a[1..][k - 1] == r;
    }
  }

  /** A strictly sorted table inside another is no longer, and of equal length only if equal. */
  lemma InsideIsShorter(a: seq<Row>, b: seq<Row>)
    requires Strict(a) && Strict(b) && forall r | r in a :: r in b
    ensures |a| <= |b|
    ensures |a| == |b| ==> a == b
  {
    Ordering.DistinctInside(a, b);
    if |a| == |b| {
      StrictUnique(a, b);
    }
  }

  /** What a refresh merges depends on the cache only through its uncovered rows. */
  lemma MergeDependsOnUncovered(a: seq<Row>, b: seq<Row>, fetched: seq<Row>)
    requires Strict(a) && Strict(b) && Strict(fetched) && Uncovered(a, fetched) == Uncovered(b, fetched)
    ensures Merge(a, fetched) == Merge(b, fetched)
  {
    MergeMembers(a, fetched);
    MergeMembers(b, fetched);
    forall r
      ensures r in Merge(a, fetched) <==> r in Merge(b, fetched)
    {
      UncoveredMember(a, fetched, r);
      UncoveredMember(b, fetched, r);
    }
    StrictUnique(Merge(a, fetched), Merge(b, fetched));
  }

  lemma RefreshedStrict(existing: seq<Row>, fetched: seq<Row>)
    requires Strict(existing) && Strict(fetched)
    ensures Strict(Refreshed(existing, fetched))
  {
    MergeMembers(existing, fetched);
    CleanStrict(Merge(existing, fetched), 0);
  }

  /** A refresh never brings back a row that was not fetched. */
  lemma UncoveredShrinks(existing: seq<Row>, fetched: seq<Row>)
    requires Strict(existing) && Strict(fetched)
    ensures forall r | r in Uncovered(Refreshed(existing, fetched), fetched) :: r in Uncovered(existing, fetched)
  {
    var t := Refreshed(existing, fetched);
    MergeMembers(existing, fetched);
    forall r | r in Uncovered(t, fetched)
      ensures r in Uncovered(existing, fetched)
    {
      UncoveredMember(t, fetched, r);
      UncoveredMember(existing, fetched, r);
      CleanMembers(Merge(existing, fetched), 0, r);
      HasOwnTs(fetched, r);
    }
  }

  lemma HasOwnTs(rows: seq<Row>, r: Row)
    ensures r in rows ==> HasTs(rows, r.ts)
  {
  }

  lemma SameUncoveredSettles(existing: seq<Row>, fetched: seq<Row>)
    requires Strict(existing) && Strict(fetched) && fetched != []
    requires Uncovered(Refreshed(existing, fetched), fetched) == Uncovered(existing, fetched)
    ensures Refreshed(Refreshed(existing, fetched), fetched) == Refreshed(existing, fetched)
  {
    RefreshedStrict(existing, fetched);
    MergeDependsOnUncovered(existing, Refreshed(existing, fetched), fetched);
  }

  // ---------------------------------------------------------------- exactly when it is idempotent

  ghost predicate DroppedFrom(rows: seq<Row>, r: Row) {
    exists k :: 0 <= k < |rows| && rows[k] == r && IsGarbage(rows, k)
  }

  lemma DropGarbageMembers(rows: seq<Row>, r: Row)
    requires Strict(rows)
    ensures r in DropGarbage(rows) <==> r in rows && !DroppedFrom(rows, r)
  {
    hide IsGarbage;
    CleanMembers(rows, 0, r);
  }

  /** A merged row with a fetched timestamp is the fetched row. */
  lemma SameTsSameRow(merged: seq<Row>, fetched: seq<Row>, r: Row)
    requires Strict(merged) && forall x | x in fetched :: x in merged
    ensures r in merged && HasTs(fetched, r.ts) ==> r in fetched
  {
    if r in merged && HasTs(fetched, r.ts) {
      var k :| 0 <= k < |fetched| && fetched[k].ts == r.ts;
      assert fetched[k] in merged;
    }
  }

  /** What the second refresh merges: the first one's table without the rows that were dropped
      from it and not fetched. */
  lemma SecondMerge(existing: seq<Row>, fetched: seq<Row>, r: Row)
    requires Strict(existing) && Strict(fetched) && fetched != []
    ensures r in Merge(Refreshed(existing, fetched), fetched)
            <==> r in Merge(existing, fetched) && (DroppedFrom(Merge(existing, fetched), r) ==> HasTs(fetched, r.ts))
  {
    hide DroppedFrom;
    MergeMembers(existing, fetched);
    RefreshedStrict(existing, fetched);
    MergeMembers(Refreshed(existing, fetched), fetched);
    DropGarbageMembers(Merge(existing, fetched), r);
    HasOwnTs(fetched, r);
    SameTsSameRow(Merge(existing, fetched), fetched, r);
  }

  /** The two refreshes agree exactly when the second merge gives every row the first one's
      verdict. */
  lemma SameVerdicts(existing: seq<Row>, fetched: seq<Row>)
    requires Strict(existing) && Strict(fetched) && fetched != []
    ensures var first, second := Merge(existing, fetched), Merge(Refreshed(existing, fetched), fetched);
            Refreshed(Refreshed(existing, fetched), fetched) == Refreshed(existing, fetched)
            <==> forall r | r in second :: DroppedFrom(second, r) <==> DroppedFrom(first, r)
  {
    hide DroppedFrom, Merge, DropGarbage;
    var once := Refreshed(existing, fetched);
    var first, second := Merge(existing, fetched), Merge(once, fetched);
    RefreshedStrict(existing, fetched);
    RefreshedStrict(once, fetched);
    MergeMembers(existing, fetched);
    MergeMembers(once, fetched);
    forall r
      ensures r in second <==> r in first && (DroppedFrom(first, r) ==> HasTs(fetched, r.ts))
      ensures r in once <==> r in first && !DroppedFrom(first, r)
      ensures r in DropGarbage(second) <==> r in second && !DroppedFrom(second, r)
    {
      SecondMerge(existing, fetched, r);
      DropGarbageMembers(first, r);
      DropGarbageMembers(second, r);
    }
    if forall r | r in second :: DroppedFrom(second, r) <==> DroppedFrom(first, r) {
      StrictUnique(DropGarbage(second), once);
    }
  }

  /** Every row the refresh drops has a fetched timestamp. */
  ghost predicate CoversDropped(existing: seq<Row>, fetched: seq<Row>) {
    forall r | DroppedFrom(Merge(existing, fetched), r) :: HasTs(fetched, r.ts)
  }

  /** When the fetch covers everything it makes the filter drop, refreshing again with the
      same rows changes nothing. */
  lemma CoveredRefreshIsIdempotent(existing: seq<Row>, fetched: seq<Row>)
    requires Strict(existing) && Strict(fetched) && CoversDropped(existing, fetched)
    ensures Refreshed(Refreshed(existing, fetched), fetched) == Refreshed(existing, fetched)
  {
    hide DroppedFrom, Merge, DropGarbage, HasTs;
    if fetched != [] {
      var first, second := Merge(existing, fetched), Merge(Refreshed(existing, fetched), fetched);
      RefreshedStrict(existing, fetched);
      MergeMembers(existing, fetched);
      MergeMembers(Refreshed(existing, fetched), fetched);
      forall r
        ensures r in second <==> r in first
      {
        SecondMerge(existing, fetched, r);
      }
      StrictUnique(second, first);
    }
  }

  function Repeated(existing: seq<Row>, fetched: seq<Row>, n: nat): seq<Row>
    decreases n
  {
    if n == 0 then existing else Repeated(Refreshed(existing, fetched), fetched, n - 1)
  }

  lemma {:induction false} FixedStaysFixed(rows: seq<Row>, fetched: seq<Row>, n: nat)
    requires Refreshed(rows, fetched) == rows
    ensures Repeated(rows, fetched, n) == rows
    decreases n
  {
    hide Refreshed;
    if n > 0 {
      FixedStaysFixed(rows, fetched, n - 1);
    }
  }

  lemma NothingFetched(existing: seq<Row>)
    ensures Refreshed(existing, []) == existing
  {
  }

  /** Repeating any refresh settles: after one more repeat than there are cached rows outside
      the fetch, the cache no longer changes. */
  lemma {:induction false} RepeatedRefreshSettles(existing: seq<Row>, fetched: seq<Row>, n: nat)
    requires Strict(existing) && Strict(fetched) && n > |Uncovered(existing, fetched)|
    ensures Refreshed(Repeated(existing, fetched, n), fetched) == Repeated(existing, fetched, n)
    decreases n
  {
    hide Refreshed, Uncovered, Strict;
    if fetched == [] {
      NothingFetched(existing);
      FixedStaysFixed(existing, fetched, n);
    } else {
      var t := Refreshed(existing, fetched);
      RefreshedStrict(existing, fetched);
      UncoveredStrict(existing, fetched);
      UncoveredStrict(t, fetched);
      UncoveredShrinks(existing, fetched);
      InsideIsShorter(Uncovered(t, fetched), Uncovered(existing, fetched));
      if |Uncovered(t, fetched)| == |Uncovered(existing, fetched)| {
        SameUncoveredSettles(existing, fetched);
        FixedStaysFixed(t, fetched, n - 1);
      } else {
        RepeatedRefreshSettles(t, fetched, n - 1);
      }
    }
  }

  // ---------------------------------------------------------------- history

  /** A refresh keeps history: apart from garbage, every cached row is still there unless its
      timestamp was fetched, every fetched row is there, and nothing else is. */
  lemma RefreshKeepsHistory(existing: seq<Row>, fetched: seq<Row>, r: Row)
    requires Strict(existing) && Strict(fetched) && fetched != []
    ensures Strict(Refreshed(existing, fetched))
    ensures r in Refreshed(existing, fetched)
            <==> exists k :: 0 <= k < |Merge(existing, fetched)| && Merge(existing, fetched)[k] == r
                          && !IsGarbage(Merge(existing, fetched), k)
    ensures r in Merge(existing, fetched) <==> r in fetched || (r in existing && !HasTs(fetched, r.ts))
  {
    RefreshedStrict(existing, fetched);
    MergeMembers(existing, fetched);
    CleanMembers(Merge(existing, fetched), 0, r);
  }

  // ---------------------------------------------------------------- not idempotent

  function Bar(ts: int, close: real): Row {
    Row(ts, Some(close), [])
  }

  /** A clean cache and one fetched bar on which a second identical refresh drops a cached row
      that the first one kept. */
  lemma RefreshIsNotIdempotent()
    ensures var existing, fetched := [Bar(0, 10.0), Bar(1, 1.0), Bar(2, 0.1)], [Bar(3, 10.0)];
            && DropGarbage(existing) == existing
            && Refreshed(existing, fetched) == [Bar(0, 10.0), Bar(1, 1.0), Bar(3, 10.0)]
            && Refreshed(Refreshed(existing, fetched), fetched) == [Bar(0, 10.0), Bar(3, 10.0)]
  {
    hide Merge, DropGarbage;
    var a, b, c, d := Bar(0, 10.0), Bar(1, 1.0), Bar(2, 0.1), Bar(3, 10.0);
    FourBars(a, b, c, d);
    ThreeBars(a, b, c);
    ThreeBars(a, b, d);
    MergeLater([a, b, c], d);
    MergeLater([a, b, d], d);
    var merged := [a, b, c, d];
    assert [a, b, c] + [d] == merged;
    assert !IsGarbage(merged, 0) && !IsGarbage(merged, 1) && IsGarbage(merged, 2) && !IsGarbage(merged, 3);
    assert DropGarbage(merged) == [a, b, d];
    assert !IsGarbage([a, b, d], 0) && IsGarbage([a, b, d], 1) && !IsGarbage([a, b, d], 2);
    assert DropGarbage([a, b, d]) == [a, d];
  }

  lemma ThreeBars(a: Row, b: Row, c: Row)
    ensures DropGarbage([a, b, c])
         == (if IsGarbage([a, b, c], 0) then [] else [a])
            + ((if IsGarbage([a, b, c], 1) then [] else [b])
            + (if IsGarbage([a, b, c], 2) then [] else [c]))
  {
    hide IsGarbage;
    var t := [a, b, c];
    assert CleanFrom(t, 3) == [];
    assert CleanFrom(t, 2) == (if IsGarbage(t, 2) then [] else [c]);
    assert CleanFrom(t, 1) == (if IsGarbage(t, 1) then [] else [b]) + CleanFrom(t, 2);
  }

  lemma FourBars(a: Row, b: Row, c: Row, d: Row)
    ensures DropGarbage([a, b, c, d])
         == (if IsGarbage([a, b, c, d], 0) then [] else [a])
            + ((if IsGarbage([a, b, c, d], 1) then [] else [b])
            + ((if IsGarbage([a, b, c, d], 2) then [] else [c])
            + (if IsGarbage([a, b, c, d], 3) then [] else [d])))
  {
    hide IsGarbage;
    var t := [a, b, c, d];
    assert CleanFrom(t, 4) == [];
    assert CleanFrom(t, 3) == (if IsGarbage(t, 3) then [] else [d]);
    assert CleanFrom(t, 2) == (if IsGarbage(t, 2) then [] else [c]) + CleanFrom(t, 3);
    assert CleanFrom(t, 1) == (if IsGarbage(t, 1) then [] else [b]) + CleanFrom(t, 2);
  }

  /** Merging the last bar of a table, or a bar after all of it. */
  lemma MergeLater(rows: seq<Row>, last: Row)
    requires Strict(rows) && rows != []
    requires forall k | 0 <= k < |rows| :: rows[k].ts < last.ts || (k == |rows| - 1 && rows[k] == last)
    ensures Merge(rows, [last]) == if rows[|rows| - 1] == last then rows else rows + [last]
  {
    hide Merge;
    var n := |rows| - 1;
    var t := if rows[n] == last then rows else rows + [last];
    MergeMembers(rows, [last]);
    assert [last][0] == last;
    assert rows[n] in rows;
    forall r
      ensures r in Merge(rows, [last]) <==> r in t
    {
      assert HasTs([last], r.ts) <==> r.ts == last.ts;
    }
    StrictUnique(Merge(rows, [last]), t);
  }
}
