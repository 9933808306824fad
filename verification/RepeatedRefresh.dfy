/** When repeating a refresh changes nothing: a condition on the first merge alone, and there
    only on the rows next to a lost one. */
module RepeatedRefresh {
  import opened CandleCache
  import opened RefreshSettles

  /** Dropped by the filter and not fetched again. */
  predicate Lost(merged: seq<Row>, fetched: seq<Row>, k: nat)
    requires k < |merged|
  {
    IsGarbage(merged, k) && !HasTs(fetched, merged[k].ts)
  }

  predicate BesideLost(merged: seq<Row>, fetched: seq<Row>, k: nat)
    requires k < |merged|
  {
    (k > 0 && Lost(merged, fetched, k - 1)) || (k + 1 < |merged| && Lost(merged, fetched, k + 1))
  }

  /** The positions from `i` on that are not lost. */
  function Survivors(merged: seq<Row>, fetched: seq<Row>, i: nat): (x: seq<nat>)
    requires i <= |merged|
    ensures forall j | 0 <= j < |x| :: i <= x[j] < |merged| && !Lost(merged, fetched, x[j])
    ensures forall j, k | 0 <= j < k < |x| :: x[j] < x[k]
    ensures forall k | i <= k < |merged| && !Lost(merged, fetched, k) :: k in x
    decreases |merged| - i
  {
    if i == |merged| then []
    else if Lost(merged, fetched, i) then Survivors(merged, fetched, i + 1)
    else [i] + Survivors(merged, fetched, i + 1)
  }

  /** The merged table without its lost rows. */
  function Remaining(merged: seq<Row>, fetched: seq<Row>): seq<Row> {
    var x := Survivors(merged, fetched, 0);
    seq(|x|, j requires 0 <= j < |x| => merged[x[j]])
  }

  lemma NextSurvivor(merged: seq<Row>, fetched: seq<Row>, j: nat, k: nat)
    requires j < |Survivors(merged, fetched, 0)| && k < |merged| && !Lost(merged, fetched, k)
    ensures var x := Survivors(merged, fetched, 0);
            && (k == x[j] + 1 ==> j + 1 < |x| && x[j + 1] == k)
            && (k + 1 == x[j] ==> 0 < j && x[j - 1] == k)
  {
    hide Lost, Survivors;
    var x := Survivors(merged, fetched, 0);
    var n :| 0 <= n < |x| && x[n] == k;
    if k == x[j] + 1 {
      assert j < n;
    } else if k + 1 == x[j] {
      assert n < j;
    }
  }

  /** Away from lost rows the verdicts stay. */
  lemma VerdictStays(merged: seq<Row>, fetched: seq<Row>, j: nat)
    requires j < |Survivors(merged, fetched, 0)| && !BesideLost(merged, fetched, Survivors(merged, fetched, 0)[j])
    ensures IsGarbage(Remaining(merged, fetched), j) <==> IsGarbage(merged, Survivors(merged, fetched, 0)[j])
  {
    hide Lost, Survivors, SpikeUp, SpikeDown;
    var x, rest := Survivors(merged, fetched, 0), Remaining(merged, fetched);
    var k := x[j];
    if k > 0 {
      NextSurvivor(merged, fetched, j, k - 1);
    }
    if k + 1 < |merged| {
      NextSurvivor(merged, fetched, j, k + 1);
    }
    assert j > 0 ==> x[j - 1] < k;
    assert j + 1 < |x| ==> k < x[j + 1];
    assert rest[j] == merged[k];
  }

  lemma RemainingStrict(merged: seq<Row>, fetched: seq<Row>)
    requires Strict(merged)
    ensures Strict(Remaining(merged, fetched))
  {
  }

  /** In a strictly sorted table a row is dropped where it stands or not at all. */
  lemma DroppedAt(rows: seq<Row>, k: nat)
    requires Strict(rows) && k < |rows|
    ensures DroppedFrom(rows, rows[k]) <==> IsGarbage(rows, k)
  {
    hide IsGarbage;
    forall n | 0 <= n < |rows| && rows[n] == rows[k]
      ensures n == k
    {
      assert rows[n].ts == rows[k].ts;
    }
  }

  /** The second refresh merges exactly the rows that are not lost. */
  lemma SecondMergeIsRemaining(existing: seq<Row>, fetched: seq<Row>)
    requires Strict(existing) && Strict(fetched) && fetched != []
    ensures Merge(Refreshed(existing, fetched), fetched) == Remaining(Merge(existing, fetched), fetched)
  {
    hide IsGarbage, Merge, Refreshed, DroppedFrom, HasTs;
    var merged := Merge(existing, fetched);
    var second, x, rest := Merge(Refreshed(existing, fetched), fetched), Survivors(merged, fetched, 0), Remaining(merged, fetched);
    MergeMembers(existing, fetched);
    RefreshedStrict(existing, fetched);
    MergeMembers(Refreshed(existing, fetched), fetched);
    RemainingStrict(merged, fetched);
    forall r
      ensures r in second <==> r in rest
    {
      SecondMerge(existing, fetched, r);
      if r in merged {
        var k :| 0 <= k < |merged| && merged[k] == r;
        DroppedAt(merged, k);
        if r in second {
          assert k in x;
          var j :| 0 <= j < |x| && x[j] == k;
          assert rest[j] == r;
        }
      }
      if r in rest {
        var j :| 0 <= j < |rest| && rest[j] == r;
        assert merged[x[j]] == r;
        DroppedAt(merged, x[j]);
      }
    }
    StrictUnique(second, rest);
  }

  /** A second refresh with the same rows changes nothing exactly when, in the first merge,
      every row beside a lost one keeps its verdict once the lost rows are taken out. */
  lemma IdempotentIff(existing: seq<Row>, fetched: seq<Row>)
    requires Strict(existing) && Strict(fetched) && fetched != []
    ensures var merged := Merge(existing, fetched);
            var x := Survivors(merged, fetched, 0);
            Refreshed(Refreshed(existing, fetched), fetched) == Refreshed(existing, fetched)
            <==> forall j | 0 <= j < |x| && BesideLost(merged, fetched, x[j]) ::
                   IsGarbage(Remaining(merged, fetched), j) <==> IsGarbage(merged, x[j])
  {
    hide IsGarbage, Merge, Refreshed, DroppedFrom, BesideLost, Survivors, Strict;
    var merged := Merge(existing, fetched);
    var x, rest := Survivors(merged, fetched, 0), Remaining(merged, fetched);
    MergeMembers(existing, fetched);
    RemainingStrict(merged, fetched);
    SecondMergeIsRemaining(existing, fetched);
    SameVerdicts(existing, fetched);
    forall j | 0 <= j < |x|
      ensures rest[j] == merged[x[j]] && rest[j] in rest
      ensures DroppedFrom(rest, rest[j]) <==> IsGarbage(rest, j)
      ensures DroppedFrom(merged, rest[j]) <==> IsGarbage(merged, x[j])
      ensures !BesideLost(merged, fetched, x[j]) ==> (IsGarbage(rest, j) <==> IsGarbage(merged, x[j]))
    {
      DroppedAt(rest, j);
      DroppedAt(merged, x[j]);
      if !BesideLost(merged, fetched, x[j]) {
        VerdictStays(merged, fetched, j);
      }
    }
  }
}
