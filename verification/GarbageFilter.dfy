/** What the garbage filter can and cannot remove. */
module GarbageFilter {
  import opened Lists
  import opened Reals
  import opened CandleCache

  ghost predicate NonNegativeCloses(rows: seq<Row>) {
    forall i | 0 <= i < |rows| :: rows[i].close.Some? && rows[i].close.value >= 0.0
  }

  ghost predicate Monotone(rows: seq<Row>)
    requires NonNegativeCloses(rows)
  {
    || (forall i, j | 0 <= i <= j < |rows| :: rows[i].close.value <= rows[j].close.value)
    || (forall i, j | 0 <= i <= j < |rows| :: rows[i].close.value >= rows[j].close.value)
  }

  /** `r` is a row from position `i` on that is not garbage. */
  ghost predicate KeptFrom(rows: seq<Row>, i: nat, r: Row) {
    exists k :: i <= k < |rows| && rows[k] == r && !IsGarbage(rows, k)
  }

  lemma KeptStep(rows: seq<Row>, i: nat, r: Row)
    requires i < |rows|
    ensures KeptFrom(rows, i, r) <==> KeptFrom(rows, i + 1, r) || (rows[i] == r && !IsGarbage(rows, i))
  {
    hide IsGarbage;
    if rows[i] == r && !IsGarbage(rows, i) {
      assert KeptFrom(rows, i, r);
    }
  }

  /** The rows kept are exactly the non-garbage ones. */
  lemma {:induction false} CleanMembers(rows: seq<Row>, i: nat, r: Row)
    requires i <= |rows|
    ensures r in CleanFrom(rows, i) <==> KeptFrom(rows, i, r)
    decreases |rows| - i
  {
    hide IsGarbage, KeptFrom;
    if i < |rows| {
      CleanMembers(rows, i + 1, r);
      KeptStep(rows, i, r);
    } else {
      NoneKept(rows, r);
    }
  }

  lemma NoneKept(rows: seq<Row>, r: Row)
    ensures !KeptFrom(rows, |rows|, r)
  {
  }

  lemma {:induction false} CleanStrict(rows: seq<Row>, i: nat)
    requires i <= |rows| && Strict(rows)
    ensures Strict(CleanFrom(rows, i))
    ensures forall k | 0 <= k < |CleanFrom(rows, i)| :: i < |rows| && CleanFrom(rows, i)[k].ts >= rows[i].ts
    decreases |rows| - i
  {
    hide IsGarbage;
    if i < |rows| {
      CleanStrict(rows, i + 1);
      var rest := CleanFrom(rows, i + 1);
      forall k | 0 <= k < |rest|
        ensures rest[k].ts > rows[i].ts
      {
        assert rest[k].ts >= rows[i + 1].ts;
      }
    }
  }

  lemma {:induction false} CleanAll(rows: seq<Row>, i: nat)
    requires i <= |rows| && forall k | i <= k < |rows| :: !IsGarbage(rows, k)
    ensures CleanFrom(rows, i) == rows[i..]
    decreases |rows| - i
  {
    if i < |rows| {
      CleanAll(rows, i + 1);
      assert rows[i..] == [rows[i]] + rows[i + 1..];
    }
  }

  /** No bar without a close survives, and the first and last bars of a table go only when
      their close is missing. */
  lemma MissingClosesGo(rows: seq<Row>)
    ensures forall r | r in DropGarbage(rows) :: r.close.Some?
    ensures rows != [] && rows[0].close.Some? ==> rows[0] in DropGarbage(rows)
    ensures rows != [] && rows[|rows| - 1].close.Some? ==> rows[|rows| - 1] in DropGarbage(rows)
  {
    forall r | r in DropGarbage(rows)
      ensures r.close.Some?
    {
      CleanMembers(rows, 0, r);
    }
    if rows != [] {
      CleanMembers(rows, 0, rows[0]);
      CleanMembers(rows, 0, rows[|rows| - 1]);
    }
  }

  /** A rally or a decline of prices that are not negative, however steep, passes unchanged. */
  lemma MonotonePasses(rows: seq<Row>)
    requires NonNegativeCloses(rows) && Monotone(rows)
    ensures DropGarbage(rows) == rows
  {
    forall k | 0 <= k < |rows|
      ensures !IsGarbage(rows, k)
    {
      if Comparable(rows, k) {
        assert k - 1 <= k <= k + 1;
      }
    }
    CleanAll(rows, 0);
  }

  /** A priced interior bar is dropped exactly when it is more than four times both neighbours,
      or both neighbours are more than four times it. */
  lemma DroppedIffFourfold(rows: seq<Row>, i: nat)
    requires Comparable(rows, i)
    ensures var prev, c, next := rows[i - 1].close.value, rows[i].close.value, rows[i + 1].close.value;
            IsGarbage(rows, i)
            <==> (c > 4.0 * prev && c > 4.0 * next) || (prev > 4.0 * c && next > 4.0 * c)
  {
  }

  /** Two adjacent bars can stick out the same way only if both closes are below zero, and then
      do exactly when each is more than four times the other and its outer neighbour is as far
      off on that side. */
  lemma SameWayIffNegative(rows: seq<Row>, i: nat)
    requires Comparable(rows, i) && Comparable(rows, i + 1)
    ensures var prev, a, b, next := rows[i - 1].close.value, rows[i].close.value, rows[i + 1].close.value, rows[i + 2].close.value;
            && (SpikedUp(rows, i) && SpikedUp(rows, i + 1)
                <==> a < 0.0 && b < 0.0 && a > 4.0 * b && b > 4.0 * a && a > 4.0 * prev && b > 4.0 * next)
            && (SpikedDown(rows, i) && SpikedDown(rows, i + 1)
                <==> a < 0.0 && b < 0.0 && a > 4.0 * b && b > 4.0 * a && prev > 4.0 * a && next > 4.0 * b)
  {
  }

  /** So of two adjacent dropped spikes, one of them at a close that is not below zero, one is
      up and the other down. */
  lemma AdjacentSpikesAlternate(rows: seq<Row>, i: nat)
    requires i + 1 < |rows| && rows[i].close.Some? && rows[i + 1].close.Some?
    requires rows[i].close.value >= 0.0 || rows[i + 1].close.value >= 0.0
    requires IsGarbage(rows, i) && IsGarbage(rows, i + 1)
    ensures SpikedUp(rows, i) <==> SpikedDown(rows, i + 1)
    ensures SpikedDown(rows, i) <==> SpikedUp(rows, i + 1)
  {
    SameWayIffNegative(rows, i);
  }

  function ScalePrice(price: real, k: real): real {
    price * k
  }

  function ScaleRow(r: Row, k: real): Row {
    if r.close.None? then r else r.(close := Some(ScalePrice(r.close.value, k)))
  }

  function ScaleRows(rows: seq<Row>, k: real): seq<Row> {
    seq(|rows|, i requires 0 <= i < |rows| => ScaleRow(rows[i], k))
  }

  lemma CompareScaled(a: real, b: real, factor: real, k: real)
    requires k > 0.0
    ensures a > b * factor <==> ScalePrice(a, k) > ScalePrice(b, k) * factor
    ensures a < b * factor <==> ScalePrice(a, k) < ScalePrice(b, k) * factor
  {
    CancelFactor(a, b * factor, k);
    CancelFactor(b * factor, a, k);
    assert b * factor * k == b * k * factor;
  }

  lemma SpikesScale(prev: real, c: real, next: real, k: real)
    requires k > 0.0
    ensures SpikeUp(ScalePrice(prev, k), ScalePrice(c, k), ScalePrice(next, k)) <==> SpikeUp(prev, c, next)
    ensures SpikeDown(ScalePrice(prev, k), ScalePrice(c, k), ScalePrice(next, k)) <==> SpikeDown(prev, c, next)
  {
    hide ScalePrice;
    CompareScaled(c, prev, 4.0, k);
    CompareScaled(c, next, 4.0, k);
    CompareScaled(c, prev, 0.25, k);
    CompareScaled(c, next, 0.25, k);
  }

  lemma GarbageScales(rows: seq<Row>, k: real, i: nat)
    requires k > 0.0 && i < |rows|
    ensures IsGarbage(ScaleRows(rows, k), i) <==> IsGarbage(rows, i)
  {
    hide SpikeUp, SpikeDown, ScalePrice;
    if Comparable(rows, i) {
      SpikesScale(rows[i - 1].close.value, rows[i].close.value, rows[i + 1].close.value, k);
    }
  }

  lemma {:induction false} CleanScales(rows: seq<Row>, k: real, i: nat)
    requires k > 0.0 && i <= |rows|
    ensures CleanFrom(ScaleRows(rows, k), i) == ScaleRows(CleanFrom(rows, i), k)
    decreases |rows| - i
  {
    hide IsGarbage;
    if i < |rows| {
      GarbageScales(rows, k, i);
      CleanScales(rows, k, i + 1);
    }
  }

  /** The price unit does not matter: quoting every close in pence rather than pounds drops
      the same rows. */
  lemma FilterIsScaleFree(rows: seq<Row>, k: real)
    requires k > 0.0
    ensures DropGarbage(ScaleRows(rows, k)) == ScaleRows(DropGarbage(rows), k)
  {
    CleanScales(rows, k, 0);
  }

  ghost predicate Flat(rows: seq<Row>, price: real) {
    forall i | 0 <= i < |rows| :: rows[i].close == Some(price)
  }

  /** The rules presuppose prices that are not negative: a flat series passes exactly when its
      price is not, or it has no interior bar; of any other only the ends survive. */
  lemma FlatSeriesPassesIff(rows: seq<Row>, price: real)
    requires Flat(rows, price)
    ensures DropGarbage(rows) == rows <==> price >= 0.0 || |rows| <= 2
    ensures price < 0.0 && |rows| >= 2 ==> DropGarbage(rows) == [rows[0], rows[|rows| - 1]]
  {
    hide DropGarbage;
    if price < 0.0 && |rows| >= 2 {
      InteriorDropped(rows, price, 1);
      DropFirst(rows);
    } else {
      CleanAll(rows, 0);
      DropsFromStart(rows);
    }
  }

  lemma DropsFromStart(rows: seq<Row>)
    ensures DropGarbage(rows) == CleanFrom(rows, 0)
  {
  }

  lemma DropFirst(rows: seq<Row>)
    requires rows != [] && !IsGarbage(rows, 0)
    ensures DropGarbage(rows) == [rows[0]] + CleanFrom(rows, 1)
  {
  }

  lemma {:induction false} InteriorDropped(rows: seq<Row>, price: real, i: nat)
    requires price < 0.0 && 1 <= i < |rows| && Flat(rows, price)
    ensures CleanFrom(rows, i) == [rows[|rows| - 1]]
    decreases |rows| - i
  {
    if i < |rows| - 1 {
      assert SpikedUp(rows, i);
      InteriorDropped(rows, price, i + 1);
    } else {
      assert CleanFrom(rows, |rows|) == [];
    }
  }
}
