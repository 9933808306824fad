/** The per-symbol EPS snapshot file (one snapshot a day, last write wins, at most 104 kept)
    and the 90-day revision read from it. Dates are day numbers. */
module EpsHistory {
  import opened Lists
  import Ordering

  datatype Snapshot = Snapshot(date: int, eps: Option<real>)

  const LIMIT := 104
  const LOOKBACK_DAYS := 90
  const WINDOW_DAYS := 7

  // ---------------------------------------------------------------- appending

  predicate ByDate(a: Snapshot, b: Snapshot) {
    a.date <= b.date
  }

  function Others(s: seq<Snapshot>, date: int): seq<Snapshot> {
    if s == [] then []
    else (if s[0].date != date then [s[0]] else []) + Others(s[1..], date)
  }

  /** The file with a snapshot added, before it is cut to size. */
  function Merged(file: seq<Snapshot>, snap: Snapshot): seq<Snapshot> {
    Ordering.Sort(ByDate, Others(file, snap.date) + [snap])
  }

  function LastOnes(s: seq<Snapshot>, n: nat): seq<Snapshot> {
    if |s| <= n then s else s[|s| - n..]
  }

  function Appended(file: seq<Snapshot>, snap: Snapshot): seq<Snapshot> {
    LastOnes(Merged(file, snap), LIMIT)
  }

  class EpsStore {
    var file: seq<Snapshot>

    constructor ()
      ensures file == []
    {
      file := [];
    }

    method Append(snap: Snapshot)
      modifies this
      ensures file == Appended(old(file), snap)
    {
      var existing := Others(file, snap.date);
      existing := existing + [snap];
      existing := Ordering.Sort(ByDate, existing);
      if |existing| > LIMIT {
        existing := existing[|existing| - LIMIT..];
      }
      file := existing;
    }
  }

  /** The file after a run of appends to an empty one. */
  function FileAfter(snaps: seq<Snapshot>): seq<Snapshot> {
    if snaps == [] then [] else Appended(FileAfter(snaps[..|snaps| - 1]), snaps[|snaps| - 1])
  }

  /** The same run without the size limit. */
  function FullAfter(snaps: seq<Snapshot>): seq<Snapshot> {
    if snaps == [] then [] else Merged(FullAfter(snaps[..|snaps| - 1]), snaps[|snaps| - 1])
  }

  /** Last write wins. */
  function Recorded(snaps: seq<Snapshot>): map<int, Snapshot> {
    if snaps == [] then map[]
    else Recorded(snaps[..|snaps| - 1])[snaps[|snaps| - 1].date := snaps[|snaps| - 1]]
  }

  // ---------------------------------------------------------------- what the file holds

  ghost predicate Strict(s: seq<Snapshot>) {
    forall j, k | 0 <= j < k < |s| :: s[j].date < s[k].date
  }

  ghost predicate Holds(m: map<int, Snapshot>, s: Snapshot) {
    s.date in m && m[s.date] == s
  }

  ghost predicate Keyed(m: map<int, Snapshot>) {
    forall d | d in m :: m[d].date == d
  }

  /** A full history: exactly the last write of every date, in date order. */
  ghost predicate IsFull(full: seq<Snapshot>, m: map<int, Snapshot>) {
    && Strict(full) && Keyed(m)
    && (forall k | 0 <= k < |full| :: Holds(m, full[k]))
    && (forall d | d in m :: m[d] in full)
  }

  /** The latest 104 dates: in date order, each with its last write, and a date is missing only
      when 104 later dates are present. */
  ghost predicate KeepsLatest(file: seq<Snapshot>, m: map<int, Snapshot>) {
    && Strict(file) && Keyed(m)
    && |file| <= 104
    && (forall k | 0 <= k < |file| :: Holds(m, file[k]))
    && (forall d | d in m && m[d] !in file :: |file| == 104 && d < file[0].date)
  }

  lemma {:induction false} OthersMember(s: seq<Snapshot>, date: int, x: Snapshot)
    ensures x in Others(s, date) <==> x in s && x.date != date
  {
    if s != [] {
      OthersMember(s[1..], date, x);
      assert s == [s[0]] + s[1..];
    }
  }

  ghost predicate DistinctDates(s: seq<Snapshot>) {
    forall j, k | 0 <= j < k < |s| :: s[j].date != s[k].date
  }

  lemma {:induction false} OthersStrict(s: seq<Snapshot>, date: int)
    requires Strict(s)
    ensures Strict(Others(s, date))
  {
    if s != [] {
      OthersStrict(s[1..], date);
      var rest := Others(s[1..], date);
      forall k | 0 <= k < |rest|
        ensures s[0].date < rest[k].date
      {
        OthersMember(s[1..], date, rest[k]);
      }
    }
  }

  lemma {:induction false} InsertStrict(x: Snapshot, s: seq<Snapshot>)
    requires Strict(s) && forall k | 0 <= k < |s| :: s[k].date != x.date
    ensures Strict(Ordering.Insert(ByDate, x, s))
  {
    if s != [] && !ByDate(x, s[0]) {
      InsertStrict(x, s[1..]);
      Ordering.InsertContents(ByDate, x, s[1..]);
      var rest := Ordering.Insert(ByDate, x, s[1..]);
      forall k | 0 <= k < |rest|
        ensures s[0].date < rest[k].date
      {
        assert rest[k] in multiset(rest);
        assert rest[k] == x || rest[k] in s[1..];
      }
    }
  }

  lemma {:induction false} SortStrict(s: seq<Snapshot>)
    requires DistinctDates(s)
    ensures Strict(Ordering.Sort(ByDate, s))
  {
    if s != [] {
      SortStrict(s[1..]);
      Ordering.SortContents(ByDate, s[1..]);
      var rest := Ordering.Sort(ByDate, s[1..]);
      forall k | 0 <= k < |rest|
        ensures rest[k].date != s[0].date
      {
        assert rest[k] in rest;
        assert rest[k] in s[1..];
      }
      InsertStrict(s[0], rest);
    }
  }

  /** Merging a snapshot into a date-ordered file replaces that date's entry, if any. */
  lemma MergedContents(file: seq<Snapshot>, snap: Snapshot)
    requires Strict(file)
    ensures Strict(Merged(file, snap))
    ensures forall x :: x in Merged(file, snap) <==> x == snap || (x in file && x.date != snap.date)
  {
    var kept := Others(file, snap.date);
    OthersStrict(file, snap.date);
    forall x
      ensures x in kept <==> x in file && x.date != snap.date
    {
      OthersMember(file, snap.date, x);
    }
    forall k | 0 <= k < |kept|
      ensures kept[k].date != snap.date
    {
      assert kept[k] in kept;
    }
    SortStrict(kept + [snap]);
    Ordering.SortContents(ByDate, kept + [snap]);
  }

  lemma AppendKeepsFull(full: seq<Snapshot>, m: map<int, Snapshot>, snap: Snapshot)
    requires IsFull(full, m)
    ensures IsFull(Merged(full, snap), m[snap.date := snap])
  {
    MergedContents(full, snap);
    var t, m' := Merged(full, snap), m[snap.date := snap];
    forall k | 0 <= k < |t|
      ensures Holds(m', t[k])
    {
      assert t[k] in t;
    }
  }

  lemma AppendKeepsLatest(file: seq<Snapshot>, m: map<int, Snapshot>, snap: Snapshot)
    requires KeepsLatest(file, m)
    ensures KeepsLatest(Appended(file, snap), m[snap.date := snap])
  {
    MergedContents(file, snap);
    MergedLength(file, snap);
    var t, r, m' := Merged(file, snap), Appended(file, snap), m[snap.date := snap];
    forall k | 0 <= k < |r|
      ensures Holds(m', r[k])
    {
      assert r[k] in t;
    }
    forall d | d in m' && m'[d] !in r
      ensures |r| == LIMIT && d < r[0].date
    {
      if m'[d] in t {
        assert |t| == LIMIT + 1 && r == t[1..] && m'[d] == t[0];
      } else {
        assert m[d] !in file;
        assert |file| == LIMIT && d < file[0].date;
        assert file[0] in file && file[LIMIT - 1] in file;
        MissingStaysMissing(file, snap, d);
      }
    }
  }

  lemma {:induction false} OthersLength(s: seq<Snapshot>, date: int)
    requires Strict(s)
    ensures |s| - 1 <= |Others(s, date)| <= |s|
  {
    if s != [] {
      if s[0].date == date {
        OthersAll(s[1..], date);
      } else {
        OthersLength(s[1..], date);
      }
    }
  }

  lemma {:induction false} OthersAll(s: seq<Snapshot>, date: int)
    requires forall k | 0 <= k < |s| :: s[k].date != date
    ensures Others(s, date) == s
  {
    if s != [] {
      OthersAll(s[1..], date);
    }
  }

  lemma MergedLength(file: seq<Snapshot>, snap: Snapshot)
    requires Strict(file)
    ensures |file| <= |Merged(file, snap)| <= |file| + 1
  {
    OthersLength(file, snap.date);
    Ordering.SortContents(ByDate, Others(file, snap.date) + [snap]);
  }

  /** A date older than a full file stays out of it and stays older. */
  lemma MissingStaysMissing(file: seq<Snapshot>, snap: Snapshot, d: int)
    requires Strict(file) && |file| == LIMIT && d < file[0].date && snap.date != d
    ensures |Appended(file, snap)| == LIMIT && d < Appended(file, snap)[0].date
  {
    MergedContents(file, snap);
    MergedLength(file, snap);
    var t, r := Merged(file, snap), Appended(file, snap);
    assert r[0] in t;
    if |t| == LIMIT + 1 {
      assert t[0] in t;
    } else {
      if forall k | 0 <= k < |file| :: file[k].date != snap.date {
        OthersAll(file, snap.date);
        Ordering.SortContents(ByDate, file + [snap]);
      }
      assert file[0] in file;
    }
  }

  lemma {:induction false} FullIsFull(snaps: seq<Snapshot>)
    ensures IsFull(FullAfter(snaps), Recorded(snaps))
  {
    if snaps != [] {
      FullIsFull(snaps[..|snaps| - 1]);
      AppendKeepsFull(FullAfter(snaps[..|snaps| - 1]), Recorded(snaps[..|snaps| - 1]), snaps[|snaps| - 1]);
    }
  }

  /** After any run of appends, in any date order, the file is the 104 latest dates of the
      last-write-wins history. */
  lemma {:induction false} FileKeepsLatest(snaps: seq<Snapshot>)
    ensures KeepsLatest(FileAfter(snaps), Recorded(snaps))
  {
    if snaps != [] {
      FileKeepsLatest(snaps[..|snaps| - 1]);
      AppendKeepsLatest(FileAfter(snaps[..|snaps| - 1]), Recorded(snaps[..|snaps| - 1]), snaps[|snaps| - 1]);
    }
  }
}
