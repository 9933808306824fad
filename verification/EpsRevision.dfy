/** The 90-day revision query, and when the bounded file answers like the full history. */
module EpsRevision {
  import opened Lists
  import opened Reals
  import opened Rounding
  import opened EpsHistory
  import Ordering

  datatype Direction = Up | Down | FlatRevision | InsufficientData

  datatype Report = Report(
    current: Option<real>, past: Option<real>, delta: Option<real>, direction: Direction,
    revisionPct: Option<real>, count: nat, asOf: Option<int>)

  const NO_DATA := Report(None, None, None, InsufficientData, None, 0, None)

  /** The first snapshot with the latest date. */
  function LatestOf(s: seq<Snapshot>): (r: Snapshot)
    requires s != []
    ensures r in s && forall k | 0 <= k < |s| :: s[k].date <= r.date
    ensures exists n :: 0 <= n < |s| && s[n] == r && forall k | 0 <= k < n :: s[k].date < r.date
  {
    if |s| == 1 then s[0]
    else
      var rest := LatestOf(s[1..]);
      assert forall k | 1 <= k < |s| :: s[k] == s[1..][k - 1];
      if s[0].date >= rest.date then s[0] else rest
  }

  /** The first snapshot with the earliest date. */
  function EarliestOf(s: seq<Snapshot>): (r: Snapshot)
    requires s != []
    ensures r in s && forall k | 0 <= k < |s| :: s[k].date >= r.date
    ensures exists n :: 0 <= n < |s| && s[n] == r && forall k | 0 <= k < n :: s[k].date > r.date
  {
    if |s| == 1 then s[0]
    else
      var rest := EarliestOf(s[1..]);
      assert forall k | 1 <= k < |s| :: s[k] == s[1..][k - 1];
      if s[0].date <= rest.date then s[0] else rest
  }

  predicate InWindow(s: Snapshot, today: int) {
    -WINDOW_DAYS <= s.date - (today - LOOKBACK_DAYS) <= WINDOW_DAYS && s.date <= today
  }

  predicate IsOld(s: Snapshot, today: int) {
    s.date - today <= -30
  }

  function Window(s: seq<Snapshot>, today: int): seq<Snapshot> {
    Filter((x: Snapshot) => InWindow(x, today), s)
  }

  function Old(s: seq<Snapshot>, today: int): seq<Snapshot> {
    Filter((x: Snapshot) => IsOld(x, today), s)
  }

  /** The snapshots the baseline is chosen from: those around 90 days ago, or failing that
      all that are at least 30 days old. */
  function Candidates(s: seq<Snapshot>, today: int): seq<Snapshot> {
    if Window(s, today) != [] then Window(s, today) else Old(s, today)
  }

  function Baseline(s: seq<Snapshot>, today: int): Option<Snapshot> {
    var candidates := Candidates(s, today);
    if candidates == [] then None else Some(EarliestOf(candidates))
  }

  function Magnitude(x: real): real {
    if x < 0.0 then -x else x
  }

  function DirectionOf(delta: real): Direction {
    if Magnitude(delta) < 0.01 then FlatRevision else if delta > 0.0 then Up else Down
  }

  function RevisionPct(delta: real, past: real): real
    requires past != 0.0
  {
    Round(delta / Magnitude(past) * 100.0, 100.0)
  }

  /** The report on a latest snapshot and a baseline. */
  function Answer(latest: Snapshot, baseline: Option<Snapshot>, count: nat): Report {
    if latest.eps.None? then NO_DATA
    else
      var current := latest.eps.value;
      if baseline.None? then
        Report(Some(current), None, None, InsufficientData, None, count, Some(latest.date))
      else if baseline.value.eps.None? || baseline.value.eps.value == 0.0 then NO_DATA
      else
        var past := baseline.value.eps.value;
        var delta := current - past;
        Report(Some(current), Some(past), Some(Round(delta, 10000.0)), DirectionOf(delta),
               Some(RevisionPct(delta, past)), count, Some(latest.date))
  }

  function Revision(s: seq<Snapshot>, today: int): Report {
    if s == [] then NO_DATA else Answer(LatestOf(s), Baseline(s, today), |s|)
  }

  /** What a full report says: the estimate rose or fell by at least a cent, or is flat; the
      delta is the difference to within its rounding, and the percentage, applied to the past
      estimate's size, gives the difference to within its own. */
  lemma AnswerMeans(latest: Snapshot, baseline: Snapshot, count: nat)
    requires latest.eps.Some? && baseline.eps.Some? && baseline.eps.value != 0.0
    ensures var r, current, past := Answer(latest, Some(baseline), count), latest.eps.value, baseline.eps.value;
            && r.current == Some(current) && r.past == Some(past) && r.asOf == Some(latest.date)
            && (r.direction == Up <==> current >= past + 0.01)
            && (r.direction == Down <==> current <= past - 0.01)
            && (r.direction == FlatRevision <==> past - 0.01 < current < past + 0.01)
            && r.delta.Some? && -0.00005 <= r.delta.value - (current - past) <= 0.00005
            && r.revisionPct.Some?
            && -0.005 * Magnitude(past) <= r.revisionPct.value * Magnitude(past) - 100.0 * (current - past)
                                        <= 0.005 * Magnitude(past)
  {
    hide Round;
    var delta, past := latest.eps.value - baseline.eps.value, baseline.eps.value;
    RoundedWithin(delta, 10000.0);
    PctWithin(delta, Magnitude(past));
  }

  lemma PctWithin(delta: real, size: real)
    requires size > 0.0
    ensures -0.005 * size <= Round(delta / size * 100.0, 100.0) * size - 100.0 * delta <= 0.005 * size
  {
    hide Round;
    var x := delta / size * 100.0;
    RoundedWithin(x, 100.0);
    assert x * size == 100.0 * delta;
    ErrorScales(Round(x, 100.0), x, size);
  }

  lemma ErrorScales(rounded: real, x: real, size: real)
    requires size > 0.0 && -0.005 <= rounded - x <= 0.005
    ensures -0.005 * size <= rounded * size - x * size <= 0.005 * size
  {
    var d := rounded - x;
    assert d * size == rounded * size - x * size;
    CancelFactor(0.005, d, size);
    CancelFactor(d, -0.005, size);
  }

  // ---------------------------------------------------------------- which snapshots matter

  ghost predicate SameMembers(a: seq<Snapshot>, b: seq<Snapshot>) {
    forall x :: x in a <==> x in b
  }

  /** With one snapshot per date the extremes depend only on which snapshots there are. */
  lemma ExtremesAgree(a: seq<Snapshot>, b: seq<Snapshot>)
    requires a != [] && b != [] && SameMembers(a, b)
    requires forall x, y | x in a && y in a && x.date == y.date :: x == y
    ensures LatestOf(a) == LatestOf(b) && EarliestOf(a) == EarliestOf(b)
  {
    var la, lb, ea, eb := LatestOf(a), LatestOf(b), EarliestOf(a), EarliestOf(b);
    assert la in b && lb in a && ea in b && eb in a;
  }

  lemma {:induction false} SpreadOfDates(s: seq<Snapshot>, k: nat)
    requires Strict(s) && k < |s|
    ensures s[k].date >= s[0].date + k
  {
    if k > 0 {
      SpreadOfDates(s, k - 1);
      assert s[k - 1].date < s[k].date;
    }
  }

  ghost predicate NotAfter(s: seq<Snapshot>, today: int) {
    forall x | x in s :: x.date <= today
  }

  ghost predicate HasWindow(s: seq<Snapshot>, today: int) {
    exists x :: x in s && InWindow(x, today)
  }

  lemma FileIsPartOfFull(file: seq<Snapshot>, full: seq<Snapshot>, m: map<int, Snapshot>, x: Snapshot)
    requires IsFull(full, m) && KeepsLatest(file, m)
    ensures x in file ==> x in full
    ensures x in full && x !in file ==> |file| == LIMIT && x.date < file[0].date
  {
    if x in file {
      var k :| 0 <= k < |file| && file[k] == x;
      assert m[x.date] == x;
    } else if x in full {
      var k :| 0 <= k < |full| && full[k] == x;
      assert m[x.date] == x;
    }
  }

  /** Pigeonhole: a snapshot from the last 103 days cannot have 104 later dates before today,
      so it is still in the file. */
  lemma RecentIsKept(file: seq<Snapshot>, full: seq<Snapshot>, m: map<int, Snapshot>, today: int, x: Snapshot)
    requires IsFull(full, m) && KeepsLatest(file, m) && NotAfter(full, today)
    requires x in full && x.date > today - LIMIT
    ensures x in file
  {
    FileIsPartOfFull(file, full, m, x);
    if x !in file {
      SpreadOfDates(file, LIMIT - 1);
      FileIsPartOfFull(file, full, m, file[LIMIT - 1]);
    }
  }

  lemma WindowIsRecent(x: Snapshot, today: int)
    requires InWindow(x, today)
    ensures x.date > today - LIMIT
  {
  }

  lemma WindowMember(s: seq<Snapshot>, today: int, x: Snapshot)
    ensures x in Window(s, today) <==> x in s && InWindow(x, today)
    ensures x in Old(s, today) <==> x in s && IsOld(x, today)
  {
    FilterMember((y: Snapshot) => InWindow(y, today), s, x);
    FilterMember((y: Snapshot) => IsOld(y, today), s, x);
  }

  /** What the candidates are, as a set. */
  lemma CandidatesAre(s: seq<Snapshot>, today: int)
    ensures forall x :: x in Candidates(s, today)
                   <==> x in s && (if HasWindow(s, today) then InWindow(x, today) else IsOld(x, today))
  {
    hide Window, Old, InWindow, IsOld;
    forall x
      ensures x in Window(s, today) <==> x in s && InWindow(x, today)
      ensures x in Old(s, today) <==> x in s && IsOld(x, today)
    {
      WindowMember(s, today, x);
    }
    assert Window(s, today) != [] ==> Window(s, today)[0] in Window(s, today);
    assert HasWindow(s, today) <==> Window(s, today) != [];
  }

  /** The first snapshot with the earliest date among those that satisfy `p`. */
  ghost predicate IsEarliest(s: seq<Snapshot>, p: Snapshot -> bool, b: Snapshot) {
    b in s && p(b) && forall x | x in s && p(x) :: b.date <= x.date
  }

  lemma BaselineMeans(s: seq<Snapshot>, today: int)
    ensures var around := (x: Snapshot) => today - 97 <= x.date <= today - 83;
            var old30 := (x: Snapshot) => x.date <= today - 30;
            match Baseline(s, today)
            case Some(b) => IsEarliest(s, around, b) || ((forall x | x in s :: !around(x)) && IsEarliest(s, old30, b))
            case None => forall x | x in s :: !around(x) && !old30(x)
  {
    hide Candidates;
    CandidatesAre(s, today);
    var candidates := Candidates(s, today);
    if candidates == [] {
      assert forall x | x in s :: x !in candidates;
    } else {
      var b := EarliestOf(candidates);
      forall x | x in s && x in candidates
        ensures b.date <= x.date
      {
        var k :| 0 <= k < |candidates| && candidates[k] == x;
      }
      assert b in s;
    }
  }

  /** The whole answer, by the snapshots on file. With no snapshot, no estimate in the latest or
      none to compare with in the baseline there is no data; with nothing in the window and
      nothing 30 days old the current estimate stands alone; otherwise the two are compared. */
  lemma RevisionMeans(s: seq<Snapshot>, today: int)
    ensures var r, noData := Revision(s, today), Report(None, None, None, InsufficientData, None, 0, None);
            if s == [] || LatestOf(s).eps.None? then r == noData
            else
              var latest := LatestOf(s);
              match Baseline(s, today)
              case None => r == Report(latest.eps, None, None, InsufficientData, None, |s|, Some(latest.date))
              case Some(b) =>
                if b.eps.None? || b.eps.value == 0.0 then r == noData
                else r.current == latest.eps && r.past == b.eps && r.delta.Some? && r.revisionPct.Some?
                     && r.direction != InsufficientData && r.count == |s| && r.asOf == Some(latest.date)
  {
    hide Baseline, Round, RevisionPct;
  }

  /** The current estimate stands alone exactly when it exists and no snapshot is within 7 days
      of today-90 or at least 30 days old. */
  lemma InsufficientIff(s: seq<Snapshot>, today: int)
    ensures var r := Revision(s, today);
            && (r.current.Some? && r.past.None?
                <==> s != [] && LatestOf(s).eps.Some?
                     && forall x | x in s :: !(today - 97 <= x.date <= today - 83) && !(x.date <= today - 30))
            && (r.current.Some? && r.past.None? ==>
                  r == Report(LatestOf(s).eps, None, None, InsufficientData, None, |s|, Some(LatestOf(s).date)))
  {
    hide Baseline, Answer;
    RevisionMeans(s, today);
    BaselineMeans(s, today);
  }

  /** There is no data exactly when nothing is on file, the latest snapshot has no estimate, or
      the baseline, the oldest in the window or else the oldest of 30 days or more, has none or
      zero. */
  lemma NoDataIff(s: seq<Snapshot>, today: int)
    ensures Revision(s, today).current.None?
            <==> s == [] || LatestOf(s).eps.None?
                 || exists b :: b in s && Baseline(s, today) == Some(b) && (b.eps.None? || b.eps.value == 0.0)
    ensures Revision(s, today).current.None? ==> Revision(s, today) == Report(None, None, None, InsufficientData, None, 0, None)
  {
    hide Baseline, Answer;
    RevisionMeans(s, today);
    BaselineMeans(s, today);
  }

  /** How far a date is from 90 days ago. */
  function Distance(date: int, today: int): nat {
    var d := date - (today - LOOKBACK_DAYS);
    if d < 0 then -d else d
  }

  /** The baseline is the oldest snapshot of the window, which is the closest one to 90 days
      ago exactly when no snapshot is dated strictly between it and its mirror image on the
      other side of that day. */
  lemma BaselineIsClosestIff(s: seq<Snapshot>, today: int)
    requires HasWindow(s, today)
    ensures Baseline(s, today).Some?
    ensures var b := Baseline(s, today).value.date;
            (forall x | x in s :: Distance(b, today) <= Distance(x.date, today))
            <==> !exists x :: x in s && b < x.date < 2 * (today - LOOKBACK_DAYS) - b
  {
    hide Candidates;
    CandidatesAre(s, today);
    var w :| w in s && InWindow(w, today);
    assert w in Candidates(s, today);
    var b := Baseline(s, today).value;
    forall x | x in s
      ensures Distance(x.date, today) < Distance(b.date, today) <==> b.date < x.date < 2 * (today - LOOKBACK_DAYS) - b.date
    {
      if Distance(x.date, today) < Distance(b.date, today) {
        assert x in Candidates(s, today);
      }
    }
  }

  lemma UniqueDates(full: seq<Snapshot>, m: map<int, Snapshot>)
    requires IsFull(full, m)
    ensures forall x, y | x in full && y in full && x.date == y.date :: x == y
  {
  }

  /** Equal as answers: everything but the number of snapshots on file. */
  predicate SameAnswer(a: Report, b: Report) {
    a.(count := 0) == b.(count := 0)
  }

  lemma NewestIsKept(file: seq<Snapshot>, full: seq<Snapshot>, m: map<int, Snapshot>)
    requires IsFull(full, m) && KeepsLatest(file, m) && full != []
    ensures file != [] && LatestOf(file) == LatestOf(full)
  {
    var x := LatestOf(full);
    FileIsPartOfFull(file, full, m, x);
    if x !in file {
      FileIsPartOfFull(file, full, m, file[0]);
    }
    FileIsPartOfFull(file, full, m, LatestOf(file));
    UniqueDates(full, m);
  }

  lemma AnswerIgnoresCount(latest: Snapshot, baseline: Option<Snapshot>, a: nat, b: nat)
    ensures SameAnswer(Answer(latest, baseline, a), Answer(latest, baseline, b))
  {
    hide Round, RevisionPct, DirectionOf;
  }

  lemma SameBaselineSameAnswer(file: seq<Snapshot>, full: seq<Snapshot>, m: map<int, Snapshot>, today: int)
    requires IsFull(full, m) && KeepsLatest(file, m)
    requires Baseline(file, today) == Baseline(full, today)
    ensures SameAnswer(Revision(file, today), Revision(full, today))
  {
    hide Answer, Baseline;
    if full == [] {
      if file != [] {
        FileIsPartOfFull(file, full, m, file[0]);
      }
    } else {
      NewestIsKept(file, full, m);
      AnswerIgnoresCount(LatestOf(full), Baseline(full, today), |file|, |full|);
    }
  }

  /** With a snapshot around 90 days ago, file and full history choose the same baseline. */
  lemma WindowBaseline(file: seq<Snapshot>, full: seq<Snapshot>, m: map<int, Snapshot>, today: int)
    requires IsFull(full, m) && KeepsLatest(file, m) && NotAfter(full, today) && HasWindow(full, today)
    ensures Baseline(file, today) == Baseline(full, today)
  {
    forall x | x in full && InWindow(x, today)
      ensures x in file
    {
      WindowIsRecent(x, today);
      RecentIsKept(file, full, m, today, x);
    }
    forall x
      ensures x in file ==> x in full
    {
      FileIsPartOfFull(file, full, m, x);
    }
    CandidatesAre(file, today);
    CandidatesAre(full, today);
    var w :| w in full && InWindow(w, today);
    assert w in Candidates(file, today) && w in Candidates(full, today);
    UniqueDates(full, m);
    ExtremesAgree(Candidates(file, today), Candidates(full, today));
  }

  /** The file holds the whole history exactly when the history is no longer than the limit. */
  lemma NothingEvictedIff(file: seq<Snapshot>, full: seq<Snapshot>, m: map<int, Snapshot>)
    requires IsFull(full, m) && KeepsLatest(file, m)
    ensures SameMembers(file, full) <==> |full| <= LIMIT
    ensures |full| > LIMIT ==> full[0] !in file
  {
    forall x
      ensures x in file ==> x in full
    {
      FileIsPartOfFull(file, full, m, x);
    }
    if |full| <= LIMIT {
      forall x | x in full
        ensures x in file
      {
        FileIsPartOfFull(file, full, m, x);
        if x !in file {
          Ordering.DistinctInside([x] + file, full);
        }
      }
    } else {
      if full[0] in file {
        forall k | 0 <= k < |full|
          ensures full[k] in file
        {
          FileIsPartOfFull(file, full, m, full[k]);
          FileIsPartOfFull(file, full, m, file[0]);
        }
        Ordering.DistinctInside(full, file);
      }
      assert full[0] in full;
    }
  }

  /** The file chooses the baseline of the full history exactly when the history has a
      snapshot around 90 days ago or nothing has been evicted; and then the whole answer is
      the same. */
  lemma FileAnswersLikeFull(file: seq<Snapshot>, full: seq<Snapshot>, m: map<int, Snapshot>, today: int)
    requires IsFull(full, m) && KeepsLatest(file, m) && NotAfter(full, today)
    ensures Baseline(file, today) == Baseline(full, today) <==> HasWindow(full, today) || |full| <= LIMIT
    ensures HasWindow(full, today) || |full| <= LIMIT ==> SameAnswer(Revision(file, today), Revision(full, today))
  {
    NothingEvictedIff(file, full, m);
    if HasWindow(full, today) {
      WindowBaseline(file, full, m, today);
    } else if |full| <= LIMIT {
      WholeHistoryBaseline(file, full, m, today);
    } else {
      EvictedBaseline(file, full, m, today);
    }
    if Baseline(file, today) == Baseline(full, today) {
      SameBaselineSameAnswer(file, full, m, today);
    }
  }

  lemma WholeHistoryBaseline(file: seq<Snapshot>, full: seq<Snapshot>, m: map<int, Snapshot>, today: int)
    requires IsFull(full, m) && SameMembers(file, full)
    ensures Baseline(file, today) == Baseline(full, today)
  {
    CandidatesAre(file, today);
    CandidatesAre(full, today);
    UniqueDates(full, m);
    var a, b := Candidates(file, today), Candidates(full, today);
    assert SameMembers(a, b);
    assert a != [] ==> a[0] in a;
    if b != [] {
      assert b[0] in b;
      ExtremesAgree(a, b);
    }
  }

  lemma EvictedBaseline(file: seq<Snapshot>, full: seq<Snapshot>, m: map<int, Snapshot>, today: int)
    requires IsFull(full, m) && KeepsLatest(file, m) && NotAfter(full, today)
    requires !HasWindow(full, today) && |full| > LIMIT && full[0] !in file
    ensures Baseline(file, today) != Baseline(full, today)
  {
    CandidatesAre(file, today);
    CandidatesAre(full, today);
    SpreadOfDates(full, LIMIT);
    assert full[LIMIT] in full && full[0] in full;
    assert full[0] in Candidates(full, today);
    var e := EarliestOf(Candidates(full, today));
    UniqueDates(full, m);
    assert e == full[0];
  }

  /** The same over any run of daily appends, none dated after the day of the query. */
  lemma BoundedStoreRefinesHistory(snaps: seq<Snapshot>, today: int)
    requires forall k | 0 <= k < |snaps| :: snaps[k].date <= today
    ensures var file, full := FileAfter(snaps), FullAfter(snaps);
            && (Baseline(file, today) == Baseline(full, today) <==> HasWindow(full, today) || |full| <= LIMIT)
            && (HasWindow(full, today) || |full| <= LIMIT ==>
                  SameAnswer(Revision(file, today), Revision(full, today)))
  {
    FullIsFull(snaps);
    FileKeepsLatest(snaps);
    RecordedAreAppends(snaps);
    assert NotAfter(FullAfter(snaps), today);
    FileAnswersLikeFull(FileAfter(snaps), FullAfter(snaps), Recorded(snaps), today);
  }

  lemma {:induction false} RecordedAreAppends(snaps: seq<Snapshot>)
    ensures forall d | d in Recorded(snaps) :: Recorded(snaps)[d] in snaps
  {
    if snaps != [] {
      RecordedAreAppends(snaps[..|snaps| - 1]);
    }
  }

  // ---------------------------------------------------------------- where they differ

  function On(day: int): Snapshot {
    Snapshot(day, Some(day as real + 1.0))
  }

  function Daily(from: int, n: nat): seq<Snapshot> {
    seq(n, k => On(from + k))
  }

  function DailyMap(n: nat): map<int, Snapshot> {
    map d | 0 <= d < n :: On(d)
  }

  lemma DailyIsEvictedHistory(n: nat)
    requires n > LIMIT
    ensures IsFull(Daily(0, n), DailyMap(n)) && KeepsLatest(Daily(n - LIMIT, LIMIT), DailyMap(n))
  {
    hide Daily;
    DailyAt(0, n);
    DailyAt(n - LIMIT, LIMIT);
    var full, file, m := Daily(0, n), Daily(n - LIMIT, LIMIT), DailyMap(n);
    forall d | d in m
      ensures m[d] in full && (m[d] !in file ==> d < file[0].date)
    {
      assert full[d] == m[d];
      if d >= n - LIMIT {
        assert file[d - (n - LIMIT)] == m[d];
      }
    }
  }

  lemma DailyAt(from: int, n: nat)
    ensures |Daily(from, n)| == n && forall k | 0 <= k < n :: Daily(from, n)[k] == On(from + k)
  {
  }

  lemma DailyDates(from: int, n: nat, x: Snapshot)
    requires x in Daily(from, n)
    ensures from <= x.date < from + n && x == On(x.date)
  {
    var s := Daily(from, n);
    var k :| 0 <= k < |s| && s[k] == x;
    assert s[k] == On(from + k);
  }

  lemma OldestOfDaily(from: int, n: nat, today: int)
    requires 0 <= from && n > 0 && from + n <= today - LOOKBACK_DAYS - WINDOW_DAYS
    ensures Revision(Daily(from, n), today).past == Some(from as real + 1.0)
  {
    hide Round, RevisionPct, DirectionOf, Magnitude, Candidates;
    var s := Daily(from, n);
    forall x | x in s
      ensures from <= x.date < from + n && x == On(x.date)
    {
      DailyDates(from, n, x);
    }
    CandidatesAre(s, today);
    assert s[0] == On(from) && s[0] in s;
    assert s[0] in Candidates(s, today);
    var e := EarliestOf(Candidates(s, today));
    assert e.date == from;
    assert Baseline(s, today) == Some(e) && e == On(from);
    assert On(from).eps.value != 0.0;
    assert LatestOf(s).eps.Some?;
  }

  /** With no history around 90 days ago the fallback takes the oldest snapshot on file, so
      an eviction changes the answer: daily snapshots from day 0, queried at least 97 days
      after the last, give day 0's estimate on the full history and a later day's on file. */
  lemma FallbackDiffers(n: nat, today: int)
    requires n > LIMIT && n <= today - LOOKBACK_DAYS - WINDOW_DAYS
    ensures IsFull(Daily(0, n), DailyMap(n)) && KeepsLatest(Daily(n - LIMIT, LIMIT), DailyMap(n))
    ensures Revision(Daily(0, n), today).past == Some(1.0)
    ensures Revision(Daily(n - LIMIT, LIMIT), today).past == Some((n - LIMIT) as real + 1.0)
  {
    hide Revision, IsFull, KeepsLatest;
    DailyIsEvictedHistory(n);
    OldestOfDaily(0, n, today);
    OldestOfDaily(n - LIMIT, LIMIT, today);
  }
}
