/** The garbage-bar alarm: every refresh reports the recent bar-dates it dropped, a persisted
    memory suppresses the ones already reported, and that memory is pruned after 7 days.
    Bar-dates and run dates are day numbers; clock readings are integers, DAY to the day. */
module AlarmOnce {
  import opened Lists

  const DAY := 86400
  const RECENT_DAYS := 5
  const RETENTION := 7 * DAY

  datatype Key = Key(provider: string, symbol: string, bar: int)

  // ---------------------------------------------------------------- one refresh

  /** The dates dropped that are at most 5 days old, in order, a date once for each of its bars. */
  function RecentDates(dropped: seq<int>, today: int): seq<int> {
    if dropped == [] then []
    else if today - dropped[0] <= RECENT_DAYS then [dropped[0]] + RecentDates(dropped[1..], today)
    else RecentDates(dropped[1..], today)
  }

  lemma {:induction false} RecentCount(dropped: seq<int>, today: int, d: int)
    ensures multiset(RecentDates(dropped, today))[d] == if today - d <= 5 then multiset(dropped)[d] else 0
  {
    if dropped != [] {
      RecentCount(dropped[1..], today, d);
      assert dropped == [dropped[0]] + dropped[1..];
    }
  }

  lemma {:induction false} RecentInOrder(dropped: seq<int>, today: int)
    ensures Subsequence(RecentDates(dropped, today), dropped)
  {
    if dropped != [] {
      hide Subsequence;
      RecentInOrder(dropped[1..], today);
      SubsequenceStep(dropped[0], RecentDates(dropped[1..], today), dropped[1..]);
      assert dropped == [dropped[0]] + dropped[1..];
    } else {
      assert Subsequence<int>([], []);
    }
  }

  /** The dates reported are those dropped at most 5 days ago, each as often as it was, in
      order. */
  lemma RecentMeans(dropped: seq<int>, today: int)
    ensures Subsequence(RecentDates(dropped, today), dropped)
    ensures forall d :: multiset(RecentDates(dropped, today))[d] == if today - d <= 5 then multiset(dropped)[d] else 0
  {
    RecentInOrder(dropped, today);
    forall d
      ensures multiset(RecentDates(dropped, today))[d] == if today - d <= 5 then multiset(dropped)[d] else 0
    {
      RecentCount(dropped, today, d);
    }
  }

  function Pruned(seen: map<Key, int>, now: int): map<Key, int> {
    map k | k in seen && seen[k] >= now - RETENTION :: seen[k]
  }

  function Unseen(seen: map<Key, int>, provider: string, symbol: string, dates: seq<int>): (r: seq<int>)
    ensures forall d :: d in r <==> d in dates && Key(provider, symbol, d) !in seen
  {
    if dates == [] then []
    else if Key(provider, symbol, dates[0]) in seen then Unseen(seen, provider, symbol, dates[1..])
    else [dates[0]] + Unseen(seen, provider, symbol, dates[1..])
  }

  lemma {:induction false} UnseenInOrder(seen: map<Key, int>, provider: string, symbol: string, dates: seq<int>)
    ensures Subsequence(Unseen(seen, provider, symbol, dates), dates)
  {
    if dates != [] {
      hide Subsequence;
      UnseenInOrder(seen, provider, symbol, dates[1..]);
      SubsequenceStep(dates[0], Unseen(seen, provider, symbol, dates[1..]), dates[1..]);
      assert dates == [dates[0]] + dates[1..];
    } else {
      assert Subsequence<int>([], []);
    }
  }

  lemma {:induction false} UnseenCount(seen: map<Key, int>, provider: string, symbol: string, dates: seq<int>, d: int)
    ensures multiset(Unseen(seen, provider, symbol, dates))[d]
         == if Key(provider, symbol, d) in seen then 0 else multiset(dates)[d]
  {
    if dates != [] {
      UnseenCount(seen, provider, symbol, dates[1..], d);
      assert dates == [dates[0]] + dates[1..];
    }
  }

  /** The memory after noting the dates as alarmed now. */
  function Marked(seen: map<Key, int>, provider: string, symbol: string, dates: seq<int>, now: int): map<Key, int> {
    if dates == [] then seen
    else
      var n := |dates| - 1;
      Marked(seen, provider, symbol, dates[..n], now)[Key(provider, symbol, dates[n]) := now]
  }

  lemma NothingMarked(seen: map<Key, int>, provider: string, symbol: string, now: int)
    ensures Marked(seen, provider, symbol, [], now) == seen
  {
  }

  lemma MarkedSnoc(seen: map<Key, int>, provider: string, symbol: string, dates: seq<int>, i: nat, now: int)
    requires i < |dates|
    ensures Marked(seen, provider, symbol, dates[..i + 1], now)
         == Marked(seen, provider, symbol, dates[..i], now)[Key(provider, symbol, dates[i]) := now]
  {
    assert dates[..i + 1][..i] == dates[..i];
  }

  lemma {:induction false} MarkedAt(seen: map<Key, int>, provider: string, symbol: string, dates: seq<int>, now: int, k: Key)
    ensures var m, marked :=
              Marked(seen, provider, symbol, dates, now), k.provider == provider && k.symbol == symbol && k.bar in dates;
            && (k in m <==> k in seen || marked)
            && (k in m ==> m[k] == if marked then now else seen[k])
  {
    if dates != [] {
      var n := |dates| - 1;
      assert dates == dates[..n] + [dates[n]];
      MarkedAt(seen, provider, symbol, dates[..n], now, k);
    }
  }

  /** What is alarmed, and the memory afterwards. Nothing recent leaves the memory unread. */
  function FirstSightings(seen: map<Key, int>, provider: string, symbol: string, recent: seq<int>, now: int): seq<int> {
    if recent == [] then [] else Unseen(Pruned(seen, now), provider, symbol, recent)
  }

  function Remembered(seen: map<Key, int>, provider: string, symbol: string, recent: seq<int>, now: int): map<Key, int> {
    if recent == [] then seen
    else Marked(Pruned(seen, now), provider, symbol, FirstSightings(seen, provider, symbol, recent, now), now)
  }

  /** A bar alarmed at most 7 days ago. */
  predicate AlarmedLately(seen: map<Key, int>, k: Key, now: int) {
    k in seen && now - seen[k] <= 7 * 86400
  }

  /** The dates alarmed are the recent ones not alarmed lately, each as often as it is given and
      in the order given. */
  ghost predicate AreSightings(alarmed: seq<int>, seen: map<Key, int>, provider: string, symbol: string, recent: seq<int>, now: int) {
    && Subsequence(alarmed, recent)
    && forall d :: multiset(alarmed)[d]
                   == if AlarmedLately(seen, Key(provider, symbol, d), now) then 0 else multiset(recent)[d]
  }

  lemma SightingsMean(seen: map<Key, int>, provider: string, symbol: string, recent: seq<int>, now: int)
    ensures AreSightings(FirstSightings(seen, provider, symbol, recent, now), seen, provider, symbol, recent, now)
  {
    UnseenInOrder(Pruned(seen, now), provider, symbol, recent);
    forall d
      ensures multiset(Unseen(Pruned(seen, now), provider, symbol, recent))[d]
           == if Key(provider, symbol, d) in Pruned(seen, now) then 0 else multiset(recent)[d]
    {
      UnseenCount(Pruned(seen, now), provider, symbol, recent, d);
    }
  }

  /** What is remembered afterwards: nothing changes when nothing is recent; otherwise what was
      alarmed lately keeps its time, the recent dates that were not are noted now, and all older
      entries are forgotten. */
  ghost predicate IsMemory(after: map<Key, int>, seen: map<Key, int>, provider: string, symbol: string, recent: seq<int>, now: int) {
    if recent == [] then after == seen
    else
      forall k: Key ::
        var noted := k.provider == provider && k.symbol == symbol && k.bar in recent;
        if AlarmedLately(seen, k, now) then k in after && after[k] == seen[k]
        else if noted then k in after && after[k] == now
        else k !in after
  }

  lemma MemoryMeans(seen: map<Key, int>, provider: string, symbol: string, recent: seq<int>, now: int)
    ensures IsMemory(Remembered(seen, provider, symbol, recent, now), seen, provider, symbol, recent, now)
  {
    if recent != [] {
      var kept := Pruned(seen, now);
      var alarmed := Unseen(kept, provider, symbol, recent);
      forall k
        ensures k in kept <==> AlarmedLately(seen, k, now)
        ensures var m := Remembered(seen, provider, symbol, recent, now);
                var marked := k.provider == provider && k.symbol == symbol && k.bar in alarmed;
                && (k in m <==> k in kept || marked)
                && (k in m ==> m[k] == if marked then now else kept[k])
      {
        MarkedAt(kept, provider, symbol, alarmed, now, k);
      }
      assert forall k: Key | k.provider == provider && k.symbol == symbol :: k == Key(provider, symbol, k.bar);
    }
  }

  class AlarmState {
    var seen: map<Key, int>

    constructor ()
      ensures seen == map[]
    {
      seen := map[];
    }

    method FirstSightingOnly(provider: string, symbol: string, recent: seq<int>, now: int) returns (alarmed: seq<int>)
      modifies this
      ensures alarmed == FirstSightings(old(seen), provider, symbol, recent, now)
      ensures AreSightings(alarmed, old(seen), provider, symbol, recent, now)
      ensures seen == Remembered(old(seen), provider, symbol, recent, now)
      ensures IsMemory(seen, old(seen), provider, symbol, recent, now)
    {
      hide AreSightings, IsMemory, Pruned, Unseen, Marked;
      MemoryMeans(seen, provider, symbol, recent, now);
      SightingsMean(seen, provider, symbol, recent, now);
      if recent == [] {
        return recent;
      }
      var kept := Pruned(seen, now);
      alarmed := Unseen(kept, provider, symbol, recent);
      seen := kept;
      NothingMarked(kept, provider, symbol, now);
      assert alarmed[..0] == [];
      for i := 0 to |alarmed|
        invariant seen == Marked(kept, provider, symbol, alarmed[..i], now)
      {
        MarkedSnoc(kept, provider, symbol, alarmed, i, now);
        seen := seen[Key(provider, symbol, alarmed[i]) := now];
      }
      assert alarmed[..|alarmed|] == alarmed;
    }
  }

  // ---------------------------------------------------------------- runs

  /** One refresh: the bar-dates it dropped, the UTC clock, and the offset of the local
      calendar its `today` is read from. */
  datatype Refresh = Refresh(provider: string, symbol: string, dropped: seq<int>, now: int, offset: int) {
    function Today(): int {
      (now + offset) / DAY
    }

    function Recent(): seq<int> {
      RecentDates(dropped, Today())
    }

    /** This refresh drops the key's bar while it counts as recent. */
    predicate Drops(k: Key) {
      k.provider == provider && k.symbol == symbol && k.bar in dropped && Today() - k.bar <= RECENT_DAYS
    }

    /** How often the alarm of this refresh mentions the key. */
    function Mentions(seen: map<Key, int>, k: Key): nat {
      if k.provider == provider && k.symbol == symbol
      then multiset(FirstSightings(seen, provider, symbol, Recent(), now))[k.bar]
      else 0
    }
  }

  function SeenAfter(run: seq<Refresh>): map<Key, int> {
    if run == [] then map[]
    else
      var c := run[|run| - 1];
      Remembered(SeenAfter(run[..|run| - 1]), c.provider, c.symbol, c.Recent(), c.now)
  }

  /** How many refreshes of the run alarm the key. */
  function AlarmCount(run: seq<Refresh>, k: Key): nat {
    if run == [] then 0
    else
      var init := run[..|run| - 1];
      AlarmCount(init, k) + if run[|run| - 1].Mentions(SeenAfter(init), k) > 0 then 1 else 0
  }

  /** How often all their alarms together mention it. */
  function MentionCount(run: seq<Refresh>, k: Key): nat {
    if run == [] then 0
    else
      var init := run[..|run| - 1];
      MentionCount(init, k) + run[|run| - 1].Mentions(SeenAfter(init), k)
  }

  ghost predicate EverDropped(run: seq<Refresh>, k: Key) {
    exists c :: c in run && c.Drops(k)
  }

  ghost predicate Monotone(run: seq<Refresh>) {
    forall i, j | 0 <= i < j < |run| :: run[i].now <= run[j].now
  }

  /** Calendar offsets stay in a band of width `slack`, and a dropped bar is dated at most
      `ahead` days after the refresh that drops it. */
  ghost predicate Plausible(run: seq<Refresh>, k: Key, base: int, slack: int, ahead: int) {
    forall c | c in run ::
      && base <= c.offset <= base + slack
      && (c.Drops(k) ==> k.bar <= c.Today() + ahead)
  }

  // ---------------------------------------------------------------- retention outlasts recency

  /** Two refreshes that both drop a bar while it is recent are at most 7 days apart. */
  lemma RecentWithinRetention(a: Refresh, b: Refresh, k: Key, base: int, slack: int, ahead: int)
    requires ahead * DAY + slack <= DAY + 1
    requires Plausible([a, b], k, base, slack, ahead) && a.Drops(k) && b.Drops(k)
    ensures b.now - a.now <= RETENTION
  {
    assert a in [a, b] && b in [a, b];
    assert b.Today() * DAY <= b.now + b.offset < (b.Today() + 1) * DAY;
    assert a.Today() * DAY <= a.now + a.offset;
    assert b.Today() <= a.Today() + ahead + RECENT_DAYS;
  }

  lemma AlarmsIff(c: Refresh, seen: map<Key, int>, k: Key)
    ensures c.Mentions(seen, k) == if c.Drops(k) && k !in Pruned(seen, c.now) then multiset(c.dropped)[k.bar] else 0
    ensures c.Drops(k) ==> multiset(c.dropped)[k.bar] > 0
  {
    SightingsMean(seen, c.provider, c.symbol, c.Recent(), c.now);
    RecentCount(c.dropped, c.Today(), k.bar);
    assert k.bar in c.dropped <==> multiset(c.dropped)[k.bar] > 0;
    assert k.provider == c.provider && k.symbol == c.symbol ==> Key(c.provider, c.symbol, k.bar) == k;
  }

  lemma RememberedIff(c: Refresh, seen: map<Key, int>, k: Key)
    ensures var after := Remembered(seen, c.provider, c.symbol, c.Recent(), c.now);
            && (c.Mentions(seen, k) > 0 ==> k in after && after[k] == c.now)
            && (c.Mentions(seen, k) == 0 && k in seen && seen[k] >= c.now - RETENTION ==> k in after && after[k] == seen[k])
            && (c.Mentions(seen, k) == 0 && k !in seen ==> k !in after)
  {
    var alarmed := FirstSightings(seen, c.provider, c.symbol, c.Recent(), c.now);
    assert k.bar in alarmed <==> multiset(alarmed)[k.bar] > 0;
    MarkedAt(Pruned(seen, c.now), c.provider, c.symbol, alarmed, c.now, k);
  }

  /** Refresh `n` is the first of the run to drop the key while recent. */
  ghost predicate FirstDrop(run: seq<Refresh>, k: Key, n: nat) {
    n < |run| && run[n].Drops(k) && forall m | 0 <= m < n :: !run[m].Drops(k)
  }

  /** The state of one key after a run: never dropped and unknown, or alarmed by the first
      refresh that dropped it, and remembered from it for as long as it could matter. */
  ghost predicate KeyState(run: seq<Refresh>, k: Key) {
    if EverDropped(run, k) then
      && AlarmCount(run, k) == 1
      && exists n: nat :: FirstDrop(run, k, n) && MentionCount(run, k) == multiset(run[n].dropped)[k.bar]
           && (run[|run| - 1].now - run[n].now <= RETENTION ==> k in SeenAfter(run) && SeenAfter(run)[k] == run[n].now)
    else
      AlarmCount(run, k) == MentionCount(run, k) == 0 && k !in SeenAfter(run)
  }

  /** More refreshes do not change which one drops the key first. */
  lemma FirstDropStays(run: seq<Refresh>, c: Refresh, k: Key, n: nat)
    ensures FirstDrop(run, k, n) ==> FirstDrop(run + [c], k, n) && (run + [c])[n] == run[n] && run[n] in run + [c]
    ensures !EverDropped(run, k) && c.Drops(k) ==> FirstDrop(run + [c], k, |run|)
  {
    hide Refresh.Drops;
    var t := run + [c];
    assert forall m | 0 <= m < |run| :: t[m] == run[m] && run[m] in run && run[m] in t;
  }

  lemma KeyStateStep(run: seq<Refresh>, c: Refresh, k: Key, base: int, slack: int, ahead: int)
    requires ahead * DAY + slack <= DAY + 1
    requires Monotone(run + [c]) && Plausible(run + [c], k, base, slack, ahead)
    requires KeyState(run, k)
    ensures KeyState(run + [c], k)
  {
    hide FirstSightings, Remembered, RecentDates, SeenAfter, AlarmCount, MentionCount, EverDropped, Refresh.Drops, Refresh.Mentions;
    var t, seen := run + [c], SeenAfter(run);
    assert t[|t| - 1] == c;
    AlarmsIff(c, seen, k);
    RememberedIff(c, seen, k);
    AppendedRun(run, c, k);
    if EverDropped(run, k) {
      var n: nat :| FirstDrop(run, k, n) && MentionCount(run, k) == multiset(run[n].dropped)[k.bar]
        && (run[|run| - 1].now - run[n].now <= RETENTION ==> k in seen && seen[k] == run[n].now);
      FirstDropStays(run, c, k, n);
      hide FirstDrop;
      assert c in t && run[n].now <= t[|run| - 1].now <= c.now;
      if c.Drops(k) {
        RecentWithinRetention(run[n], c, k, base, slack, ahead);
      }
      assert c.Mentions(seen, k) == 0;
    } else {
      FirstDropStays(run, c, k, 0);
    }
  }

  lemma AppendedRun(run: seq<Refresh>, c: Refresh, k: Key)
    ensures SeenAfter(run + [c]) == Remembered(SeenAfter(run), c.provider, c.symbol, c.Recent(), c.now)
    ensures AlarmCount(run + [c], k) == AlarmCount(run, k) + if c.Mentions(SeenAfter(run), k) > 0 then 1 else 0
    ensures MentionCount(run + [c], k) == MentionCount(run, k) + c.Mentions(SeenAfter(run), k)
    ensures EverDropped(run + [c], k) <==> EverDropped(run, k) || c.Drops(k)
  {
    hide FirstSightings, Remembered, RecentDates, Refresh.Drops, Refresh.Mentions;
    var t := run + [c];
    assert t[..|t| - 1] == run && t[|t| - 1] == c;
    assert forall x :: x in t <==> x in run || x == c;
  }

  lemma {:induction false} KeyStateHolds(run: seq<Refresh>, k: Key, base: int, slack: int, ahead: int)
    requires ahead * DAY + slack <= DAY + 1
    requires Monotone(run) && Plausible(run, k, base, slack, ahead)
    ensures KeyState(run, k)
  {
    if run != [] {
      var init, c := run[..|run| - 1], run[|run| - 1];
      assert run == init + [c];
      KeyStateHolds(init, k, base, slack, ahead);
      KeyStateStep(init, c, k, base, slack, ahead);
    }
  }

  /** Over any run, exactly one refresh alarms a bar-date dropped at least once while recent, the
      first that drops it, and mentions it once for each bar of that date it drops: once for
      daily bars. No refresh alarms any other. */
  lemma AlarmedExactlyOnce(run: seq<Refresh>, k: Key, base: int, slack: int, ahead: int)
    requires ahead * DAY + slack <= DAY + 1
    requires Monotone(run) && Plausible(run, k, base, slack, ahead)
    ensures AlarmCount(run, k) == if EverDropped(run, k) then 1 else 0
    ensures if EverDropped(run, k) then exists n: nat :: FirstDrop(run, k, n) && MentionCount(run, k) == multiset(run[n].dropped)[k.bar]
            else MentionCount(run, k) == 0
    ensures (forall c | c in run :: multiset(c.dropped)[k.bar] <= 1) ==> MentionCount(run, k) == AlarmCount(run, k)
  {
    hide AlarmCount, MentionCount;
    KeyStateHolds(run, k, base, slack, ahead);
    if EverDropped(run, k) {
      var n: nat :| FirstDrop(run, k, n) && MentionCount(run, k) == multiset(run[n].dropped)[k.bar];
      assert run[n] in run;
      AlarmsIff(run[n], map[], k);
    }
  }

  /** The two refreshes that stretch a margin furthest: the first one as early as calendar and
      clock allow, the last one as late. */
  function Stretched(k: Key, base: int, slack: nat, ahead: int): (Refresh, Refresh) {
    (Refresh(k.provider, k.symbol, [k.bar], (k.bar - ahead) * DAY - base - slack, base + slack),
     Refresh(k.provider, k.symbol, [k.bar], (k.bar + RECENT_DAYS + 1) * DAY - 1 - base, base))
  }

  /** Beyond the margin a bar is still recent after its memory is pruned, and is alarmed twice. */
  lemma BeyondMarginAlarmsTwice(k: Key, base: int, slack: nat, ahead: int)
    requires ahead >= -RECENT_DAYS && ahead * DAY + slack > DAY + 1
    ensures var (a, b) := Stretched(k, base, slack, ahead);
            Monotone([a, b]) && Plausible([a, b], k, base, slack, ahead) && AlarmCount([a, b], k) == 2
  {
    hide FirstSightings, Remembered, RecentDates, SeenAfter, AlarmCount, Refresh.Mentions;
    var (a, b) := Stretched(k, base, slack, ahead);
    assert a.Today() == k.bar - ahead && b.Today() == k.bar + RECENT_DAYS;
    assert b.now - a.now > RETENTION;
    assert [] + [a] == [a] && [a] + [b] == [a, b];
    AppendedRun([], a, k);
    AppendedRun([a], b, k);
    NothingYet(k);
    AlarmsIff(a, SeenAfter([]), k);
    RememberedIff(a, SeenAfter([]), k);
    AlarmsIff(b, SeenAfter([a]), k);
  }

  ghost predicate AlwaysOnce(base: int, slack: nat, ahead: int) {
    forall run, k | Monotone(run) && Plausible(run, k, base, slack, ahead) ::
      AlarmCount(run, k) == if EverDropped(run, k) then 1 else 0
  }

  /** Exactly how far clocks and bar dates may stray before some run alarms a bar twice: the
      5-day recency and the 7-day retention leave one day (and one clock tick) between them. */
  lemma MarginIsExact(base: int, slack: nat, ahead: int)
    ensures AlwaysOnce(base, slack, ahead) <==> ahead < -RECENT_DAYS || ahead * DAY + slack <= DAY + 1
  {
    hide AlarmCount, EverDropped;
    var k := Key("", "", 0);
    if ahead < -RECENT_DAYS {
      forall run, k | Monotone(run) && Plausible(run, k, base, slack, ahead)
        ensures AlarmCount(run, k) == if EverDropped(run, k) then 1 else 0
      {
        AlarmedExactlyOnce(run, k, base, slack, ahead - slack);
      }
    } else if ahead * DAY + slack <= DAY + 1 {
      forall run, k | Monotone(run) && Plausible(run, k, base, slack, ahead)
        ensures AlarmCount(run, k) == if EverDropped(run, k) then 1 else 0
      {
        AlarmedExactlyOnce(run, k, base, slack, ahead);
      }
    } else {
      BeyondMarginAlarmsTwice(k, base, slack, ahead);
      var (a, b) := Stretched(k, base, slack, ahead);
      assert Monotone([a, b]);
    }
  }

  lemma NothingYet(k: Key)
    ensures SeenAfter([]) == map[] && AlarmCount([], k) == MentionCount([], k) == 0
  {
  }

  // ---------------------------------------------------------------- the key on disk

  /** The text a key is stored under; `day` is an ISO date of ten characters. */
  function KeyText(provider: string, symbol: string, day: string): string {
    provider + "|" + symbol + "|" + day
  }

  /** The stored text tells keys apart as long as no provider name contains the separator;
      the symbol may. */
  lemma KeyTextIsInjective(p: string, s: string, d: string, p': string, s': string, d': string)
    requires '|' !in p && '|' !in p' && |d| == |d'|
    requires KeyText(p, s, d) == KeyText(p', s', d')
    ensures p == p' && s == s' && d == d'
  {
    var t := KeyText(p, s, d);
    assert forall i | 0 <= i < |p| :: t[i] == p[i] != '|';
    assert forall i | 0 <= i < |p'| :: t[i] == p'[i] != '|';
    assert t[|p|] == '|' && t[|p'|] == '|';
    assert |p| == |p'|;
    assert p == t[..|p|] && p' == t[..|p'|];
    assert d == t[|t| - |d|..] && d' == t[|t| - |d'|..];
    assert s == t[|p| + 1..|t| - |d| - 1];
  }
}
