/** Collapsing repeated macro signals: one catalyst per (kind, date, lower-case title), the
    highest confidence winning, then sorted dated-first. The sweep collapses every query's
    catalysts and then each symbol's. */
module Catalysts {
  import opened Lists
  import Ordering

  /** `detail` stands for the link, rationale and timestamp that collapsing never looks at. */
  datatype Catalyst = Catalyst(kind: string, title: string, occursOn: Option<int>, confidence: real, detail: string)

  datatype Key = Key(kind: string, occursOn: Option<int>, title: string)

  function LowerChar(c: char): char {
    if 'A' <= c <= 'Z' then c - 'A' + 'a' else c
  }

  function Lower(s: string): string {
    if s == "" then "" else [LowerChar(s[0])] + Lower(s[1..])
  }

  function KeyOf(c: Catalyst): Key {
    Key(c.kind, c.occursOn, Lower(c.title))
  }

  // ---------------------------------------------------------------- collapsing

  /** Insertion-ordered entries with one catalyst noted: a higher confidence replaces the
      entry of its key in place, a new key goes last. */
  function Upsert(entries: seq<Catalyst>, c: Catalyst): seq<Catalyst> {
    if entries == [] then [c]
    else if KeyOf(entries[0]) == KeyOf(c) then
      [if c.confidence > entries[0].confidence then c else entries[0]] + entries[1..]
    else [entries[0]] + Upsert(entries[1..], c)
  }

  function CollapseOnto(entries: seq<Catalyst>, cs: seq<Catalyst>): seq<Catalyst>
    decreases cs
  {
    if cs == [] then entries else CollapseOnto(Upsert(entries, cs[0]), cs[1..])
  }

  function Collapse(cs: seq<Catalyst>): seq<Catalyst> {
    CollapseOnto([], cs)
  }

  /** Dated before undated, then by date, then the most confident first. */
  predicate Before(a: Catalyst, b: Catalyst) {
    match (a.occursOn, b.occursOn)
    case (Some(d), Some(e)) => d < e || (d == e && a.confidence >= b.confidence)
    case (Some(_), None) => true
    case (None, Some(_)) => false
    case (None, None) => a.confidence >= b.confidence
  }

  function Deduped(cs: seq<Catalyst>): seq<Catalyst> {
    Ordering.Sort(Before, Collapse(cs))
  }

  method Dedupe(cs: seq<Catalyst>) returns (deduped: seq<Catalyst>)
    ensures deduped == Deduped(cs)
  {
    var byKey: map<Key, Catalyst>, order: seq<Key> := map[], [];
    for i := 0 to |cs|
      invariant byKey.Keys == set k | k in order
      invariant Values(byKey, order) == CollapseOnto([], cs[..i])
      invariant forall k | k in byKey :: KeyOf(byKey[k]) == k
      invariant forall m, n | 0 <= m < n < |order| :: order[m] != order[n]
    {
      var key := KeyOf(cs[i]);
      CollapseSnoc([], cs[..i], cs[i]);
      assert cs[..i + 1] == cs[..i] + [cs[i]];
      UpsertValues(byKey, order, cs[i]);
      if key !in byKey {
        byKey, order := byKey[key := cs[i]], order + [key];
      } else if cs[i].confidence > byKey[key].confidence {
        byKey := byKey[key := cs[i]];
      }
    }
    assert cs[..|cs|] == cs;
    deduped := Ordering.Sort(Before, Values(byKey, order));
  }

  /** The values of an insertion-ordered dictionary, in order. */
  function Values(byKey: map<Key, Catalyst>, order: seq<Key>): seq<Catalyst>
    requires forall k | k in order :: k in byKey
  {
    if order == [] then [] else [byKey[order[0]]] + Values(byKey, order[1..])
  }

  lemma {:induction false} CollapseSnoc(entries: seq<Catalyst>, cs: seq<Catalyst>, c: Catalyst)
    ensures CollapseOnto(entries, cs + [c]) == Upsert(CollapseOnto(entries, cs), c)
    decreases cs
  {
    if cs == [] {
      assert [c][1..] == [];
    } else {
      CollapseSnoc(Upsert(entries, cs[0]), cs[1..], c);
      assert (cs + [c])[1..] == cs[1..] + [c];
    }
  }

  lemma {:induction false} ValuesElsewhere(a: map<Key, Catalyst>, b: map<Key, Catalyst>, order: seq<Key>)
    requires forall k | k in order :: k in a && k in b && a[k] == b[k]
    ensures Values(a, order) == Values(b, order)
  {
    if order != [] {
      ValuesElsewhere(a, b, order[1..]);
    }
  }

  /** Noting a catalyst in the dictionary is noting it in its list of values. */
  lemma {:induction false} UpsertValues(byKey: map<Key, Catalyst>, order: seq<Key>, c: Catalyst)
    requires forall k | k in order :: k in byKey && KeyOf(byKey[k]) == k
    requires forall m, n | 0 <= m < n < |order| :: order[m] != order[n]
    ensures Upsert(Values(byKey, order), c)
         == if KeyOf(c) !in order then Values(byKey[KeyOf(c) := c], order + [KeyOf(c)])
            else if c.confidence > byKey[KeyOf(c)].confidence then Values(byKey[KeyOf(c) := c], order)
            else Values(byKey, order)
  {
    var k := KeyOf(c);
    if order == [] {
      assert (order + [k])[1..] == [];
    } else {
      UpsertValues(byKey, order[1..], c);
      assert (order + [k])[1..] == order[1..] + [k];
      assert order == [order[0]] + order[1..];
      if order[0] == k {
        ValuesElsewhere(byKey, byKey[k := c], order[1..]);
      }
    }
  }

  // ---------------------------------------------------------------- what is kept

  ghost predicate DistinctKeys(entries: seq<Catalyst>) {
    forall m, n | 0 <= m < n < |entries| :: KeyOf(entries[m]) != KeyOf(entries[n])
  }

  predicate HasKey(entries: seq<Catalyst>, k: Key) {
    exists n | 0 <= n < |entries| :: KeyOf(entries[n]) == k
  }

  /** The record at `i` beats every other of its key: by confidence, then by coming first. */
  ghost predicate IsBest(cs: seq<Catalyst>, i: nat) {
    i < |cs| && forall j | 0 <= j < |cs| && KeyOf(cs[j]) == KeyOf(cs[i]) ::
      cs[j].confidence < cs[i].confidence || (cs[j].confidence == cs[i].confidence && i <= j)
  }

  lemma {:induction false} UpsertKeys(entries: seq<Catalyst>, c: Catalyst, k: Key)
    ensures HasKey(Upsert(entries, c), k) <==> HasKey(entries, k) || k == KeyOf(c)
  {
    if entries != [] {
      UpsertKeys(entries[1..], c, k);
      HasKeySplit(entries, k);
      HasKeySplit(Upsert(entries, c), k);
      if KeyOf(entries[0]) == KeyOf(c) {
        assert Upsert(entries, c)[1..] == entries[1..];
      } else {
        assert Upsert(entries, c)[1..] == Upsert(entries[1..], c);
      }
    } else {
      assert [c][0] == c;
    }
  }

  lemma HasKeySplit(entries: seq<Catalyst>, k: Key)
    requires entries != []
    ensures HasKey(entries, k) <==> KeyOf(entries[0]) == k || HasKey(entries[1..], k)
  {
    if HasKey(entries[1..], k) {
      var n :| 0 <= n < |entries[1..]| && KeyOf(entries[1..][n]) == k;
      assert entries[n + 1] == entries[1..][n];
    }
    if HasKey(entries, k) && KeyOf(entries[0]) != k {
      var n :| 0 <= n < |entries| && KeyOf(entries[n]) == k;
      assert entries[1..][n - 1] == entries[n];
    }
  }

  lemma {:induction false} UpsertDistinct(entries: seq<Catalyst>, c: Catalyst)
    requires DistinctKeys(entries)
    ensures DistinctKeys(Upsert(entries, c))
  {
    if entries != [] && KeyOf(entries[0]) != KeyOf(c) {
      UpsertDistinct(entries[1..], c);
      var k := KeyOf(entries[0]);
      UpsertKeys(entries[1..], c, k);
      assert !HasKey(entries[1..], k);
      var t := Upsert(entries[1..], c);
      assert forall n | 0 <= n < |t| :: KeyOf(t[n]) != k;
    }
  }

  lemma {:induction false} CollapseDistinct(entries: seq<Catalyst>, cs: seq<Catalyst>)
    requires DistinctKeys(entries)
    ensures DistinctKeys(CollapseOnto(entries, cs))
    decreases cs
  {
    if cs != [] {
      UpsertDistinct(entries, cs[0]);
      CollapseDistinct(Upsert(entries, cs[0]), cs[1..]);
    }
  }

  lemma {:induction false} UpsertMembers(entries: seq<Catalyst>, c: Catalyst, r: Catalyst)
    requires DistinctKeys(entries)
    ensures r in Upsert(entries, c)
       <==> if KeyOf(r) != KeyOf(c) then r in entries
            else if HasKey(entries, KeyOf(c)) then
              (r == c && exists e :: e in entries && KeyOf(e) == KeyOf(c) && c.confidence > e.confidence)
              || (r in entries && c.confidence <= r.confidence)
            else r == c
  {
    if entries != [] {
      assert entries == [entries[0]] + entries[1..];
      UpsertMembers(entries[1..], c, r);
      HasKeySplit(entries, KeyOf(c));
      if KeyOf(entries[0]) == KeyOf(c) {
        assert forall e | e in entries[1..] :: KeyOf(e) != KeyOf(c);
      }
    }
  }

  ghost predicate IsKept(cs: seq<Catalyst>, r: Catalyst) {
    exists i :: 0 <= i < |cs| && cs[i] == r && IsBest(cs, i)
  }

  /** `c` beats every record of its key. */
  ghost predicate Beats(c: Catalyst, cs: seq<Catalyst>) {
    forall j | 0 <= j < |cs| && KeyOf(cs[j]) == KeyOf(c) :: cs[j].confidence < c.confidence
  }

  lemma BestWithLater(init: seq<Catalyst>, c: Catalyst, i: nat)
    requires i < |init|
    ensures IsBest(init + [c], i)
       <==> IsBest(init, i) && (KeyOf(c) == KeyOf(init[i]) ==> c.confidence <= init[i].confidence)
  {
    var cs := init + [c];
    assert cs[|init|] == c;
    assert forall j | 0 <= j < |init| :: cs[j] == init[j];
  }

  lemma KeptSnoc(init: seq<Catalyst>, c: Catalyst, r: Catalyst)
    ensures IsKept(init + [c], r)
       <==> (r == c && Beats(c, init))
            || (IsKept(init, r) && (KeyOf(c) == KeyOf(r) ==> c.confidence <= r.confidence))
  {
    hide KeyOf;
    var cs, n := init + [c], |init|;
    assert cs[n] == c;
    assert forall j | 0 <= j < n :: cs[j] == init[j];
    assert IsBest(cs, n) <==> Beats(c, init);
    forall i | 0 <= i < n
      ensures IsBest(cs, i) <==> IsBest(init, i) && (KeyOf(c) == KeyOf(init[i]) ==> c.confidence <= init[i].confidence)
    {
      BestWithLater(init, c, i);
    }
    if IsKept(init, r) && (KeyOf(c) == KeyOf(r) ==> c.confidence <= r.confidence) {
      var i :| 0 <= i < n && init[i] == r && IsBest(init, i);
      assert cs[i] == r && IsBest(cs, i);
    }
  }

  /** With a best record at hand, beating it is beating them all. */
  lemma BeatsBest(cs: seq<Catalyst>, e: Catalyst, c: Catalyst)
    requires IsKept(cs, e) && KeyOf(e) == KeyOf(c)
    ensures Beats(c, cs) <==> c.confidence > e.confidence
  {
  }

  ghost predicate Agrees(entries: seq<Catalyst>, cs: seq<Catalyst>) {
    && DistinctKeys(entries)
    && (forall r :: r in entries <==> IsKept(cs, r))
    && (forall k :: HasKey(entries, k) <==> HasKey(cs, k))
  }

  lemma HasKeySnoc(init: seq<Catalyst>, c: Catalyst, k: Key)
    ensures HasKey(init + [c], k) <==> HasKey(init, k) || KeyOf(c) == k
  {
    var cs := init + [c];
    assert cs[|init|] == c;
    assert forall j | 0 <= j < |init| :: cs[j] == init[j];
  }

  lemma UpsertAgrees(entries: seq<Catalyst>, init: seq<Catalyst>, c: Catalyst)
    requires Agrees(entries, init)
    ensures Agrees(Upsert(entries, c), init + [c])
  {
    UpsertDistinct(entries, c);
    forall k
      ensures HasKey(Upsert(entries, c), k) <==> HasKey(init + [c], k)
    {
      UpsertKeys(entries, c, k);
      HasKeySnoc(init, c, k);
    }
    forall r
      ensures r in Upsert(entries, c) <==> IsKept(init + [c], r)
    {
      hide KeyOf, DistinctKeys, Upsert;
      UpsertMembers(entries, c, r);
      KeptSnoc(init, c, r);
      if HasKey(entries, KeyOf(c)) {
        var n :| 0 <= n < |entries| && KeyOf(entries[n]) == KeyOf(c);
        assert entries[n] in entries;
        BeatsBest(init, entries[n], c);
        if r in entries && KeyOf(r) == KeyOf(c) {
          SameKeySameEntry(entries, r, entries[n]);
        }
        forall e | e in entries && KeyOf(e) == KeyOf(c)
          ensures e == entries[n]
        {
          SameKeySameEntry(entries, e, entries[n]);
        }
      } else {
        assert !HasKey(init, KeyOf(c));
      }
    }
  }

  lemma SameKeySameEntry(entries: seq<Catalyst>, a: Catalyst, b: Catalyst)
    requires DistinctKeys(entries) && a in entries && b in entries && KeyOf(a) == KeyOf(b)
    ensures a == b
  {
  }

  /** The catalyst kept for each key has the highest confidence, and is the earliest of those
      that tie; every key that occurs is kept, once. */
  lemma {:induction false} KeepsBest(cs: seq<Catalyst>)
    ensures Agrees(Collapse(cs), cs)
  {
    if cs != [] {
      var n := |cs| - 1;
      assert cs == cs[..n] + [cs[n]];
      KeepsBest(cs[..n]);
      CollapseSnoc([], cs[..n], cs[n]);
      UpsertAgrees(Collapse(cs[..n]), cs[..n], cs[n]);
    }
  }

  lemma BeforeIsTotal()
    ensures Ordering.TotalPreorder(Before)
  {
  }

  lemma DedupedAgrees(cs: seq<Catalyst>)
    ensures Ordering.Sorted(Before, Deduped(cs))
    ensures Agrees(Deduped(cs), cs)
  {
    var s, t := Collapse(cs), Deduped(cs);
    KeepsBest(cs);
    BeforeIsTotal();
    Ordering.SortSorted(Before, s);
    Ordering.SortContents(Before, s);
    Ordering.PermutedDistinct(KeyOf, s, t);
    forall k
      ensures HasKey(t, k) <==> HasKey(s, k)
    {
      if HasKey(t, k) {
        var n :| 0 <= n < |t| && KeyOf(t[n]) == k;
        assert t[n] in t;
      }
      if HasKey(s, k) {
        var n :| 0 <= n < |s| && KeyOf(s[n]) == k;
        assert s[n] in s;
      }
    }
  }

  // ---------------------------------------------------------------- what counts as the same

  /** One is the capital of the other, in A to Z. */
  predicate CapitalOf(a: char, b: char) {
    'A' <= a <= 'Z' && b as int - a as int == 32
  }

  predicate SameLetter(a: char, b: char) {
    a == b || CapitalOf(a, b) || CapitalOf(b, a)
  }

  /** The same signal reported twice: one kind, one date, one title up to case. */
  predicate Duplicates(a: Catalyst, b: Catalyst) {
    && a.kind == b.kind
    && a.occursOn == b.occursOn
    && |a.title| == |b.title|
    && forall i | 0 <= i < |a.title| :: SameLetter(a.title[i], b.title[i])
  }

  lemma {:induction false} LowerAt(s: string)
    ensures |Lower(s)| == |s|
    ensures forall i | 0 <= i < |s| :: Lower(s)[i] == LowerChar(s[i])
  {
    if s != "" {
      LowerAt(s[1..]);
      assert forall i | 0 < i < |s| :: Lower(s)[i] == Lower(s[1..])[i - 1] && s[i] == s[1..][i - 1];
    }
  }

  lemma SameLetterIff(a: char, b: char)
    ensures LowerChar(a) == LowerChar(b) <==> SameLetter(a, b)
  {
  }

  /** The dictionary's key tells apart exactly what is not the same signal. */
  lemma SameKeyIff(a: Catalyst, b: Catalyst)
    ensures KeyOf(a) == KeyOf(b) <==> Duplicates(a, b)
  {
    hide LowerChar, SameLetter;
    LowerAt(a.title);
    LowerAt(b.title);
    forall i | 0 <= i < |a.title| && i < |b.title|
      ensures LowerChar(a.title[i]) == LowerChar(b.title[i]) <==> SameLetter(a.title[i], b.title[i])
    {
      SameLetterIff(a.title[i], b.title[i]);
    }
    if Duplicates(a, b) {
      assert Lower(a.title) == Lower(b.title);
    }
  }

  /** The record at `i` is the most confident of its duplicates, and the first of those as
      confident. */
  ghost predicate IsFirstBest(cs: seq<Catalyst>, i: nat) {
    i < |cs| && forall j | 0 <= j < |cs| && Duplicates(cs[j], cs[i]) ::
      cs[j].confidence < cs[i].confidence || (cs[j].confidence == cs[i].confidence && i <= j)
  }

  ghost predicate FirstBest(cs: seq<Catalyst>, c: Catalyst) {
    exists i :: 0 <= i < |cs| && cs[i] == c && IsFirstBest(cs, i)
  }

  /** Dated before undated, earlier dates first, and on one date the more confident first. */
  ghost predicate DatedFirst(cs: seq<Catalyst>) {
    forall m, n | 0 <= m < n < |cs| ::
      && (cs[n].occursOn.Some? ==> cs[m].occursOn.Some? && cs[m].occursOn.value <= cs[n].occursOn.value)
      && (cs[m].occursOn == cs[n].occursOn ==> cs[m].confidence >= cs[n].confidence)
  }

  lemma BestIffFirstBest(cs: seq<Catalyst>, i: nat)
    ensures IsBest(cs, i) <==> IsFirstBest(cs, i)
  {
    hide KeyOf, Duplicates;
    forall j | 0 <= j < |cs| && i < |cs|
      ensures KeyOf(cs[j]) == KeyOf(cs[i]) <==> Duplicates(cs[j], cs[i])
    {
      SameKeyIff(cs[j], cs[i]);
    }
  }

  /** A dedupe returns no signal twice, one duplicate of every signal given, each the first of
      the most confident of its duplicates, dated ones first. */
  lemma DedupedIsBestAndSorted(cs: seq<Catalyst>)
    ensures var r := Deduped(cs);
            && (forall m, n | 0 <= m < n < |r| :: !Duplicates(r[m], r[n]))
            && (forall c | c in cs :: exists d :: d in r && Duplicates(d, c))
            && (forall d :: d in r <==> FirstBest(cs, d))
            && DatedFirst(r)
  {
    hide KeyOf, Duplicates, IsBest, IsFirstBest;
    var r := Deduped(cs);
    DedupedAgrees(cs);
    forall m, n | 0 <= m < n < |r|
      ensures !Duplicates(r[m], r[n])
    {
      SameKeyIff(r[m], r[n]);
    }
    forall c | c in cs
      ensures exists d :: d in r && Duplicates(d, c)
    {
      var i :| 0 <= i < |cs| && cs[i] == c;
      assert HasKey(cs, KeyOf(c));
      var n :| 0 <= n < |r| && KeyOf(r[n]) == KeyOf(c);
      SameKeyIff(r[n], c);
      assert r[n] in r;
    }
    forall i | 0 <= i < |cs|
      ensures IsBest(cs, i) <==> IsFirstBest(cs, i)
    {
      BestIffFirstBest(cs, i);
    }
    SortedIsDatedFirst(r);
  }

  lemma SortedIsDatedFirst(cs: seq<Catalyst>)
    requires Ordering.Sorted(Before, cs)
    ensures DatedFirst(cs)
  {
    forall m, n | 0 <= m < n < |cs|
      ensures Before(cs[m], cs[n])
    {
    }
  }
}
