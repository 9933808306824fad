/** Collapsing each query's catalysts and then their concatenation, against collapsing
    everything at once. */
module TwoStageDedupe {
  import opened Lists
  import opened Catalysts
  import Ordering

  // ---------------------------------------------------------------- noting in either order

  /** A catalyst noted and then beaten by another of its key leaves no trace. */
  lemma {:induction false} UpsertBeaten(entries: seq<Catalyst>, e: Catalyst, c: Catalyst)
    requires KeyOf(e) == KeyOf(c)
    ensures Upsert(Upsert(entries, e), c)
         == if c.confidence > e.confidence then Upsert(entries, c) else Upsert(entries, e)
  {
    if entries != [] {
      var t := Upsert(entries, e);
      if KeyOf(entries[0]) == KeyOf(e) {
        assert t[1..] == entries[1..];
      } else {
        UpsertBeaten(entries[1..], e, c);
        assert t[1..] == Upsert(entries[1..], e);
      }
    }
  }

  /** Catalysts of different keys can be noted in either order once one of them has a place. */
  lemma {:induction false} UpsertCommutes(entries: seq<Catalyst>, x: Catalyst, c: Catalyst)
    requires KeyOf(x) != KeyOf(c) && HasKey(entries, KeyOf(c))
    ensures Upsert(Upsert(entries, x), c) == Upsert(Upsert(entries, c), x)
  {
    var u, v := Upsert(entries, x), Upsert(entries, c);
    HasKeySplit(entries, KeyOf(c));
    if KeyOf(entries[0]) == KeyOf(c) {
      assert u[1..] == Upsert(entries[1..], x) && v[1..] == entries[1..];
    } else if KeyOf(entries[0]) == KeyOf(x) {
      assert u[1..] == entries[1..] && v[1..] == Upsert(entries[1..], c);
    } else {
      UpsertCommutes(entries[1..], x, c);
      assert u[1..] == Upsert(entries[1..], x) && v[1..] == Upsert(entries[1..], c);
    }
  }

  /** A key that has its place can be noted before or after catalysts of other keys. */
  lemma {:induction false} CollapseCommutes(entries: seq<Catalyst>, l: seq<Catalyst>, c: Catalyst)
    requires HasKey(entries, KeyOf(c)) && !HasKey(l, KeyOf(c))
    ensures CollapseOnto(Upsert(entries, c), l) == Upsert(CollapseOnto(entries, l), c)
    decreases l
  {
    if l != [] {
      HasKeySplit(l, KeyOf(c));
      UpsertCommutes(entries, l[0], c);
      UpsertKeys(entries, l[0], KeyOf(c));
      CollapseCommutes(Upsert(entries, l[0]), l[1..], c);
    }
  }

  lemma {:induction false} CollapseUpsert(entries: seq<Catalyst>, l: seq<Catalyst>, c: Catalyst)
    requires DistinctKeys(l)
    ensures CollapseOnto(entries, Upsert(l, c)) == Upsert(CollapseOnto(entries, l), c)
    decreases l
  {
    if l == [] {
      assert [c][1..] == [];
    } else {
      var e, rest := l[0], l[1..];
      var u := Upsert(l, c);
      if KeyOf(e) == KeyOf(c) {
        assert u[1..] == rest;
        assert !HasKey(rest, KeyOf(c));
        UpsertKeys(entries, e, KeyOf(c));
        CollapseCommutes(Upsert(entries, e), rest, c);
        UpsertBeaten(entries, e, c);
      } else {
        assert u[1..] == Upsert(rest, c);
        CollapseUpsert(Upsert(entries, e), rest, c);
      }
    }
  }

  /** Collapsing first and noting the result is noting everything. */
  lemma {:induction false} CollapseAbsorbs(entries: seq<Catalyst>, cs: seq<Catalyst>)
    ensures CollapseOnto(entries, Collapse(cs)) == CollapseOnto(entries, cs)
    decreases |cs|
  {
    if cs != [] {
      var n := |cs| - 1;
      assert cs == cs[..n] + [cs[n]];
      CollapseAbsorbs(entries, cs[..n]);
      CollapseSnoc(entries, cs[..n], cs[n]);
      CollapseSnoc([], cs[..n], cs[n]);
      CollapseDistinct([], cs[..n]);
      CollapseUpsert(entries, Collapse(cs[..n]), cs[n]);
    }
  }

  lemma {:induction false} CollapseConcat(entries: seq<Catalyst>, a: seq<Catalyst>, b: seq<Catalyst>)
    ensures CollapseOnto(entries, a + b) == CollapseOnto(CollapseOnto(entries, a), b)
    decreases a
  {
    if a == [] {
      assert a + b == b;
    } else {
      assert (a + b)[1..] == a[1..] + b;
      CollapseConcat(Upsert(entries, a[0]), a[1..], b);
    }
  }

  // ---------------------------------------------------------------- one group of keys

  function OnKeys(p: Key -> bool, s: seq<Catalyst>): seq<Catalyst> {
    if s == [] then []
    else if p(KeyOf(s[0])) then [s[0]] + OnKeys(p, s[1..])
    else OnKeys(p, s[1..])
  }

  lemma {:induction false} OnKeysConcat(p: Key -> bool, a: seq<Catalyst>, b: seq<Catalyst>)
    ensures OnKeys(p, a + b) == OnKeys(p, a) + OnKeys(p, b)
  {
    if a == [] {
      assert a + b == b;
    } else {
      assert (a + b)[1..] == a[1..] + b;
      OnKeysConcat(p, a[1..], b);
    }
  }

  lemma {:induction false} OnKeysUpsert(p: Key -> bool, entries: seq<Catalyst>, c: Catalyst)
    ensures OnKeys(p, Upsert(entries, c))
         == if p(KeyOf(c)) then Upsert(OnKeys(p, entries), c) else OnKeys(p, entries)
  {
    if entries != [] {
      var u := Upsert(entries, c);
      if KeyOf(entries[0]) == KeyOf(c) {
        assert u[1..] == entries[1..];
        if p(KeyOf(c)) {
          assert OnKeys(p, entries)[1..] == OnKeys(p, entries[1..]);
        }
      } else {
        OnKeysUpsert(p, entries[1..], c);
        assert u[1..] == Upsert(entries[1..], c);
        if p(KeyOf(entries[0])) {
          assert OnKeys(p, entries)[1..] == OnKeys(p, entries[1..]);
        }
      }
    } else {
      assert [c][1..] == [];
    }
  }

  lemma {:induction false} OnKeysCollapse(p: Key -> bool, entries: seq<Catalyst>, cs: seq<Catalyst>)
    ensures OnKeys(p, CollapseOnto(entries, cs)) == CollapseOnto(OnKeys(p, entries), OnKeys(p, cs))
    decreases cs
  {
    if cs != [] {
      OnKeysUpsert(p, entries, cs[0]);
      OnKeysCollapse(p, Upsert(entries, cs[0]), cs[1..]);
      if p(KeyOf(cs[0])) {
        assert OnKeys(p, cs)[1..] == OnKeys(p, cs[1..]);
      }
    }
  }

  // ---------------------------------------------------------------- two stages

  function Flatten(batches: seq<seq<Catalyst>>): seq<Catalyst> {
    if batches == [] then [] else batches[0] + Flatten(batches[1..])
  }

  /** Every batch collapsed and sorted on its own, then concatenated. */
  function Staged(batches: seq<seq<Catalyst>>): seq<Catalyst> {
    if batches == [] then [] else Deduped(batches[0]) + Staged(batches[1..])
  }

  /** Sorting a batch's result leaves the order within this group of keys alone. */
  ghost predicate Undisturbed(p: Key -> bool, batch: seq<Catalyst>) {
    OnKeys(p, Deduped(batch)) == OnKeys(p, Collapse(batch))
  }

  /** On a group of keys that no batch's sort disturbs, staging makes no difference. */
  lemma {:induction false} StagedOnKeys(p: Key -> bool, entries: seq<Catalyst>, batches: seq<seq<Catalyst>>)
    requires forall n | 0 <= n < |batches| :: Undisturbed(p, batches[n])
    ensures CollapseOnto(entries, OnKeys(p, Staged(batches))) == CollapseOnto(entries, OnKeys(p, Flatten(batches)))
    decreases batches
  {
    if batches != [] {
      var q := batches[0];
      OnKeysConcat(p, Deduped(q), Staged(batches[1..]));
      OnKeysConcat(p, q, Flatten(batches[1..]));
      OnKeysCollapse(p, [], q);
      CollapseAbsorbs(entries, OnKeys(p, q));
      CollapseConcat(entries, OnKeys(p, Deduped(q)), OnKeys(p, Staged(batches[1..])));
      CollapseConcat(entries, OnKeys(p, q), OnKeys(p, Flatten(batches[1..])));
      StagedOnKeys(p, CollapseOnto(entries, OnKeys(p, q)), batches[1..]);
    }
  }

  lemma GroupsAgree(p: Key -> bool, batches: seq<seq<Catalyst>>)
    requires forall n | 0 <= n < |batches| :: Undisturbed(p, batches[n])
    ensures OnKeys(p, Collapse(Staged(batches))) == OnKeys(p, Collapse(Flatten(batches)))
  {
    StagedOnKeys(p, [], batches);
    OnKeysCollapse(p, [], Staged(batches));
    OnKeysCollapse(p, [], Flatten(batches));
  }

  // ---------------------------------------------------------------- same records

  lemma {:induction false} OnKeysMember(p: Key -> bool, s: seq<Catalyst>, r: Catalyst)
    ensures r in OnKeys(p, s) <==> r in s && p(KeyOf(r))
  {
    if s != [] {
      OnKeysMember(p, s[1..], r);
      assert s == [s[0]] + s[1..];
    }
  }

  lemma {:induction false} OneOfAKey(k: Key, p: Key -> bool, s: seq<Catalyst>)
    requires DistinctKeys(s) && forall j :: p(j) <==> j == k
    ensures |OnKeys(p, s)| <= 1
  {
    if s != [] {
      OneOfAKey(k, p, s[1..]);
      if KeyOf(s[0]) == k && OnKeys(p, s[1..]) != [] {
        OnKeysMember(p, s[1..], OnKeys(p, s[1..])[0]);
      }
    }
  }

  lemma SingleKeyUndisturbed(k: Key, p: Key -> bool, batch: seq<Catalyst>)
    requires forall j :: p(j) <==> j == k
    ensures Undisturbed(p, batch)
  {
    var s, t := Collapse(batch), Deduped(batch);
    CollapseDistinct([], batch);
    DedupedAgrees(batch);
    Ordering.SortContents(Before, s);
    OneOfAKey(k, p, s);
    OneOfAKey(k, p, t);
    var a, b := OnKeys(p, s), OnKeys(p, t);
    forall r
      ensures r in a <==> r in b
    {
      OnKeysMember(p, s, r);
      OnKeysMember(p, t, r);
    }
    AtMostOne(a, b);
  }

  lemma AtMostOne(a: seq<Catalyst>, b: seq<Catalyst>)
    requires |a| <= 1 && |b| <= 1 && forall r :: r in a <==> r in b
    ensures a == b
  {
    FirstMember(a);
    FirstMember(b);
  }

  /** Whatever the batches, staging keeps the same record for every key: the two results have
      the same members. */
  lemma StagingKeepsRecords(batches: seq<seq<Catalyst>>, r: Catalyst)
    ensures r in Deduped(Staged(batches)) <==> r in Deduped(Flatten(batches))
  {
    var k := KeyOf(r);
    var p := (j: Key) => j == k;
    forall n | 0 <= n < |batches|
      ensures Undisturbed(p, batches[n])
    {
      SingleKeyUndisturbed(k, p, batches[n]);
    }
    GroupsAgree(p, batches);
    OnKeysMember(p, Collapse(Staged(batches)), r);
    OnKeysMember(p, Collapse(Flatten(batches)), r);
    Ordering.SortContents(Before, Collapse(Staged(batches)));
    Ordering.SortContents(Before, Collapse(Flatten(batches)));
  }

  // ---------------------------------------------------------------- same list

  ghost predicate OneConfidence(cs: seq<Catalyst>, confidence: real) {
    forall n | 0 <= n < |cs| :: cs[n].confidence == confidence
  }

  ghost predicate Uniform(cs: seq<Catalyst>) {
    exists confidence :: OneConfidence(cs, confidence)
  }

  ghost predicate EachBatchOneConfidence(batches: seq<seq<Catalyst>>) {
    forall n | 0 <= n < |batches| :: Uniform(batches[n])
  }

  lemma {:induction false} UpsertConfidence(entries: seq<Catalyst>, c: Catalyst, confidence: real)
    requires OneConfidence(entries, confidence) && c.confidence == confidence
    ensures OneConfidence(Upsert(entries, c), confidence)
  {
    if entries != [] {
      UpsertConfidence(entries[1..], c, confidence);
    }
  }

  lemma {:induction false} CollapseConfidence(entries: seq<Catalyst>, cs: seq<Catalyst>, confidence: real)
    requires OneConfidence(entries, confidence) && OneConfidence(cs, confidence)
    ensures OneConfidence(CollapseOnto(entries, cs), confidence)
    decreases cs
  {
    if cs != [] {
      UpsertConfidence(entries, cs[0], confidence);
      CollapseConfidence(Upsert(entries, cs[0]), cs[1..], confidence);
    }
  }

  /** With one confidence throughout, the catalysts of a date are the ties of any of them. */
  lemma {:induction false} DateIsTies(p: Key -> bool, x: Catalyst, s: seq<Catalyst>)
    requires OneConfidence(s, x.confidence) && forall k :: p(k) <==> k.occursOn == x.occursOn
    ensures OnKeys(p, s) == Ordering.Ties(Before, x, s)
  {
    if s != [] {
      DateIsTies(p, x, s[1..]);
    }
  }

  lemma DateUndisturbed(p: Key -> bool, date: Option<int>, batch: seq<Catalyst>, confidence: real)
    requires OneConfidence(batch, confidence) && forall k :: p(k) <==> k.occursOn == date
    ensures Undisturbed(p, batch)
  {
    var s, t := Collapse(batch), Deduped(batch);
    var x := Catalyst("", "", date, confidence, "");
    CollapseConfidence([], batch, confidence);
    Ordering.SortContents(Before, s);
    forall n | 0 <= n < |t|
      ensures t[n].confidence == confidence
    {
      assert t[n] in t;
    }
    DateIsTies(p, x, s);
    DateIsTies(p, x, t);
    BeforeIsTotal();
    Ordering.SortStable(Before, x, s);
  }

  /** Ties share a date, so they can be looked for among the catalysts of that date. */
  lemma {:induction false} TiesWithinDate(p: Key -> bool, x: Catalyst, s: seq<Catalyst>)
    requires forall k :: p(k) <==> k.occursOn == x.occursOn
    ensures Ordering.Ties(Before, x, s) == Ordering.Ties(Before, x, OnKeys(p, s))
  {
    if s != [] {
      TiesWithinDate(p, x, s[1..]);
      if p(KeyOf(s[0])) {
        assert OnKeys(p, s)[1..] == OnKeys(p, s[1..]);
      }
    }
  }

  /** When every batch has one confidence, as a query's does, staging gives the very same
      list: same records, same order. */
  lemma StagingKeepsTheList(batches: seq<seq<Catalyst>>)
    requires EachBatchOneConfidence(batches)
    ensures Deduped(Staged(batches)) == Deduped(Flatten(batches))
  {
    var a, b := Collapse(Staged(batches)), Collapse(Flatten(batches));
    BeforeIsTotal();
    Ordering.SortSorted(Before, a);
    forall x: Catalyst
      ensures Ordering.Ties(Before, x, Ordering.Sort(Before, a)) == Ordering.Ties(Before, x, b)
    {
      var date := x.occursOn;
      var p := (k: Key) => k.occursOn == date;
      forall n | 0 <= n < |batches|
        ensures Undisturbed(p, batches[n])
      {
        var confidence :| OneConfidence(batches[n], confidence);
        DateUndisturbed(p, date, batches[n], confidence);
      }
      GroupsAgree(p, batches);
      TiesWithinDate(p, x, a);
      TiesWithinDate(p, x, b);
      Ordering.SortStable(Before, x, a);
    }
    Ordering.SortIsUnique(Before, b, Ordering.Sort(Before, a));
  }
}
