/** A stable sort by a total preorder, standing for the library sort the modelled code calls,
    with the two facts that determine its result: sorted, and stable on ties. */
module Ordering {

  ghost predicate TotalPreorder<T(!new)>(le: (T, T) -> bool) {
    && (forall x, y :: le(x, y) || le(y, x))
    && (forall x, y, z :: le(x, y) && le(y, z) ==> le(x, z))
  }

  ghost predicate Sorted<T>(le: (T, T) -> bool, s: seq<T>) {
    forall i, j | 0 <= i < j < |s| :: le(s[i], s[j])
  }

  function Insert<T>(le: (T, T) -> bool, x: T, s: seq<T>): seq<T> {
    if s == [] || le(x, s[0]) then [x] + s else [s[0]] + Insert(le, x, s[1..])
  }

  function Sort<T>(le: (T, T) -> bool, s: seq<T>): seq<T> {
    if s == [] then [] else Insert(le, s[0], Sort(le, s[1..]))
  }

  /** The elements of `s` that tie with `x`, in order. */
  function Ties<T>(le: (T, T) -> bool, x: T, s: seq<T>): seq<T> {
    if s == [] then []
    else (if le(x, s[0]) && le(s[0], x) then [s[0]] else []) + Ties(le, x, s[1..])
  }

  lemma {:induction false} InsertContents<T>(le: (T, T) -> bool, x: T, s: seq<T>)
    ensures multiset(Insert(le, x, s)) == multiset{x} + multiset(s)
  {
    if s != [] && !le(x, s[0]) {
      InsertContents(le, x, s[1..]);
      assert s == [s[0]] + s[1..];
    }
  }

  lemma {:induction false} SortContents<T>(le: (T, T) -> bool, s: seq<T>)
    ensures multiset(Sort(le, s)) == multiset(s)
    ensures |Sort(le, s)| == |s|
    ensures forall x :: x in Sort(le, s) <==> x in s
  {
    if s != [] {
      SortContents(le, s[1..]);
      InsertContents(le, s[0], Sort(le, s[1..]));
      assert s == [s[0]] + s[1..];
    }
    assert |multiset(Sort(le, s))| == |multiset(s)|;
    assert forall x :: x in Sort(le, s) <==> x in multiset(Sort(le, s));
    assert forall x :: x in s <==> x in multiset(s);
  }

  lemma {:induction false} InsertSorted<T(!new)>(le: (T, T) -> bool, x: T, s: seq<T>)
    requires TotalPreorder(le) && Sorted(le, s)
    ensures Sorted(le, Insert(le, x, s))
  {
    if s != [] && !le(x, s[0]) {
      InsertSorted(le, x, s[1..]);
      var rest := Insert(le, x, s[1..]);
      InsertContents(le, x, s[1..]);
      forall j | 0 <= j < |rest|
        ensures le(s[0], rest[j])
      {
        assert rest[j] in multiset(rest);
        assert rest[j] == x || rest[j] in s[1..];
      }
    }
  }

  lemma {:induction false} SortSorted<T(!new)>(le: (T, T) -> bool, s: seq<T>)
    requires TotalPreorder(le)
    ensures Sorted(le, Sort(le, s))
  {
    if s != [] {
      SortSorted(le, s[1..]);
      InsertSorted(le, s[0], Sort(le, s[1..]));
    }
  }

  lemma {:induction false} InsertTies<T(!new)>(le: (T, T) -> bool, x: T, y: T, s: seq<T>)
    requires TotalPreorder(le)
    ensures Ties(le, y, Insert(le, x, s)) == Ties(le, y, [x] + s)
  {
    if s != [] && !le(x, s[0]) {
      InsertTies(le, x, y, s[1..]);
      var t := Insert(le, x, s);
      assert t[0] == s[0] && t[1..] == Insert(le, x, s[1..]);
      assert ([x] + s[1..])[1..] == s[1..];
      assert ([x] + s)[1..] == s;
    } else {
      assert Insert(le, x, s) == [x] + s;
    }
  }

  /** Stability: sorting keeps the order of every group of ties. */
  lemma {:induction false} SortStable<T(!new)>(le: (T, T) -> bool, y: T, s: seq<T>)
    requires TotalPreorder(le)
    ensures Ties(le, y, Sort(le, s)) == Ties(le, y, s)
  {
    if s != [] {
      SortStable(le, y, s[1..]);
      InsertTies(le, s[0], y, Sort(le, s[1..]));
      var t := [s[0]] + Sort(le, s[1..]);
      assert t[0] == s[0] && t[1..] == Sort(le, s[1..]);
    }
  }

  lemma {:induction false} TiesMember<T>(le: (T, T) -> bool, x: T, s: seq<T>, y: T)
    ensures y in Ties(le, x, s) <==> y in s && le(x, y) && le(y, x)
  {
    if s != [] {
      TiesMember(le, x, s[1..], y);
      assert s == [s[0]] + s[1..];
    }
  }

  ghost predicate SameTies<T(!new)>(le: (T, T) -> bool, a: seq<T>, b: seq<T>) {
    forall x :: Ties(le, x, a) == Ties(le, x, b)
  }

  lemma SameTiesMember<T(!new)>(le: (T, T) -> bool, a: seq<T>, b: seq<T>, x: T)
    requires TotalPreorder(le) && SameTies(le, a, b) && x in a
    ensures x in b
  {
    assert le(x, x);
    TiesMember(le, x, a, x);
    TiesMember(le, x, b, x);
    assert Ties(le, x, a) == Ties(le, x, b);
  }

  lemma TiesHead<T>(le: (T, T) -> bool, x: T, s: seq<T>)
    requires s != []
    ensures Ties(le, x, s) == if le(x, s[0]) && le(s[0], x) then [s[0]] + Ties(le, x, s[1..]) else Ties(le, x, s[1..])
  {
  }

  lemma SameTiesTails<T(!new)>(le: (T, T) -> bool, a: seq<T>, b: seq<T>)
    requires SameTies(le, a, b) && a != [] && b != []
    requires le(a[0], a[0]) && le(a[0], b[0]) && le(b[0], a[0])
    ensures a[0] == b[0] && SameTies(le, a[1..], b[1..])
  {
    hide Ties;
    TiesHead(le, a[0], a);
    TiesHead(le, a[0], b);
    assert Ties(le, a[0], a)[0] == a[0] && Ties(le, a[0], b)[0] == b[0];
    forall x
      ensures Ties(le, x, a[1..]) == Ties(le, x, b[1..])
    {
      TiesHead(le, x, a);
      TiesHead(le, x, b);
      var ta, tb := Ties(le, x, a), Ties(le, x, b);
      assert ta == tb;
      assert le(x, a[0]) && le(a[0], x) ==> Ties(le, x, a[1..]) == ta[1..] && Ties(le, x, b[1..]) == tb[1..];
    }
  }

  /** Two sorted sequences that agree on every group of ties are equal. */
  lemma {:induction false} SortedUnique<T(!new)>(le: (T, T) -> bool, a: seq<T>, b: seq<T>)
    requires TotalPreorder(le) && Sorted(le, a) && Sorted(le, b) && SameTies(le, a, b)
    ensures a == b
    decreases |a|
  {
    if a == [] {
      if b != [] {
        SameTiesMember(le, b, a, b[0]);
      }
    } else {
      SameTiesMember(le, a, b, a[0]);
      SameTiesMember(le, b, a, b[0]);
      assert le(a[0], a[0]) && le(b[0], b[0]);
      assert le(a[0], b[0]) && le(b[0], a[0]);
      SameTiesTails(le, a, b);
      SortedUnique(le, a[1..], b[1..]);
      assert a == [a[0]] + a[1..] && b == [b[0]] + b[1..];
    }
  }

  /** A sequence that is sorted and stable with respect to `s` is the sort of `s`. */
  lemma SortIsUnique<T(!new)>(le: (T, T) -> bool, s: seq<T>, t: seq<T>)
    requires TotalPreorder(le) && Sorted(le, t) && SameTies(le, t, s)
    ensures t == Sort(le, s)
  {
    SortSorted(le, s);
    forall x
      ensures Ties(le, x, t) == Ties(le, x, Sort(le, s))
    {
      SortStable(le, x, s);
      assert Ties(le, x, t) == Ties(le, x, s);
    }
    SortedUnique(le, t, Sort(le, s));
  }

  ghost predicate Precedes<T>(s: seq<T>, a: T, b: T) {
    exists i, j :: 0 <= i < j < |s| && s[i] == a && s[j] == b
  }

  lemma PrecedesStep<T>(s: seq<T>, a: T, b: T)
    requires s != []
    ensures Precedes(s, a, b) <==> Precedes(s[1..], a, b) || (s[0] == a && b in s[1..])
  {
    if Precedes(s, a, b) {
      var i, j :| 0 <= i < j < |s| && s[i] == a && s[j] == b;
      assert s[1..][j - 1] == b;
      if i > 0 {
        assert s[1..][i - 1] == a;
      }
    }
    if Precedes(s[1..], a, b) {
      var i, j :| 0 <= i < j < |s[1..]| && s[1..][i] == a && s[1..][j] == b;
      assert s[i + 1] == a && s[j + 1] == b;
    } else if s[0] == a && b in s[1..] {
      var j :| 0 <= j < |s[1..]| && s[1..][j] == b;
      assert s[j + 1] == b;
    }
  }

  lemma {:induction false} PrecedesInTies<T(!new)>(le: (T, T) -> bool, x: T, s: seq<T>, a: T, b: T)
    requires le(x, a) && le(a, x) && le(x, b) && le(b, x)
    ensures Precedes(Ties(le, x, s), a, b) <==> Precedes(s, a, b)
  {
    if s != [] {
      hide Precedes;
      PrecedesInTies(le, x, s[1..], a, b);
      PrecedesStep(s, a, b);
      TiesHead(le, x, s);
      TiesMember(le, x, s[1..], b);
      var t := Ties(le, x, s);
      if le(x, s[0]) && le(s[0], x) {
        PrecedesStep(t, a, b);
        assert t[1..] == Ties(le, x, s[1..]);
      }
    }
  }

  /** Elements that tie keep their order. */
  lemma TieOrderKept<T(!new)>(le: (T, T) -> bool, s: seq<T>, a: T, b: T)
    requires TotalPreorder(le) && le(a, b) && le(b, a)
    ensures Precedes(Sort(le, s), a, b) <==> Precedes(s, a, b)
  {
    SortStable(le, a, s);
    PrecedesInTies(le, a, s, a, b);
    PrecedesInTies(le, a, Sort(le, s), a, b);
  }

  // ---------------------------------------------------------------- distinct elements

  ghost predicate DistinctBy<T, K>(key: T -> K, s: seq<T>) {
    forall m, n | 0 <= m < n < |s| :: key(s[m]) != key(s[n])
  }

  /** An element at two positions counts twice. */
  lemma TwiceInSequence<T>(s: seq<T>, m: nat, n: nat)
    requires m < n < |s| && s[m] == s[n]
    ensures multiset(s)[s[m]] >= 2
  {
    assert s == s[..n] + [s[n]] + s[n + 1..];
    assert s[m] in s[..n];
  }

  lemma OnceInDistinct<T, K>(key: T -> K, s: seq<T>, x: T)
    requires DistinctBy(key, s)
    ensures multiset(s)[x] <= 1
  {
    if x in s {
      var n :| 0 <= n < |s| && s[n] == x;
      assert s == s[..n] + [s[n]] + s[n + 1..];
      assert x !in s[..n] && x !in s[n + 1..];
    }
  }

  /** Elements told apart by a key stay so in any order. */
  lemma PermutedDistinct<T, K>(key: T -> K, a: seq<T>, b: seq<T>)
    requires DistinctBy(key, a) && multiset(a) == multiset(b)
    ensures DistinctBy(key, b)
  {
    forall m, n | 0 <= m < n < |b|
      ensures key(b[m]) != key(b[n])
    {
      if key(b[m]) == key(b[n]) {
        assert b[m] in multiset(a) && b[n] in multiset(a);
        var i :| 0 <= i < |a| && a[i] == b[m];
        var j :| 0 <= j < |a| && a[j] == b[n];
        assert i == j;
        TwiceInSequence(b, m, n);
        OnceInDistinct(key, a, b[m]);
      }
    }
  }

  /** A sequence without repeats inside another is no longer, and of equal length only if it
      has all its elements. */
  lemma {:induction false} DistinctInside<T>(a: seq<T>, b: seq<T>)
    requires DistinctBy((x: T) => x, a) && forall x | x in a :: x in b
    ensures |a| <= |b|
    ensures |a| == |b| ==> forall x | x in b :: x in a
  {
    if a != [] {
      var x := a[0];
      assert x in a;
      var j :| 0 <= j < |b| && b[j] == x;
      var rest := b[..j] + b[j + 1..];
      assert b == b[..j] + [x] + b[j + 1..];
      forall y | y in a[1..]
        ensures y in rest
      {
        assert y in a && y != x;
      }
      DistinctInside(a[1..], rest);
      forall y | y in b && |a| == |b|
        ensures y in a
      {
        if y != x {
          assert y in rest && y in a[1..];
        }
      }
    }
  }
}
