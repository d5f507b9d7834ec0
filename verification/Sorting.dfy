/** Python's stable sort, as insertion from the right. */
module Sorting {
  // precedes(x, y): x has to come before y. Neither way round means a tie.
  ghost predicate StrictWeakOrder<T(!new)>(precedes: (T, T) -> bool) {
    && (forall x, y :: precedes(x, y) ==> !precedes(y, x))
    && (forall x, y, z :: !precedes(x, y) && !precedes(y, z) ==> !precedes(x, z))
  }

  ghost predicate InOrder<T>(precedes: (T, T) -> bool, s: seq<T>) {
    forall i, j :: 0 <= i < j < |s| ==> !precedes(s[j], s[i])
  }

  function Insert<T>(precedes: (T, T) -> bool, x: T, s: seq<T>): (r: seq<T>)
    ensures multiset(r) == multiset(s) + multiset{x}
    ensures |r| == |s| + 1
  {
    if s == [] || !precedes(s[0], x) then
      assert [x] + s == [x] + s;
      [x] + s
    else
      assert s == [s[0]] + s[1..];
      [s[0]] + Insert(precedes, x, s[1..])
  }

  function Sort<T>(precedes: (T, T) -> bool, s: seq<T>): (r: seq<T>)
    ensures multiset(r) == multiset(s)
    ensures |r| == |s|
  {
    if s == [] then []
    else
      assert s == [s[0]] + s[1..];
      Insert(precedes, s[0], Sort(precedes, s[1..]))
  }

  lemma {:induction false} InsertInOrder<T(!new)>(precedes: (T, T) -> bool, x: T, s: seq<T>)
    requires StrictWeakOrder(precedes) && InOrder(precedes, s)
    ensures InOrder(precedes, Insert(precedes, x, s))
  {
    if s != [] {
      if precedes(s[0], x) {
        InsertInOrder(precedes, x, s[1..]);
        var r := Insert(precedes, x, s[1..]);
        forall j | 0 <= j < |r| ensures !precedes(r[j], s[0]) {
          assert r[j] in multiset(r);
          assert r[j] == x || r[j] in s[1..];
        }
      }
    }
  }

  /** The result is a rearrangement in which nothing stands before something that precedes it. */
  lemma {:induction false} SortInOrder<T(!new)>(precedes: (T, T) -> bool, s: seq<T>)
    requires StrictWeakOrder(precedes)
    ensures InOrder(precedes, Sort(precedes, s))
  {
    if s != [] {
      SortInOrder(precedes, s[1..]);
      InsertInOrder(precedes, s[0], Sort(precedes, s[1..]));
    }
  }

  // ----- Stability -----

  predicate Tied<T>(precedes: (T, T) -> bool, x: T, y: T) {
    !precedes(x, y) && !precedes(y, x)
  }

  function TieOf<T>(precedes: (T, T) -> bool, x: T, y: T): seq<T> {
    if Tied(precedes, x, y) then [y] else []
  }

  // The elements that tie with x, in the order they stand.
  function Ties<T>(precedes: (T, T) -> bool, x: T, s: seq<T>): seq<T> {
    if s == [] then [] else TieOf(precedes, x, s[0]) + Ties(precedes, x, s[1..])
  }

  lemma TiesOfMore<T>(precedes: (T, T) -> bool, x: T, first: T, rest: seq<T>)
    ensures Ties(precedes, x, [first] + rest) == TieOf(precedes, x, first) + Ties(precedes, x, rest)
  {
    assert ([first] + rest)[1..] == rest;
  }

  // Elements one of which precedes the other do not both tie with x.
  lemma NotBothTie<T(!new)>(precedes: (T, T) -> bool, x: T, y: T, z: T)
    requires StrictWeakOrder(precedes) && precedes(y, z)
    ensures !Tied(precedes, x, y) || !Tied(precedes, x, z)
  {
  }

  lemma OneIsEmpty<T>(a: seq<T>, b: seq<T>, c: seq<T>)
    requires a == [] || b == []
    ensures a + (b + c) == b + (a + c)
  {
  }

  lemma {:induction false} InsertKeepsTies<T(!new)>(precedes: (T, T) -> bool, e: T, s: seq<T>, x: T)
    requires StrictWeakOrder(precedes)
    ensures Ties(precedes, x, Insert(precedes, e, s)) == TieOf(precedes, x, e) + Ties(precedes, x, s)
  {
    if s == [] || !precedes(s[0], e) {
      TiesOfMore(precedes, x, e, s);
    } else {
      InsertKeepsTies(precedes, e, s[1..], x);
      TiesOfMore(precedes, x, s[0], Insert(precedes, e, s[1..]));
      NotBothTie(precedes, x, s[0], e);
      OneIsEmpty(TieOf(precedes, x, s[0]), TieOf(precedes, x, e), Ties(precedes, x, s[1..]));
    }
  }

  /** Sorting leaves the elements that tie with each other in the order they had. */
  lemma {:induction false} SortIsStable<T(!new)>(precedes: (T, T) -> bool, s: seq<T>, x: T)
    requires StrictWeakOrder(precedes)
    ensures Ties(precedes, x, Sort(precedes, s)) == Ties(precedes, x, s)
  {
    if s != [] {
      SortIsStable(precedes, s[1..], x);
      InsertKeepsTies(precedes, s[0], Sort(precedes, s[1..]), x);
    }
  }

  // Elements that tie stand in the order before gives them.
  ghost predicate TiesInOrder<T>(precedes: (T, T) -> bool, before: (T, T) -> bool, s: seq<T>) {
    forall i, j :: 0 <= i < j < |s| && Tied(precedes, s[i], s[j]) ==> before(s[i], s[j])
  }

  lemma {:induction false} InsertKeepsOrder<T>(precedes: (T, T) -> bool, before: (T, T) -> bool, e: T, s: seq<T>)
    requires TiesInOrder(precedes, before, s) && forall y :: y in s ==> before(e, y)
    ensures TiesInOrder(precedes, before, Insert(precedes, e, s))
  {
    if s != [] && precedes(s[0], e) {
      assert s == [s[0]] + s[1..];
      InsertKeepsOrder(precedes, before, e, s[1..]);
      var rest := Insert(precedes, e, s[1..]);
      forall j | 0 <= j < |rest| && Tied(precedes, s[0], rest[j]) ensures before(s[0], rest[j]) {
        assert rest[j] in multiset(rest);
        assert rest[j] == e || rest[j] in s[1..];
        var k :| 0 <= k < |s[1..]| && s[1..][k] == rest[j];
        assert s[k + 1] == rest[j];
      }
    }
  }

  /** If a list is in some order, sorting it by anything else leaves the ties in that order. */
  lemma {:induction false} SortKeepsOrder<T>(precedes: (T, T) -> bool, before: (T, T) -> bool, s: seq<T>)
    requires forall i, j :: 0 <= i < j < |s| ==> before(s[i], s[j])
    ensures TiesInOrder(precedes, before, Sort(precedes, s))
  {
    if s != [] {
      var rest := s[1..];
      assert forall i :: 0 <= i < |rest| ==> rest[i] == s[i + 1];
      SortKeepsOrder(precedes, before, rest);
      forall y | y in Sort(precedes, rest) ensures before(s[0], y) {
        SameElements(rest, Sort(precedes, rest), y);
        var k :| 0 <= k < |rest| && rest[k] == y;
      }
      InsertKeepsOrder(precedes, before, s[0], Sort(precedes, rest));
    }
  }

  // ----- Strings -----

  // The order of strings, character by character.
  predicate LexLess(a: string, b: string) {
    b != [] && (a == [] || a[0] < b[0] || (a[0] == b[0] && LexLess(a[1..], b[1..])))
  }

  lemma {:induction false} LexIsStrict(a: string, b: string)
    ensures !(LexLess(a, b) && LexLess(b, a)) && !LexLess(a, a)
    ensures a == b || LexLess(a, b) || LexLess(b, a)
  {
    if a != [] && b != [] {
      LexIsStrict(a[1..], b[1..]);
      assert a == [a[0]] + a[1..] && b == [b[0]] + b[1..];
    }
    if a != [] { LexIsStrict(a[1..], a[1..]); }
  }

  lemma {:induction false} LexTransitive(a: string, b: string, c: string)
    requires LexLess(a, b) && LexLess(b, c)
    ensures LexLess(a, c)
  {
    if a != [] && a[0] == b[0] && b[0] == c[0] { LexTransitive(a[1..], b[1..], c[1..]); }
  }

  lemma LexIsOrder()
    ensures StrictWeakOrder(LexLess)
  {
    forall x, y | LexLess(x, y) ensures !LexLess(y, x) { LexIsStrict(x, y); }
    forall x, y, z | !LexLess(x, y) && !LexLess(y, z) ensures !LexLess(x, z) {
      LexIsStrict(x, y);
      LexIsStrict(y, z);
      if LexLess(z, y) && LexLess(y, x) { LexTransitive(z, y, x); }
      LexIsStrict(x, z);
    }
  }

  // a and b agree on their first k characters, and then a ends or has the smaller character.
  predicate PartsAt(a: string, b: string, k: nat) {
    && k <= |a| && k < |b| && a[..k] == b[..k]
    && (k == |a| || a[k] < b[k])
  }

  ghost predicate ComesBefore(a: string, b: string) {
    exists k: nat :: PartsAt(a, b, k)
  }

  lemma SameStart(a: string, b: string, k: nat)
    requires 0 < k <= |a| && k <= |b| && a[..k] == b[..k]
    ensures a[0] == b[0]
  {
    assert a[..k][0] == b[..k][0];
  }

  /** The order of strings is decided where they first part. */
  lemma {:induction false} LexLessExactlyWhen(a: string, b: string)
    ensures LexLess(a, b) <==> ComesBefore(a, b)
  {
    if b == [] {
    } else if a == [] {
      assert PartsAt(a, b, 0);
    } else if a[0] != b[0] {
      if LexLess(a, b) { assert PartsAt(a, b, 0); }
      if ComesBefore(a, b) {
        var k: nat :| PartsAt(a, b, k);
        if k > 0 { SameStart(a, b, k); }
      }
    } else {
      LexLessExactlyWhen(a[1..], b[1..]);
      if LexLess(a, b) {
        var k: nat :| PartsAt(a[1..], b[1..], k);
        assert a[..k + 1] == [a[0]] + a[1..][..k] && b[..k + 1] == [b[0]] + b[1..][..k];
        assert PartsAt(a, b, k + 1);
      }
      if ComesBefore(a, b) {
        var k: nat :| PartsAt(a, b, k);
        assert a[1..][..k - 1] == a[..k][1..] && b[1..][..k - 1] == b[..k][1..];
        assert PartsAt(a[1..], b[1..], k - 1);
      }
    }
  }

  // A set of strings as a list in string order, each once.
  ghost predicate IsSortedListing(xs: seq<string>, s: set<string>) {
    multiset(xs) == multiset(s) && forall i, j :: 0 <= i < j < |xs| ==> LexLess(xs[i], xs[j])
  }

  // sorted(s) for a set of strings.
  method SortedListing(s: set<string>) returns (xs: seq<string>)
    ensures IsSortedListing(xs, s)
  {
    var listed := Listing(s);
    xs := Sort(LexLess, listed);
    LexIsOrder();
    SortInOrder(LexLess, listed);
    DistinctListing(xs, s);
    forall i, j | 0 <= i < j < |xs| ensures LexLess(xs[i], xs[j]) { LexIsStrict(xs[i], xs[j]); }
  }

  lemma SameElements<T>(s: seq<T>, t: seq<T>, x: T)
    requires multiset(s) == multiset(t)
    ensures x in s <==> x in t
    ensures |s| == |t|
  {
    assert x in s <==> x in multiset(s);
    assert x in t <==> x in multiset(t);
    assert |s| == |multiset(s)| == |multiset(t)| == |t|;
  }

  lemma SomeMember<T>(s: set<T>) returns (x: T)
    requires s != {}
    ensures x in s
  {
    x :| x in s;
  }

  lemma FirstIsMember<T>(s: seq<T>)
    requires s != []
    ensures s[0] in s
  {
  }

  lemma TwoPlaces<T>(xs: seq<T>, i: nat, j: nat)
    requires i < j < |xs| && xs[i] == xs[j]
    ensures multiset(xs)[xs[i]] >= 2
  {
    assert xs == xs[..i] + [xs[i]] + xs[i + 1..j] + [xs[j]] + xs[j + 1..];
  }

  lemma DistinctListing<T>(xs: seq<T>, s: set<T>)
    requires multiset(xs) == multiset(s)
    ensures forall i, j :: 0 <= i < j < |xs| ==> xs[i] != xs[j]
    ensures forall x :: x in xs <==> x in s
  {
    forall x ensures x in xs <==> x in s { assert x in xs <==> x in multiset(xs); }
    forall i, j | 0 <= i < j < |xs| ensures xs[i] != xs[j] {
      if xs[i] == xs[j] { TwoPlaces(xs, i, j); }
    }
  }

  lemma {:induction false} DistinctMultiset<T>(xs: seq<T>)
    requires forall i, j :: 0 <= i < j < |xs| ==> xs[i] != xs[j]
    ensures multiset(xs) == multiset(set x | x in xs)
  {
    if xs != [] {
      var n := |xs| - 1;
      DistinctMultiset(xs[..n]);
      assert xs == xs[..n] + [xs[n]];
      assert (set x | x in xs) == (set x | x in xs[..n]) + {xs[n]};
    }
  }

  // The elements of a set in some order, each once.
  method Listing<T(==)>(s: set<T>) returns (xs: seq<T>)
    ensures multiset(xs) == multiset(s)
  {
    xs := [];
    var rest := s;
    while rest != {}
      invariant rest <= s && multiset(xs) + multiset(rest) == multiset(s)
      decreases rest
    {
      var x :| x in rest;
      xs, rest := xs + [x], rest - {x};
    }
  }
}
