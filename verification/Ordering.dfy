/** Sorting by a strict order, which leaves no choice of what comes out. */
module Ordering {
  import opened Prelude

  ghost predicate Strict<T(!new)>(before: (T, T) -> bool, s: seq<T>) {
    forall i, j :: 0 <= i < j < |s| ==> before(s[i], s[j])
  }

  ghost predicate Asymmetric<T(!new)>(before: (T, T) -> bool) {
    forall x, y :: before(x, y) ==> !before(y, x)
  }

  ghost predicate Transitive<T(!new)>(before: (T, T) -> bool) {
    forall x, y, z :: before(x, y) && before(y, z) ==> before(x, z)
  }

  /** Of any two elements one comes first. */
  ghost predicate Comparable<T(!new)>(before: (T, T) -> bool, s: seq<T>) {
    forall i, j :: 0 <= i < j < |s| ==> before(s[i], s[j]) || before(s[j], s[i])
  }

  function Place<T(!new)>(before: (T, T) -> bool, s: seq<T>, x: T): seq<T> {
    if s == [] || !before(x, s[|s| - 1]) then s + [x] else Place(before, s[..|s| - 1], x) + [s[|s| - 1]]
  }

  function SortBy<T(!new)>(before: (T, T) -> bool, s: seq<T>): seq<T> {
    if s == [] then [] else Place(before, SortBy(before, s[..|s| - 1]), s[|s| - 1])
  }

  lemma {:induction false} PlaceMembers<T(!new)>(before: (T, T) -> bool, s: seq<T>, x: T)
    ensures forall y :: y in Place(before, s, x) <==> y in s || y == x
    ensures |Place(before, s, x)| == |s| + 1
    decreases |s|
  {
    if s != [] && before(x, s[|s| - 1]) {
      PlaceMembers(before, s[..|s| - 1], x);
      assert s == s[..|s| - 1] + [s[|s| - 1]];
    }
  }

  lemma StrictNext<T(!new)>(before: (T, T) -> bool, s: seq<T>, x: T)
    requires Strict(before, s) && forall y <- s :: before(y, x)
    ensures Strict(before, s + [x])
  {
    var t := s + [x];
    forall i, j | 0 <= i < j < |t| ensures before(t[i], t[j]) {
      assert t[i] == s[i] && s[i] in s;
    }
  }

  lemma BeforeAll<T(!new)>(before: (T, T) -> bool, s: seq<T>, x: T)
    requires Transitive(before) && Strict(before, s) && s != [] && before(s[|s| - 1], x)
    ensures forall y <- s :: before(y, x)
  {
    forall i | 0 <= i < |s| ensures before(s[i], x) {
      assert i < |s| - 1 ==> before(s[i], s[|s| - 1]);
    }
  }

  lemma {:induction false} PlaceIs<T(!new)>(before: (T, T) -> bool, s: seq<T>, x: T)
    requires Transitive(before) && Strict(before, s) && forall y <- s :: before(x, y) || before(y, x)
    ensures Strict(before, Place(before, s, x))
    decreases |s|
  {
    if s == [] {
    } else if !before(x, s[|s| - 1]) {
      assert s[|s| - 1] in s;
      BeforeAll(before, s, x);
      StrictNext(before, s, x);
    } else {
      var front, last := s[..|s| - 1], s[|s| - 1];
      assert s == front + [last];
      PlaceIs(before, front, x);
      PlaceMembers(before, front, x);
      forall y | y in front ensures before(y, last) {
        var i :| 0 <= i < |front| && front[i] == y;
        assert s[i] == y;
      }
      StrictNext(before, Place(before, front, x), last);
    }
  }

  lemma {:induction false} SortByIs<T(!new)>(before: (T, T) -> bool, s: seq<T>)
    requires Transitive(before) && Comparable(before, s)
    ensures Strict(before, SortBy(before, s)) && |SortBy(before, s)| == |s| && forall y :: y in SortBy(before, s) <==> y in s
    decreases |s|
  {
    if s != [] {
      var front, last := s[..|s| - 1], s[|s| - 1];
      assert s == front + [last];
      SortByIs(before, front);
      forall y | y in front ensures before(last, y) || before(y, last) {
        var i :| 0 <= i < |front| && front[i] == y;
        assert s[i] == y;
      }
      PlaceIs(before, SortBy(before, front), last);
      PlaceMembers(before, SortBy(before, front), last);
    }
  }

  /** In strict order, the same elements make the same sequence. */
  lemma {:induction false} OneOrder<T(!new)>(before: (T, T) -> bool, a: seq<T>, b: seq<T>)
    requires Asymmetric(before) && Strict(before, a) && Strict(before, b) && forall x :: x in a <==> x in b
    ensures a == b
    decreases |a|
  {
    SameEmpty(a, b);
    if a != [] {
      FirstOfBoth(before, a, b);
      Rest(before, a);
      Rest(before, b);
      OneOrder(before, a[1..], b[1..]);
      assert a == [a[0]] + a[1..] && b == [b[0]] + b[1..];
    }
  }

  lemma SameEmpty<T(!new)>(a: seq<T>, b: seq<T>)
    requires forall x :: x in a <==> x in b
    ensures a == [] <==> b == []
  {
    if a != [] {
      assert a[0] in a;
    }
    if b != [] {
      assert b[0] in b;
    }
  }

  lemma FirstOfBoth<T(!new)>(before: (T, T) -> bool, a: seq<T>, b: seq<T>)
    requires Asymmetric(before) && Strict(before, a) && Strict(before, b) && a != [] && b != [] && forall x :: x in a <==> x in b
    ensures a[0] == b[0]
  {
    assert a[0] in b && b[0] in a;
    var i :| 0 <= i < |b| && b[i] == a[0];
    var j :| 0 <= j < |a| && a[j] == b[0];
    assert i > 0 ==> before(b[0], a[0]);
    assert j > 0 ==> before(a[0], b[0]);
  }

  lemma Rest<T(!new)>(before: (T, T) -> bool, s: seq<T>)
    requires Asymmetric(before) && Strict(before, s) && s != []
    ensures Strict(before, s[1..]) && forall x :: x in s[1..] <==> x in s && x != s[0]
  {
    forall x | x in s[1..] ensures x in s && x != s[0] {
      var i :| 0 <= i < |s[1..]| && s[1..][i] == x;
      assert before(s[0], s[i + 1]);
    }
    forall x | x in s && x != s[0] ensures x in s[1..] {
      var i :| 0 <= i < |s| && s[i] == x;
      assert s[1..][i - 1] == x;
    }
  }

  // ---- text ----

  lemma {:induction false} TextTotal(a: string, b: string)
    ensures TextBefore(a, b) ==> !TextBefore(b, a)
    ensures a != b ==> TextBefore(a, b) || TextBefore(b, a)
    decreases |a|
  {
    if a != "" && b != "" {
      TextTotal(a[1..], b[1..]);
      assert a == [a[0]] + a[1..] && b == [b[0]] + b[1..];
    }
  }

  lemma {:induction false} TextTransitive(a: string, b: string, c: string)
    requires TextBefore(a, b) && TextBefore(b, c)
    ensures TextBefore(a, c)
    decreases |a|
  {
    if a != "" && a[0] == b[0] && b[0] == c[0] {
      TextTransitive(a[1..], b[1..], c[1..]);
    }
  }
}
