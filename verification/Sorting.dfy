/** Sorting by a strict order, as `sort_by` does, and what a total order makes of it. */
module Sorting {

  function Insert<T>(x: T, s: seq<T>, before: (T, T) -> bool): seq<T> {
    if s == [] || before(x, s[0]) then [x] + s else [s[0]] + Insert(x, s[1..], before)
  }

  function Sort<T>(s: seq<T>, before: (T, T) -> bool): seq<T> {
    if s == [] then [] else Insert(s[|s| - 1], Sort(s[..|s| - 1], before), before)
  }

  ghost predicate Sorted<T>(s: seq<T>, before: (T, T) -> bool) {
    forall i, j :: 0 <= i < j < |s| ==> before(s[i], s[j])
  }

  ghost predicate Distinct<T>(s: seq<T>) {
    forall i, j :: 0 <= i < j < |s| ==> s[i] != s[j]
  }

  /** `before` is a strict total order on the elements of `e`. */
  ghost predicate Orders<T(!new)>(before: (T, T) -> bool, e: set<T>) {
    && (forall x, y :: x in e && y in e && x != y ==> (before(x, y) <==> !before(y, x)))
    && (forall x, y, z :: x in e && y in e && z in e && before(x, y) && before(y, z) ==> before(x, z))
    && (forall x :: x in e ==> !before(x, x))
  }

  ghost predicate Within<T>(s: seq<T>, e: set<T>) { forall i :: 0 <= i < |s| ==> s[i] in e }

  ghost predicate SameElements<T(!new)>(a: seq<T>, b: seq<T>) { forall x :: x in a <==> x in b }

  lemma {:induction false} InsertElements<T(!new)>(x: T, s: seq<T>, before: (T, T) -> bool)
    ensures |Insert(x, s, before)| == |s| + 1
    ensures forall y :: y in Insert(x, s, before) <==> y == x || y in s
  {
    if s != [] && !before(x, s[0]) {
      InsertElements(x, s[1..], before);
      assert s == [s[0]] + s[1..];
    }
  }

  lemma {:induction false} SortElements<T(!new)>(s: seq<T>, before: (T, T) -> bool)
    ensures |Sort(s, before)| == |s|
    ensures SameElements(Sort(s, before), s)
  {
    if s != [] {
      var n := |s| - 1;
      SortElements(s[..n], before);
      InsertElements(s[n], Sort(s[..n], before), before);
      assert s == s[..n] + [s[n]];
    }
  }

  lemma SortedPush<T(!new)>(x: T, s: seq<T>, before: (T, T) -> bool)
    requires Sorted(s, before) && forall y :: y in s ==> before(x, y)
    ensures Sorted([x] + s, before)
  {
    var r := [x] + s;
    forall i, j | 0 <= i < j < |r| ensures before(r[i], r[j]) {
      assert r[j] == s[j - 1];
      if i > 0 { assert r[i] == s[i - 1]; } else { assert s[j - 1] in s; }
    }
  }

  lemma SortedPop<T(!new)>(s: seq<T>, before: (T, T) -> bool)
    requires Sorted(s, before) && s != []
    ensures Sorted(s[1..], before) && forall y :: y in s[1..] ==> before(s[0], y)
  {
    forall y | y in s[1..] ensures before(s[0], y) {
      var j :| 0 <= j < |s[1..]| && s[1..][j] == y;
      assert s[j + 1] == y;
    }
  }

  lemma {:induction false} InsertSorts<T(!new)>(x: T, s: seq<T>, before: (T, T) -> bool, e: set<T>)
    requires Sorted(s, before) && Orders(before, e) && Within(s, e) && x in e && x !in s
    ensures Sorted(Insert(x, s, before), before)
  {
    if s == [] {
      SortedPush(x, s, before);
    } else {
      SortedPop(s, before);
      if before(x, s[0]) {
        forall y | y in s ensures before(x, y) { if y != s[0] { assert y in s[1..]; } }
        SortedPush(x, s, before);
      } else {
        InsertSorts(x, s[1..], before, e);
        InsertElements(x, s[1..], before);
        SortedPush(s[0], Insert(x, s[1..], before), before);
      }
    }
  }

  lemma {:induction false} SortSorts<T(!new)>(s: seq<T>, before: (T, T) -> bool, e: set<T>)
    requires Distinct(s) && Orders(before, e) && Within(s, e)
    ensures Sorted(Sort(s, before), before)
  {
    if s != [] {
      var n := |s| - 1;
      SortSorts(s[..n], before, e);
      SortElements(s[..n], before);
      var t := Sort(s[..n], before);
      forall i | 0 <= i < |t| ensures t[i] in e { assert t[i] in t; assert t[i] in s[..n]; }
      InsertSorts(s[n], t, before, e);
    }
  }

  /** There is one sorted arrangement. */
  lemma {:induction false} SortedIsUnique<T(!new)>(a: seq<T>, b: seq<T>, before: (T, T) -> bool, e: set<T>)
    requires Sorted(a, before) && Sorted(b, before) && SameElements(a, b) && Orders(before, e) && Within(a, e)
             && Within(b, e)
    ensures a == b
  {
    if a == [] {
      assert forall i :: 0 <= i < |b| ==> b[i] in a;
    } else {
      FirstIsSame(a, b, before, e);
      SortedPop(a, before);
      SortedPop(b, before);
      assert a == [a[0]] + a[1..] && b == [b[0]] + b[1..];
      forall x ensures x in a[1..] <==> x in b[1..] {
        assert x in a[1..] ==> x in a;
        assert x in b[1..] ==> x in b;
      }
      SortedIsUnique(a[1..], b[1..], before, e);
    }
  }

  lemma FirstIsSame<T(!new)>(a: seq<T>, b: seq<T>, before: (T, T) -> bool, e: set<T>)
    requires Sorted(a, before) && Sorted(b, before) && SameElements(a, b) && Orders(before, e) && Within(a, e)
             && Within(b, e) && a != []
    ensures b != [] && a[0] == b[0]
  {
    assert a[0] in a;
    assert a[0] in b;
    assert b[0] in b;
    assert b[0] in a;
    SortedPop(a, before);
    SortedPop(b, before);
  }

  /** Sorting forgets the order it was given. */
  lemma SortIsDetermined<T(!new)>(a: seq<T>, b: seq<T>, before: (T, T) -> bool, e: set<T>)
    requires Distinct(a) && Distinct(b) && SameElements(a, b) && Orders(before, e) && Within(a, e) && Within(b, e)
    ensures Sort(a, before) == Sort(b, before)
  {
    SortElements(a, before);
    SortElements(b, before);
    SortSorts(a, before, e);
    SortSorts(b, before, e);
    var s, t := Sort(a, before), Sort(b, before);
    forall i | 0 <= i < |s| ensures s[i] in e { assert s[i] in s; assert s[i] in a; }
    forall i | 0 <= i < |t| ensures t[i] in e { assert t[i] in t; assert t[i] in b; }
    SortedIsUnique(s, t, before, e);
  }
}
