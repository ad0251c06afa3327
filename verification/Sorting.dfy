// Stable sorting by a weak order, as sort.SliceStable does it.
module Sorting {

  // above(a, b): a belongs strictly before b.
  ghost predicate WeakOrder<T(!new)>(above: (T, T) -> bool) {
    && (forall a, b :: above(a, b) ==> !above(b, a))
    && (forall a, b, c :: above(a, b) ==> above(a, c) || above(c, b))
  }

  predicate Sorted<T>(s: seq<T>, above: (T, T) -> bool) {
    forall i, j :: 0 <= i < j < |s| ==> !above(s[j], s[i])
  }

  // x goes behind every element that it is not strictly before.
  function Insert<T>(s: seq<T>, x: T, above: (T, T) -> bool): seq<T> {
    if s == [] || !above(x, s[|s| - 1]) then s + [x]
    else Insert(s[..|s| - 1], x, above) + [s[|s| - 1]]
  }

  function StableSort<T>(s: seq<T>, above: (T, T) -> bool): seq<T> {
    if s == [] then [] else Insert(StableSort(s[..|s| - 1], above), s[|s| - 1], above)
  }

  predicate Ties<T>(x: T, y: T, above: (T, T) -> bool) {
    !above(x, y) && !above(y, x)
  }

  // The elements that tie with x, in their order.
  function Tied<T>(s: seq<T>, x: T, above: (T, T) -> bool): seq<T> {
    if s == [] then []
    else Tied(s[..|s| - 1], x, above) + if Ties(x, s[|s| - 1], above) then [s[|s| - 1]] else []
  }

  lemma {:induction false} InsertKeepsAll<T>(s: seq<T>, x: T, above: (T, T) -> bool)
    ensures multiset(Insert(s, x, above)) == multiset(s) + multiset{x}
    ensures |Insert(s, x, above)| == |s| + 1
  {
    if s != [] && above(x, s[|s| - 1]) {
      InsertKeepsAll(s[..|s| - 1], x, above);
      assert s == s[..|s| - 1] + [s[|s| - 1]];
    }
  }

  lemma {:induction false} SortKeepsAll<T>(s: seq<T>, above: (T, T) -> bool)
    ensures multiset(StableSort(s, above)) == multiset(s)
    ensures |StableSort(s, above)| == |s|
  {
    if s != [] {
      SortKeepsAll(s[..|s| - 1], above);
      InsertKeepsAll(StableSort(s[..|s| - 1], above), s[|s| - 1], above);
      assert s == s[..|s| - 1] + [s[|s| - 1]];
    }
  }

  lemma SortKeepsElements<T>(s: seq<T>, above: (T, T) -> bool)
    ensures forall x :: x in StableSort(s, above) <==> x in s
  {
    SortKeepsAll(s, above);
    forall x ensures x in StableSort(s, above) <==> x in s {
      assert x in multiset(s) <==> x in multiset(StableSort(s, above));
    }
  }

  lemma {:induction false} InsertKeepsSorted<T(!new)>(s: seq<T>, x: T, above: (T, T) -> bool)
    requires WeakOrder(above) && Sorted(s, above)
    ensures Sorted(Insert(s, x, above), above)
  {
    if s != [] && above(x, s[|s| - 1]) {
      var n := |s| - 1;
      InsertKeepsSorted(s[..n], x, above);
      InsertKeepsAll(s[..n], x, above);
      var t := Insert(s[..n], x, above);
      forall i | 0 <= i < |t| ensures !above(s[n], t[i]) {
        assert t[i] in multiset(t);
        assert t[i] == x || t[i] in s[..n];
      }
    } else {
      forall i | 0 <= i < |s| ensures !above(x, s[i]) {
        assert i < |s| - 1 ==> !above(s[|s| - 1], s[i]);
      }
    }
  }

  lemma {:induction false} InsertKeepsTies<T(!new)>(s: seq<T>, x: T, y: T, above: (T, T) -> bool)
    requires WeakOrder(above)
    ensures Tied(Insert(s, x, above), y, above) == Tied(s + [x], y, above)
  {
    assert (s + [x])[..|s|] == s;
    if s != [] && above(x, s[|s| - 1]) {
      var n := |s| - 1;
      InsertKeepsTies(s[..n], x, y, above);
      var t := Insert(s[..n], x, above);
      assert (t + [s[n]])[..|t|] == t;
      assert (s[..n] + [x])[..n] == s[..n];
    }
  }

  // The result is sorted, holds the same elements as often, and keeps the order of elements that tie.
  lemma {:induction false} StableSortSorts<T(!new)>(s: seq<T>, above: (T, T) -> bool)
    requires WeakOrder(above)
    ensures Sorted(StableSort(s, above), above)
    ensures multiset(StableSort(s, above)) == multiset(s)
    ensures forall x :: Tied(StableSort(s, above), x, above) == Tied(s, x, above)
  {
    SortKeepsAll(s, above);
    if s != [] {
      var n := |s| - 1;
      StableSortSorts(s[..n], above);
      InsertKeepsSorted(StableSort(s[..n], above), s[n], above);
      forall x ensures Tied(StableSort(s, above), x, above) == Tied(s, x, above) {
        var t := StableSort(s[..n], above);
        InsertKeepsTies(t, s[n], x, above);
        assert (t + [s[n]])[..|t|] == t;
      }
    }
  }

  // ---- Keys ----

  ghost predicate DistinctBy<T, K>(s: seq<T>, key: T -> K) {
    forall i, j :: 0 <= i < j < |s| ==> key(s[i]) != key(s[j])
  }

  lemma TwiceInMultiset<T>(t: seq<T>, i: nat, j: nat)
    requires i < j < |t| && t[i] == t[j]
    ensures multiset(t)[t[i]] >= 2
  {
    assert t == t[..i] + [t[i]] + t[i + 1..j] + [t[j]] + t[j + 1..];
  }

  lemma {:induction false} OnceInMultiset<T, K>(s: seq<T>, key: T -> K, x: T)
    requires DistinctBy(s, key)
    ensures multiset(s)[x] <= 1
  {
    if s != [] {
      var n := |s| - 1;
      OnceInMultiset(s[..n], key, x);
      assert s == s[..n] + [s[n]];
      if x == s[n] {
        assert x !in s[..n];
        assert x !in multiset(s[..n]);
      }
    }
  }

  lemma OnePerKey<T, K>(s: seq<T>, key: T -> K, x: T, y: T)
    requires DistinctBy(s, key) && x in s && y in s && key(x) == key(y)
    ensures x == y
  {
    var i :| 0 <= i < |s| && s[i] == x;
    var j :| 0 <= j < |s| && s[j] == y;
    assert i == j;
  }

  // Sorting keeps elements with distinct keys so.
  lemma SortKeepsDistinct<T, K>(s: seq<T>, above: (T, T) -> bool, key: T -> K)
    requires DistinctBy(s, key)
    ensures DistinctBy(StableSort(s, above), key)
  {
    SortKeepsAll(s, above);
    SameElementsDistinct(s, StableSort(s, above), key);
  }

  lemma SameElementsDistinct<T, K>(s: seq<T>, t: seq<T>, key: T -> K)
    requires DistinctBy(s, key) && multiset(t) == multiset(s)
    ensures DistinctBy(t, key)
  {
    forall i, j | 0 <= i < j < |t| ensures key(t[i]) != key(t[j]) {
      assert t[i] in multiset(t) && t[j] in multiset(t);
      if key(t[i]) == key(t[j]) {
        OnePerKey(s, key, t[i], t[j]);
        TwiceInMultiset(t, i, j);
        OnceInMultiset(s, key, t[i]);
      }
    }
  }
}
