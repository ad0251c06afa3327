// ORDER BY and LIMIT over a finite set of rows, for a strict total order on the rows.
module Ordering {
  import opened Sets

  ghost predicate StrictTotal<T(!new)>(lt: (T, T) -> bool) {
    && (forall a :: !lt(a, a))
    && (forall a, b :: a == b || lt(a, b) || lt(b, a))
    && (forall a, b, c :: lt(a, b) && lt(b, c) ==> lt(a, c))
  }

  ghost predicate IsFirst<T(!new)>(s: set<T>, lt: (T, T) -> bool, x: T) {
    x in s && forall y :: y in s && y != x ==> lt(x, y)
  }

  lemma {:induction false} HasFirst<T(!new)>(s: set<T>, lt: (T, T) -> bool)
    requires StrictTotal(lt) && s != {}
    ensures exists x :: IsFirst(s, lt, x)
    decreases |s|
  {
    var z := Pick(s);
    if s - {z} == {} {
      assert s == {z};
      assert IsFirst(s, lt, z);
    } else {
      HasFirst(s - {z}, lt);
      var x :| IsFirst(s - {z}, lt, x);
      assert forall y :: y in s ==> y == z || y in s - {z};
      assert IsFirst(s, lt, if lt(z, x) then z else x);
    }
  }

  ghost function First<T(!new)>(s: set<T>, lt: (T, T) -> bool): (x: T)
    requires StrictTotal(lt) && s != {}
    ensures IsFirst(s, lt, x)
  {
    HasFirst(s, lt);
    var x :| IsFirst(s, lt, x);
    x
  }

  // The rows in order.
  ghost function Listing<T(!new)>(s: set<T>, lt: (T, T) -> bool): (rows: seq<T>)
    requires StrictTotal(lt)
    ensures |rows| == |s|
    decreases |s|
  {
    if s == {} then []
    else
      var x := First(s, lt);
      [x] + Listing(s - {x}, lt)
  }

  // The first n rows, or all of them.
  ghost function TopRows<T(!new)>(s: set<T>, lt: (T, T) -> bool, n: nat): (rows: seq<T>)
    requires StrictTotal(lt)
  {
    var all := Listing(s, lt);
    if n < |all| then all[..n] else all
  }

  ghost predicate Ascending<T(!new)>(rows: seq<T>, lt: (T, T) -> bool) {
    forall i, j :: 0 <= i < j < |rows| ==> lt(rows[i], rows[j])
  }

  function Elements<T>(rows: seq<T>): set<T> {
    set x | x in rows
  }

  lemma {:induction false} ListingIsSorted<T(!new)>(s: set<T>, lt: (T, T) -> bool)
    requires StrictTotal(lt)
    ensures Ascending(Listing(s, lt), lt)
    ensures forall x :: x in Listing(s, lt) <==> x in s
    decreases |s|
  {
    if s == {} {
      assert Listing(s, lt) == [];
    } else {
      var x := First(s, lt);
      ListingIsSorted(s - {x}, lt);
      assert Listing(s, lt) == [x] + Listing(s - {x}, lt);
    }
  }

  // An ascending sequence of exactly the rows of s is its listing.
  lemma {:induction false} ListingIsUnique<T(!new)>(s: set<T>, lt: (T, T) -> bool, rows: seq<T>)
    requires StrictTotal(lt) && Ascending(rows, lt)
    requires forall x :: x in rows <==> x in s
    ensures rows == Listing(s, lt)
    decreases |s|
  {
    assert rows != [] ==> rows[0] in s;
    if s != {} {
      var x := First(s, lt);
      assert rows[0] == x by {
        assert x in rows;
        var i :| 0 <= i < |rows| && rows[i] == x;
        assert rows[0] in s;
      }
      forall y | y in rows[1..] ensures y in s - {x} {
        var i :| 0 <= i < |rows[1..]| && rows[1..][i] == y;
        assert lt(rows[0], rows[i + 1]);
      }
      forall y | y in s - {x} ensures y in rows[1..] {
        var i :| 0 <= i < |rows| && rows[i] == y;
        assert rows[1..][i - 1] == y;
      }
      ListingIsUnique(s - {x}, lt, rows[1..]);
      assert rows == [x] + rows[1..];
    }
  }

  // The limit keeps the best rows: as many as it may, each before every row left out.
  lemma TopRowsAreFirst<T(!new)>(s: set<T>, lt: (T, T) -> bool, n: nat)
    requires StrictTotal(lt)
    ensures var rows := TopRows(s, lt, n);
            && |rows| == (if n < |s| then n else |s|)
            && Ascending(rows, lt)
            && (forall x :: x in rows ==> x in s)
            && (forall x, y :: x in rows && y in s && y !in rows ==> lt(x, y))
  {
    ListingIsSorted(s, lt);
    var all := Listing(s, lt);
    var rows := TopRows(s, lt, n);
    forall x, y | x in rows && y in s && y !in rows ensures lt(x, y) {
      var i :| 0 <= i < |rows| && rows[i] == x;
      assert forall k :: 0 <= k < |rows| ==> all[k] in rows;
      assert y in all;
      var j :| 0 <= j < |all| && all[j] == y;
    }
  }
}
