// Keyset pagination: the limit+1 queries of internal/adapters/store/store.go and the cursors of
// internal/adapters/httpapi/httpapi.go. A row is identified with the columns of its ORDER BY,
// which end in a unique one; lt says which of two rows is listed first.
module Paging {
  import opened Options
  import opened Ordering

  // WHERE cursor IS NULL OR the row is listed after the cursor.
  ghost function After<T(!new)>(rows: set<T>, lt: (T, T) -> bool, cursor: Option<T>): set<T> {
    set x | x in rows && (cursor.None? || lt(cursor.value, x))
  }

  // One answer: the rows shown and the next cursor.
  datatype Page<T> = Page(items: seq<T>, next: Option<T>)

  function NextCursor<T>(v: seq<T>, limit: nat): Option<T>
    requires limit >= 1
  {
    if |v| <= limit then None else Some(v[limit - 1])
  }

  ghost function Query<T(!new)>(rows: set<T>, lt: (T, T) -> bool, cursor: Option<T>, limit: nat): Page<T>
    requires StrictTotal(lt) && limit >= 1
  {
    var v := TopRows(After(rows, lt, cursor), lt, limit + 1);
    Page(if |v| > limit then v[..limit] else v, NextCursor(v, limit))
  }

  // Following the cursors, where tables(i) holds the matching rows when page i is read.
  ghost function Walk<T(!new)>(tables: nat -> set<T>, lt: (T, T) -> bool, cursor: Option<T>, limit: nat, page: nat,
                        fuel: nat): seq<T>
    requires StrictTotal(lt) && limit >= 1
    decreases fuel
  {
    var p := Query(tables(page), lt, cursor, limit);
    if p.next.None? || fuel == 0 then p.items
    else p.items + Walk(tables, lt, p.next, limit, page + 1, fuel - 1)
  }

  // The walk reaches a page without a next cursor.
  ghost predicate Ends<T(!new)>(tables: nat -> set<T>, lt: (T, T) -> bool, cursor: Option<T>, limit: nat, page: nat, fuel: nat)
    requires StrictTotal(lt) && limit >= 1
    decreases fuel
  {
    var next := Query(tables(page), lt, cursor, limit).next;
    next.None? || (fuel > 0 && Ends(tables, lt, next, limit, page + 1, fuel - 1))
  }

  // The rows listed after a row that ends a prefix of the listing are the rest of the listing.
  lemma AfterPrefix<T(!new)>(s: set<T>, lt: (T, T) -> bool, n: nat)
    requires StrictTotal(lt) && 1 <= n <= |s|
    ensures Listing(After(s, lt, Some(Listing(s, lt)[n - 1])), lt) == Listing(s, lt)[n..]
  {
    ListingIsSorted(s, lt);
    var all := Listing(s, lt);
    var rest := After(s, lt, Some(all[n - 1]));
    forall x ensures x in all[n..] <==> x in rest {
      if x in all[n..] {
        var i :| n <= i < |all| && all[i] == x;
        assert x in all;
      }
      if x in rest {
        assert x in all;
        var i :| 0 <= i < |all| && all[i] == x;
        assert i >= n;
        assert all[n..][i - n] == x;
      }
    }
    ListingIsUnique(rest, lt, all[n..]);
  }

  // Rows that come in while the walk is under way are newer than every row it started with.
  ghost predicate GrowsAtTheTop<T(!new)>(tables: nat -> set<T>, lt: (T, T) -> bool) {
    && (forall i :: tables(0) <= tables(i))
    && (forall i, x, y :: x in tables(i) && x !in tables(0) && y in tables(0) ==> lt(x, y))
  }

  lemma NewRowsStayAbove<T(!new)>(tables: nat -> set<T>, lt: (T, T) -> bool, page: nat, cursor: T)
    requires StrictTotal(lt) && GrowsAtTheTop(tables, lt) && cursor in tables(0)
    ensures After(tables(page), lt, Some(cursor)) == After(tables(0), lt, Some(cursor))
  {
    forall x ensures x in After(tables(page), lt, Some(cursor)) <==> x in After(tables(0), lt, Some(cursor)) {
      if x in tables(page) && x !in tables(0) {
        assert lt(x, cursor);
      }
    }
  }

  lemma {:induction false} WalkFromCursor<T(!new)>(tables: nat -> set<T>, lt: (T, T) -> bool, all: seq<T>, n: nat,
                          cursor: Option<T>,
                                                   limit: nat, page: nat, fuel: nat)
    requires StrictTotal(lt) && limit >= 1 && GrowsAtTheTop(tables, lt)
    requires all == Listing(tables(0), lt) && n <= |all| <= n + fuel && (n == 0 ==> page == 0)
    requires cursor == if n == 0 then None else Some(all[n - 1])
    ensures Walk(tables, lt, cursor, limit, page, fuel) == all[n..]
    ensures Ends(tables, lt, cursor, limit, page, fuel)
    decreases fuel
  {
    hide Listing, After, GrowsAtTheTop, StrictTotal, TopRows, Query, PageOf, Walk, Ends;
    PageAtCursor(tables, lt, n, limit, page, cursor, all);
    EndsStep(tables, lt, cursor, limit, page, fuel, all[n..]);
    WalkStep(tables, lt, cursor, limit, page, fuel, all[n..]);
    if |all| - n > limit {
      SplitRest(all, n, limit);
      WalkFromCursor(tables, lt, all, n + limit, Some(all[n + limit - 1]), limit, page + 1, fuel - 1);
    }
  }

  lemma PageAtCursor<T(!new)>(tables: nat -> set<T>, lt: (T, T) -> bool, n: nat, limit: nat, page: nat,
                       cursor: Option<T>, all: seq<T>)
    requires StrictTotal(lt) && limit >= 1 && GrowsAtTheTop(tables, lt)
    requires n <= |tables(0)| && (n == 0 ==> page == 0)
    requires all == Listing(tables(0), lt) && cursor == if n == 0 then None else Some(all[n - 1])
    ensures Query(tables(page), lt, cursor, limit) == PageOf(all[n..], limit)
  {
    RestIsListed(tables, lt, n, page);
    PageOfListing(After(tables(page), lt, cursor), lt, limit);
    hide Listing, After, GrowsAtTheTop, StrictTotal, TopRows;
  }

  lemma WalkStep<T(!new)>(tables: nat -> set<T>, lt: (T, T) -> bool, cursor: Option<T>, limit: nat, page: nat,
                   fuel: nat, rest: seq<T>)
    requires StrictTotal(lt) && limit >= 1 && Query(tables(page), lt, cursor, limit) == PageOf(rest, limit) && fuel >= |rest|
    ensures Walk(tables, lt, cursor, limit, page, fuel)
         == if |rest| <= limit then rest
            else rest[..limit] + Walk(tables, lt, Some(rest[limit - 1]), limit, page + 1, fuel - 1)
  {
    hide Query, StrictTotal;
  }

  lemma EndsStep<T(!new)>(tables: nat -> set<T>, lt: (T, T) -> bool, cursor: Option<T>, limit: nat, page: nat,
                   fuel: nat, rest: seq<T>)
    requires StrictTotal(lt) && limit >= 1 && Query(tables(page), lt, cursor, limit) == PageOf(rest, limit) && fuel >= |rest|
    ensures Ends(tables, lt, cursor, limit, page, fuel)
         == (|rest| <= limit || Ends(tables, lt, Some(rest[limit - 1]), limit, page + 1, fuel - 1))
  {
    hide Query, StrictTotal;
  }

  lemma SplitRest<T>(all: seq<T>, n: nat, limit: nat)
    requires n + limit <= |all| && limit >= 1
    ensures all[n..][..limit] + all[n + limit..] == all[n..] && all[n..][limit - 1] == all[n + limit - 1]
  {
  }

  // The page that starts a listing.
  function PageOf<T>(rest: seq<T>, limit: nat): Page<T>
    requires limit >= 1
  {
    if |rest| > limit then Page(rest[..limit], Some(rest[limit - 1])) else Page(rest, None)
  }

  lemma PageOfListing<T(!new)>(rows: set<T>, lt: (T, T) -> bool, limit: nat)
    requires StrictTotal(lt) && limit >= 1
    ensures var v := TopRows(rows, lt, limit + 1);
            Page(if |v| > limit then v[..limit] else v, NextCursor(v, limit)) == PageOf(Listing(rows, lt), limit)
  {
    var all := Listing(rows, lt);
    if |all| > limit + 1 {
      assert all[..limit + 1][..limit] == all[..limit];
    }
  }

  lemma RestIsListed<T(!new)>(tables: nat -> set<T>, lt: (T, T) -> bool, n: nat, page: nat)
    requires StrictTotal(lt) && GrowsAtTheTop(tables, lt)
    requires n <= |tables(0)| && (n == 0 ==> page == 0)
    ensures var all := Listing(tables(0), lt);
            Listing(After(tables(page), lt, if n == 0 then None else Some(all[n - 1])), lt) == all[n..]
  {
    var s := tables(0);
    var all := Listing(s, lt);
    if n == 0 {
      assert After(s, lt, None) == s;
      assert all[0..] == all;
    } else {
      ListingIsSorted(s, lt);
      assert all[n - 1] in all;
      NewRowsStayAbove(tables, lt, page, all[n - 1]);
      AfterPrefix(s, lt, n);
    }
  }

  // From the first page the cursors lead through every row that matched at the start, exactly
  // once and in the declared order, for every limit, whatever newer rows come in between pages;
  // the walk ends after at most as many pages as there are rows, and one.
  lemma CursorWalkIsFullListing<T(!new)>(tables: nat -> set<T>, lt: (T, T) -> bool, limit: nat, fuel: nat)
    requires StrictTotal(lt) && limit >= 1 && GrowsAtTheTop(tables, lt) && fuel >= |tables(0)|
    ensures Ends(tables, lt, None, limit, 0, fuel)
    ensures Walk(tables, lt, None, limit, 0, fuel) == Listing(tables(0), lt)
    ensures Ascending(Listing(tables(0), lt), lt)
    ensures forall x :: x in Walk(tables, lt, None, limit, 0, fuel) <==> x in tables(0)
  {
    WalkFromCursor(tables, lt, Listing(tables(0), lt), 0, None, limit, 0, fuel);
    ListingIsSorted(tables(0), lt);
    assert Listing(tables(0), lt)[0..] == Listing(tables(0), lt);
  }

  // ---- Tables that change during the walk ----

  ghost predicate Behind<T(!new)>(lt: (T, T) -> bool, cursor: Option<T>, x: T) {
    cursor.Some? ==> lt(cursor.value, x)
  }

  ghost predicate AllBehind<T(!new)>(lt: (T, T) -> bool, cursor: Option<T>, xs: seq<T>) {
    forall x :: x in xs ==> Behind(lt, cursor, x)
  }

  // v holds rows of s in order, and all others come after it.
  ghost predicate Heads<T(!new)>(v: seq<T>, s: set<T>, lt: (T, T) -> bool, n: nat) {
    && Ascending(v, lt) && |v| <= n
    && (forall x :: x in v ==> x in s)
    && (forall x :: x in s && x !in v ==> |v| == n && forall y :: y in v ==> lt(y, x))
  }

  lemma TopRowsHead<T(!new)>(s: set<T>, lt: (T, T) -> bool, n: nat)
    requires StrictTotal(lt)
    ensures Heads(TopRows(s, lt, n), s, lt, n)
  {
    TopRowsAreFirst(s, lt, n);
    ListingIsSorted(s, lt);
    hide StrictTotal, Listing;
  }

  lemma NextIsNotShown<T(!new)>(v: seq<T>, s: set<T>, lt: (T, T) -> bool, limit: nat)
    requires StrictTotal(lt) && Ascending(v, lt) && |v| > limit && forall x :: x in v ==> x in s
    ensures exists x :: x in s && x !in v[..limit]
  {
    var x := v[limit];
    assert x in v;
    forall i | 0 <= i < limit ensures v[i] != x {
      assert lt(v[i], v[limit]);
    }
  }

  lemma PageHeads<T(!new)>(v: seq<T>, s: set<T>, lt: (T, T) -> bool, limit: nat)
    requires StrictTotal(lt) && Heads(v, s, lt, limit + 1) && limit >= 1
    ensures var items := if |v| > limit then v[..limit] else v;
            && Heads(items, s, lt, limit)
            && (NextCursor(v, limit).Some? ==> items != [] && NextCursor(v, limit).value == items[|items| - 1])
            && (forall x :: x in s && x !in items ==> NextCursor(v, limit).Some?)
            && (NextCursor(v, limit).Some? ==> exists x :: x in s && x !in items)
  {
    if |v| > limit {
      var items := v[..limit];
      NextIsNotShown(v, s, lt, limit);
      forall x | x in s && x !in items ensures forall y :: y in items ==> lt(y, x) {
        if x in v {
          assert x == v[limit];
        }
      }
    }
  }

  // What one answer holds: at most limit rows behind the cursor, in order, and every such row that
  // does not come behind the next cursor; there is one exactly if some row is still to come.
  lemma QueryIsWindow<T(!new)>(rows: set<T>, lt: (T, T) -> bool, cursor: Option<T>, limit: nat)
    requires StrictTotal(lt) && limit >= 1
    ensures var p := Query(rows, lt, cursor, limit);
            && Ascending(p.items, lt) && AllBehind(lt, cursor, p.items) && |p.items| <= limit
            && (forall x :: x in p.items ==> x in rows)
            && (p.next.Some? <==> exists x :: x in rows && Behind(lt, cursor, x) && x !in p.items)
            && (p.next.Some? ==> p.items != [] && p.next.value == p.items[|p.items| - 1])
            && (forall x :: x in rows && Behind(lt, cursor, x) && x !in p.items ==> p.next.Some? && lt(p.next.value, x))
  {
    var here := After(rows, lt, cursor);
    TopRowsHead(here, lt, limit + 1);
    PageHeads(TopRows(here, lt, limit + 1), here, lt, limit);
    hide TopRows, StrictTotal, Ascending, NextCursor;
    assert forall x :: x in here <==> x in rows && Behind(lt, cursor, x);
    hide After, Behind;
  }

  lemma AppendPage<T(!new)>(cursor: Option<T>, a: seq<T>, b: seq<T>, lt: (T, T) -> bool)
    requires StrictTotal(lt) && Ascending(a, lt) && Ascending(b, lt) && a != []
    requires AllBehind(lt, cursor, a) && AllBehind(lt, Some(a[|a| - 1]), b)
    ensures Ascending(a + b, lt) && AllBehind(lt, cursor, a + b)
  {
    var last := a[|a| - 1];
    assert last in a;
    forall x | x in b ensures lt(last, x) && Behind(lt, cursor, x) {
      assert Behind(lt, Some(last), x) && Behind(lt, cursor, last);
    }
    forall i, j | 0 <= i < j < |a + b| ensures lt((a + b)[i], (a + b)[j]) {
      if i < |a| <= j {
        assert b[j - |a|] in b;
        assert i == |a| - 1 || lt(a[i], last);
      }
    }
  }

  lemma WalkUnfolds<T(!new)>(tables: nat -> set<T>, lt: (T, T) -> bool, cursor: Option<T>, limit: nat, page: nat, fuel: nat)
    requires StrictTotal(lt) && limit >= 1
    ensures var p := Query(tables(page), lt, cursor, limit);
            Walk(tables, lt, cursor, limit, page, fuel)
            == if p.next.None? || fuel == 0 then p.items
               else p.items + Walk(tables, lt, p.next, limit, page + 1, fuel - 1)
  {
    hide Query, StrictTotal;
  }

  lemma {:induction false} WalkIsAscending<T(!new)>(tables: nat -> set<T>, lt: (T, T) -> bool, cursor: Option<T>, limit: nat,
                                                    page: nat, fuel: nat)
    requires StrictTotal(lt) && limit >= 1
    ensures Ascending(Walk(tables, lt, cursor, limit, page, fuel), lt)
    ensures AllBehind(lt, cursor, Walk(tables, lt, cursor, limit, page, fuel))
    decreases fuel
  {
    hide *;
    QueryIsWindow(tables(page), lt, cursor, limit);
    var p := Query(tables(page), lt, cursor, limit);
    WalkUnfolds(tables, lt, cursor, limit, page, fuel);
    if p.next.Some? && fuel > 0 {
      WalkIsAscending(tables, lt, p.next, limit, page + 1, fuel - 1);
      AppendPage(cursor, p.items, Walk(tables, lt, p.next, limit, page + 1, fuel - 1), lt);
    }
  }

  lemma {:induction false} WalkMissesNothing<T(!new)>(tables: nat -> set<T>, lt: (T, T) -> bool, cursor: Option<T>, limit: nat,
                                                      page: nat, fuel: nat, x: T)
    requires StrictTotal(lt) && limit >= 1 && Ends(tables, lt, cursor, limit, page, fuel)
    requires Behind(lt, cursor, x) && forall i: nat :: x in tables(i)
    ensures x in Walk(tables, lt, cursor, limit, page, fuel)
    decreases fuel
  {
    QueryIsWindow(tables(page), lt, cursor, limit);
    var p := Query(tables(page), lt, cursor, limit);
    hide Query;
    if x !in p.items {
      WalkMissesNothing(tables, lt, p.next, limit, page + 1, fuel - 1, x);
    }
  }

  // Whatever else is added, removed or reordered between pages: no row is listed twice, the rows
  // come in the declared order, and once the walk has ended every row that was there all the time
  // with the same sort key has been listed.
  lemma EvolvingWalk<T(!new)>(tables: nat -> set<T>, lt: (T, T) -> bool, limit: nat, fuel: nat)
    requires StrictTotal(lt) && limit >= 1
    ensures Ascending(Walk(tables, lt, None, limit, 0, fuel), lt)
    ensures Ends(tables, lt, None, limit, 0, fuel) ==>
              forall x :: (forall i: nat :: x in tables(i)) ==> x in Walk(tables, lt, None, limit, 0, fuel)
  {
    WalkIsAscending(tables, lt, None, limit, 0, fuel);
    if Ends(tables, lt, None, limit, 0, fuel) {
      forall x | forall i: nat :: x in tables(i) ensures x in Walk(tables, lt, None, limit, 0, fuel) {
        WalkMissesNothing(tables, lt, None, limit, 0, fuel, x);
      }
    }
  }

  // ---- The declared orders ----

  // ORDER BY created_at DESC, id DESC of notes and actions, last_mentioned_at DESC, id DESC of people.
  predicate NewestFirst(a: (int, int), b: (int, int)) {
    a.0 > b.0 || (a.0 == b.0 && a.1 > b.1)
  }

  // ORDER BY last_mentioned_at DESC, key DESC of tickets, where less is the order of the collation.
  function NewestTicketFirst(less: (string, string) -> bool): ((int, string), (int, string)) -> bool {
    (a: (int, string), b: (int, string)) => a.0 > b.0 || (a.0 == b.0 && less(b.1, a.1))
  }

  lemma OrdersAreTotal(less: (string, string) -> bool)
    requires StrictTotal(less)
    ensures StrictTotal(NewestFirst) && StrictTotal(NewestTicketFirst(less))
  {
    var lt := NewestTicketFirst(less);
    forall a: (int, string), b: (int, string) ensures (a == b || lt(a, b) || lt(b, a)) && !lt(a, a) {
      assert a.1 == b.1 || less(a.1, b.1) || less(b.1, a.1);
    }
    forall a: (int, string), b: (int, string), c: (int, string) | lt(a, b) && lt(b, c) ensures lt(a, c) {
      assert less(c.1, b.1) && less(b.1, a.1) ==> less(c.1, a.1);
    }
  }

  // The walk over notes, whose cursors may meet notes captured meanwhile.
  lemma NotesWalk(tables: nat -> set<(int, int)>, limit: nat, fuel: nat)
    requires limit >= 1 && fuel >= |tables(0)| && forall i :: tables(0) <= tables(i)
    requires forall i, x, y :: x in tables(i) && x !in tables(0) && y in tables(0) ==> x.0 > y.0 || (x.0 == y.0 && x.1 > y.1)
    ensures StrictTotal(NewestFirst)
    ensures Ends(tables, NewestFirst, None, limit, 0, fuel)
    ensures Walk(tables, NewestFirst, None, limit, 0, fuel) == Listing(tables(0), NewestFirst)
    ensures NewestComeFirst(Walk(tables, NewestFirst, None, limit, 0, fuel))
    ensures forall x :: x in Walk(tables, NewestFirst, None, limit, 0, fuel) <==> x in tables(0)
  {
    CursorWalkIsFullListing(tables, NewestFirst, limit, fuel);
  }

  // Later instants stand first, and of one instant the larger numbers.
  predicate NewestComeFirst(rows: seq<(int, int)>) {
    forall i, j :: 0 <= i < j < |rows| ==> rows[i].0 >= rows[j].0 && (rows[i].0 == rows[j].0 ==> rows[i].1 > rows[j].1)
  }

  predicate NewestTicketsComeFirst(rows: seq<(int, string)>, less: (string, string) -> bool) {
    forall i, j :: 0 <= i < j < |rows| ==> rows[i].0 >= rows[j].0 && (rows[i].0 == rows[j].0 ==> less(rows[j].1, rows[i].1))
  }

  // The walk over people, who move to the top when they are mentioned again: everyone who is not
  // mentioned meanwhile is listed, and nobody is listed twice under one instant.
  lemma PeopleWalk(tables: nat -> set<(int, int)>, limit: nat, fuel: nat)
    requires limit >= 1
    ensures StrictTotal(NewestFirst)
    ensures NewestComeFirst(Walk(tables, NewestFirst, None, limit, 0, fuel))
    ensures Ends(tables, NewestFirst, None, limit, 0, fuel) ==>
              forall x :: (forall i: nat :: x in tables(i)) ==> x in Walk(tables, NewestFirst, None, limit, 0, fuel)
  {
    EvolvingWalk(tables, NewestFirst, limit, fuel);
  }

  lemma AscendingTickets(less: (string, string) -> bool)
    ensures forall rows :: Ascending(rows, NewestTicketFirst(less)) ==> NewestTicketsComeFirst(rows, less)
  {
  }

  // The walk over tickets, under any collation.
  lemma TicketsWalk(tables: nat -> set<(int, string)>, less: (string, string) -> bool, limit: nat, fuel: nat)
    requires StrictTotal(less) && limit >= 1
    ensures StrictTotal(NewestTicketFirst(less))
    ensures var walk := Walk(tables, NewestTicketFirst(less), None, limit, 0, fuel);
            && NewestTicketsComeFirst(walk, less)
            && (Ends(tables, NewestTicketFirst(less), None, limit, 0, fuel) ==>
                  forall x :: (forall i: nat :: x in tables(i)) ==> x in walk)
            && ((forall i: nat :: tables(i) == tables(0)) && fuel >= |tables(0)| ==>
                  Ends(tables, NewestTicketFirst(less), None, limit, 0, fuel)
                  && walk == Listing(tables(0), NewestTicketFirst(less)))
  {
    OrdersAreTotal(less);
    var lt := NewestTicketFirst(less);
    AscendingTickets(less);
    hide NewestTicketFirst, StrictTotal, Ascending, NewestTicketsComeFirst;
    EvolvingWalk(tables, lt, limit, fuel);
    if (forall i: nat :: tables(i) == tables(0)) && fuel >= |tables(0)| {
      CursorWalkIsFullListing(tables, lt, limit, fuel);
    }
  }
}
