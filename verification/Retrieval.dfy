// The merge of Retrieve (internal/services/retrieval.go) over the ordered, limited sources of
// internal/adapters/store/retrieval.go. Scores are abstract reals.
module Retrieval {
  import opened Ordering
  import opened Sets
  import opened Sorting

  datatype Kind = NoteItem | ActionItem | PeopleNoteItem | DecisionItem | MentionItem
  datatype Item = Item(kind: Kind, id: int, score: real, created: int)

  const DEFAULT_LIMIT := 20
  const MAX_LIMIT := 100
  const PER_SOURCE_LIMIT := 50

  // Ranks strictly above: a higher score, or the same score and created later.
  predicate Above(a: Item, b: Item) {
    a.score > b.score || (a.score == b.score && a.created > b.created)
  }

  lemma AboveIsWeakOrder()
    ensures WeakOrder(Above)
  {
  }

  function Key(x: Item): (Kind, int) { (x.kind, x.id) }

  // ---- Limits ----

  function BoundedStoreLimit(n: int): nat {
    if n <= 0 || n > PER_SOURCE_LIMIT then PER_SOURCE_LIMIT else n
  }

  function SourceLimit(limit: nat): nat {
    BoundedStoreLimit(if limit < PER_SOURCE_LIMIT then limit else PER_SOURCE_LIMIT)
  }

  // ---- Merging ----

  predicate HasKey(s: seq<Item>, x: Item) {
    exists i :: 0 <= i < |s| && Key(s[i]) == Key(x)
  }

  // The first item of each key.
  function Dedup(s: seq<Item>): seq<Item> {
    if s == [] then []
    else
      var d := Dedup(s[..|s| - 1]);
      if HasKey(d, s[|s| - 1]) then d else d + [s[|s| - 1]]
  }

  function Cut(s: seq<Item>, limit: nat): seq<Item> {
    if |s| > limit then s[..limit] else s
  }

  function Merged(all: seq<Item>, limit: nat): seq<Item> {
    Cut(StableSort(Dedup(all), Above), limit)
  }

  // The compaction in place: the write index never passes the read index.
  method Compact(a: array<Item>) returns (kept: nat)
    modifies a
    ensures kept <= a.Length && a[..kept] == Dedup(old(a[..]))
  {
    ghost var all := a[..];
    var seen: set<(Kind, int)> := {};
    kept := 0;
    for i := 0 to a.Length
      invariant kept <= i && a[..kept] == Dedup(all[..i]) && seen == Keys(a[..kept])
      invariant forall j :: i <= j < a.Length ==> a[j] == all[j]
    {
      var it := a[i];
      DedupStep(all, i, a[..kept]);
      hide Dedup;
      if Key(it) in seen {
        continue;
      }
      seen := seen + {Key(it)};
      a[kept] := it;
      kept := kept + 1;
      assert a[..kept] == a[..kept - 1] + [it];
    }
    assert all[..a.Length] == all;
  }

  function Keys(s: seq<Item>): set<(Kind, int)> {
    set i | 0 <= i < |s| :: Key(s[i])
  }

  lemma DedupStep(all: seq<Item>, i: nat, d: seq<Item>)
    requires i < |all| && d == Dedup(all[..i])
    ensures Dedup(all[..i + 1]) == if Key(all[i]) in Keys(d) then d else d + [all[i]]
    ensures Keys(d + [all[i]]) == Keys(d) + {Key(all[i])}
  {
    assert all[..i + 1][..i] == all[..i];
    assert (d + [all[i]])[|d|] == all[i];
    assert forall j :: 0 <= j < |d| ==> (d + [all[i]])[j] == d[j];
    assert HasKey(d, all[i]) <==> Key(all[i]) in Keys(d);
    forall k ensures k in Keys(d + [all[i]]) <==> k in Keys(d) + {Key(all[i])} {
      if k in Keys(d) {
        var j :| 0 <= j < |d| && Key(d[j]) == k;
        assert Key((d + [all[i]])[j]) == k;
      }
    }
  }

  // What Retrieve does with the requested limit and once the sources have answered: a limit from 1
  // to 100 is kept, a missing one is 20 and a larger one 100.
  method Merge(sources: seq<seq<Item>>, requested: int) returns (out: seq<Item>)
    ensures 1 <= requested <= 100 ==> out == Merged(Concat(sources), requested)
    ensures requested <= 0 ==> out == Merged(Concat(sources), 20)
    ensures requested > 100 ==> out == Merged(Concat(sources), 100)
  {
    var limit := requested;
    if limit <= 0 {
      limit := DEFAULT_LIMIT;
    }
    if limit > MAX_LIMIT {
      limit := MAX_LIMIT;
    }
    var all: seq<Item> := [];
    for i := 0 to |sources|
      invariant all == Concat(sources[..i])
    {
      assert sources[..i + 1][..i] == sources[..i];
      all := all + sources[i];
    }
    assert sources[..|sources|] == sources;
    var a := new Item[|all|](i requires 0 <= i < |all| => all[i]);
    assert a[..] == all;
    var kept := Compact(a);
    out := StableSort(a[..kept], Above);
    if |out| > limit {
      out := out[..limit];
    }
  }

  function Concat(sources: seq<seq<Item>>): seq<Item> {
    if sources == [] then [] else Concat(sources[..|sources| - 1]) + sources[|sources| - 1]
  }

  // ---- What a source returns ----

  predicate NoKeyTwice(s: seq<Item>) {
    forall i, j :: 0 <= i < j < |s| ==> Key(s[i]) != Key(s[j])
  }

  // ORDER BY score DESC, created_at DESC LIMIT n, where rows that tie come in any order.
  ghost predicate TopOf(matching: set<Item>, got: seq<Item>, n: nat) {
    && |got| == (if n < |matching| then n else |matching|)
    && Sorted(got, Above) && NoKeyTwice(got)
    && (forall x :: x in got ==> x in matching)
    && (forall x, y :: x in got && y in matching && y !in got ==> !Above(y, x))
  }

  // Sources of distinct kinds, each with record ids that are unique in its table.
  ghost predicate Sources(matching: seq<set<Item>>, got: seq<seq<Item>>, n: nat) {
    && |matching| == |got|
    && (forall k :: 0 <= k < |got| ==> TopOf(matching[k], got[k], n))
    && (forall k, x, y :: 0 <= k < |got| && x in matching[k] && y in matching[k] && Key(x) == Key(y) ==> x == y)
    && (forall k, l, x, y :: 0 <= k < l < |got| && x in matching[k] && y in matching[l] ==> x.kind != y.kind)
  }

  function AtMost(n: nat, limit: nat): nat { if n < limit then n else limit }

  function Size(matching: seq<set<Item>>): nat {
    if matching == [] then 0 else Size(matching[..|matching| - 1]) + |matching[|matching| - 1]|
  }

  // The result is a best choice of limit items from all that match, or all of them.
  ghost predicate IsGlobalTop(matching: seq<set<Item>>, out: seq<Item>, limit: nat) {
    && |out| == AtMost(Size(matching), limit)
    && NoKeyTwice(out) && Sorted(out, Above)
    && (forall x :: x in out ==> exists k :: 0 <= k < |matching| && x in matching[k])
    && (forall x, y, k :: x in out && 0 <= k < |matching| && y in matching[k] && y !in out ==> !Above(y, x))
  }

  // ---- Per-source top-k refines the global top-k ----

  lemma {:induction false} DedupKeepsDistinct(s: seq<Item>)
    requires NoKeyTwice(s)
    ensures Dedup(s) == s
  {
    if s != [] {
      var n := |s| - 1;
      DedupKeepsDistinct(s[..n]);
      assert s == s[..n] + [s[n]];
    }
  }

  lemma {:induction false} DedupHasNoKeyTwice(s: seq<Item>)
    ensures NoKeyTwice(Dedup(s)) && forall x :: x in Dedup(s) ==> x in s
  {
    if s != [] {
      DedupHasNoKeyTwice(s[..|s| - 1]);
    }
  }

  // x is the first item of its key.
  ghost predicate FirstOfKey(s: seq<Item>, x: Item) {
    exists i :: 0 <= i < |s| && s[i] == x && forall j :: 0 <= j < i ==> s[j].kind != x.kind || s[j].id != x.id
  }

  // Of items with one kind and number exactly the first is kept.
  lemma {:induction false} DedupKeepsFirst(s: seq<Item>)
    ensures forall x :: x in Dedup(s) <==> FirstOfKey(s, x)
  {
    if s != [] {
      var n := |s| - 1;
      DedupKeepsFirst(s[..n]);
      var before, d := s[..n], Dedup(s[..n]);
      assert s == before + [s[n]];
      forall x ensures x in Dedup(s) <==> FirstOfKey(s, x) {
        FirstOfOneMore(before, s[n], x);
        KeyKept(before, s[n]);
      }
    }
  }

  lemma FirstOfOneMore(s: seq<Item>, y: Item, x: Item)
    ensures FirstOfKey(s + [y], x) <==> FirstOfKey(s, x) || (x == y && forall j :: 0 <= j < |s| ==> Key(s[j]) != Key(y))
  {
    var more := s + [y];
    assert more[|s|] == y && forall i :: 0 <= i < |s| ==> more[i] == s[i];
    if FirstOfKey(s, x) {
      var i :| 0 <= i < |s| && s[i] == x && forall j :: 0 <= j < i ==> s[j].kind != x.kind || s[j].id != x.id;
      assert more[i] == x;
    }
  }

  // A key that occurs is kept.
  lemma {:induction false} KeyKept(s: seq<Item>, y: Item)
    ensures HasKey(Dedup(s), y) <==> exists j :: 0 <= j < |s| && Key(s[j]) == Key(y)
  {
    if s != [] {
      var n := |s| - 1;
      KeyKept(s[..n], y);
      KeyKept(s[..n], s[n]);
      var d := Dedup(s[..n]);
      assert forall j :: 0 <= j < n ==> s[..n][j] == s[j];
      assert (d + [s[n]])[|d|] == s[n] && forall i :: 0 <= i < |d| ==> (d + [s[n]])[i] == d[i];
      if HasKey(d, y) {
        var i :| 0 <= i < |d| && Key(d[i]) == Key(y);
        assert Key((d + [s[n]])[i]) == Key(y);
      }
    }
  }

  lemma {:induction false} ConcatElements(got: seq<seq<Item>>)
    ensures forall x :: x in Concat(got) <==> exists k :: 0 <= k < |got| && x in got[k]
  {
    if got != [] {
      var n := |got| - 1;
      ConcatElements(got[..n]);
      forall x ensures x in Concat(got) <==> exists k :: 0 <= k < |got| && x in got[k] {
        if k :| 0 <= k < n && x in got[..n][k] { assert x in got[k]; }
        if k :| 0 <= k < |got| && x in got[k] {
          if k < n { assert x in got[..n][k]; }
        }
      }
    }
  }

  lemma {:induction false} ConcatIsDistinct(matching: seq<set<Item>>, got: seq<seq<Item>>, n: nat)
    requires Sources(matching, got, n)
    ensures NoKeyTwice(Concat(got))
  {
    if got != [] {
      var m := |got| - 1;
      assert Sources(matching[..m], got[..m], n);
      ConcatIsDistinct(matching[..m], got[..m], n);
      ConcatElements(got[..m]);
      var before, last := Concat(got[..m]), got[m];
      forall i, j | 0 <= i < |before| && 0 <= j < |last| ensures Key(before[i]) != Key(last[j]) {
        assert before[i] in before;
        var k :| 0 <= k < m && before[i] in got[..m][k];
        assert before[i] in matching[k] && last[j] in matching[m];
      }
    }
  }

  lemma {:induction false} DistinctElements(s: seq<Item>)
    requires NoKeyTwice(s)
    ensures |Elements(s)| == |s|
  {
    if s != [] {
      var n := |s| - 1;
      DistinctElements(s[..n]);
      assert s[n] !in s[..n];
      assert Elements(s) == Elements(s[..n]) + {s[n]};
    }
  }

  // Items that rank above sorted[i] stand before it.
  lemma AboveStandBefore(sorted: seq<Item>, i: nat, better: seq<Item>)
    requires Sorted(sorted, Above) && NoKeyTwice(sorted) && i < |sorted|
    requires NoKeyTwice(better) && forall z :: z in better ==> z in sorted && Above(z, sorted[i])
    ensures |better| <= i
  {
    forall z | z in better ensures z in sorted[..i] {
      var j :| 0 <= j < |sorted| && sorted[j] == z;
      assert j < i;
    }
    DistinctElements(better);
    DistinctElements(sorted[..i]);
    SubsetIsSmaller(Elements(better), Elements(sorted[..i]));
  }

  lemma LeftOutIsNotAbove(matching: seq<set<Item>>, got: seq<seq<Item>>, limit: nat, sorted: seq<Item>, i: nat,
                          k: nat, y: Item)
    requires Sources(matching, got, limit) && Sorted(sorted, Above) && NoKeyTwice(sorted)
    requires forall x :: x in sorted <==> exists l :: 0 <= l < |got| && x in got[l]
    requires i < |sorted| && i < limit && k < |got| && y in matching[k] && y !in Cut(sorted, limit)
    ensures !Above(y, sorted[i])
  {
    if y in got[k] {
      assert y in sorted;
      CutAwayIsNotAbove(sorted, limit, i, y);
    } else if Above(y, sorted[i]) {
      FullSource(matching[k], got[k], limit, y);
      AboveStandBefore(sorted, i, got[k]);
    }
  }

  lemma CutAwayIsNotAbove(sorted: seq<Item>, limit: nat, i: nat, y: Item)
    requires Sorted(sorted, Above) && i < |sorted| && i < limit && y in sorted && y !in Cut(sorted, limit)
    ensures !Above(y, sorted[i])
  {
    var j :| 0 <= j < |sorted| && sorted[j] == y;
    assert forall l :: 0 <= l < |sorted| && l < limit ==> sorted[l] in Cut(sorted, limit);
    assert j >= limit;
  }

  // A source that leaves out a matching row is full.
  lemma FullSource(matching: set<Item>, got: seq<Item>, n: nat, y: Item)
    requires TopOf(matching, got, n) && y in matching && y !in got
    ensures |got| == n
  {
    DistinctElements(got);
    SubsetIsSmaller(Elements(got), matching - {y});
  }

  lemma MergedFacts(matching: seq<set<Item>>, got: seq<seq<Item>>, n: nat)
    requires Sources(matching, got, n)
    ensures var sorted := StableSort(Dedup(Concat(got)), Above);
            && Sorted(sorted, Above) && NoKeyTwice(sorted) && |sorted| == |Concat(got)|
            && forall x :: x in sorted <==> exists l :: 0 <= l < |got| && x in got[l]
  {
    ConcatIsDistinct(matching, got, n);
    DedupKeepsDistinct(Concat(got));
    hide Sources, Dedup, Concat, StableSort;
    AboveIsWeakOrder();
    StableSortSorts(Concat(got), Above);
    SortKeepsAll(Concat(got), Above);
    SortKeepsElements(Concat(got), Above);
    SortKeepsDistinct(Concat(got), Above, Key);
    ConcatElements(got);
  }

  // Whatever the sources return and whatever the limit, no key is returned twice, everything
  // returned is the first item of its key, and all first items are returned if the limit allows it.
  lemma MergedKeysAreDistinct(all: seq<Item>, limit: nat)
    ensures NoKeyTwice(Merged(all, limit)) && |Merged(all, limit)| <= limit
    ensures forall x :: x in Merged(all, limit) ==> FirstOfKey(all, x)
    ensures |Merged(all, limit)| < limit ==> forall x :: FirstOfKey(all, x) ==> x in Merged(all, limit)
  {
    hide Dedup, StableSort, Above, FirstOfKey;
    AboveIsWeakOrder();
    DedupHasNoKeyTwice(all);
    DedupKeepsFirst(all);
    SortKeepsElements(Dedup(all), Above);
    SortKeepsDistinct(Dedup(all), Above, Key);
  }

  // Whenever the effective limit is at most 50, no matching item left out of the result ranks
  // strictly above a returned one, and keys are distinct, although each source was cut first.
  lemma MergedIsGlobalTop(matching: seq<set<Item>>, got: seq<seq<Item>>, limit: nat)
    requires 1 <= limit <= 50 && Sources(matching, got, SourceLimit(limit))
    ensures IsGlobalTop(matching, Merged(Concat(got), limit), limit)
    ensures RanksBest(matching, Merged(Concat(got), limit)) && SourceLimit(limit) == limit
  {
    hide Sources, Dedup, Concat, StableSort, Above, Sorted, NoKeyTwice;
    MergedFacts(matching, got, limit);
    SameLength(matching, got, limit);
    var sorted := StableSort(Dedup(Concat(got)), Above);
    var out := Merged(Concat(got), limit);
    CutKeeps(sorted, limit);
    SourcesHoldEnough(matching, got, limit);
    forall x, y, k | x in out && 0 <= k < |matching| && y in matching[k] && y !in out ensures !Above(y, x) {
      var i :| 0 <= i < |out| && out[i] == x;
      LeftOutIsNotAbove(matching, got, limit, sorted, i, k, y);
    }
    forall x | x in out ensures exists k :: 0 <= k < |matching| && x in matching[k] {
      assert x in sorted;
      GotMatches(matching, got, limit, x);
    }
    TopRanksBest(matching, out, limit);
  }

  // The result in plain terms: it comes by score and then by time, highest and latest first, no
  // record stands there twice, and a matching item that is left out scores lower than each item
  // returned, or the same and is not newer.
  ghost predicate RanksBest(matching: seq<set<Item>>, out: seq<Item>) {
    && (forall i, j :: 0 <= i < j < |out| ==>
          && (out[i].kind != out[j].kind || out[i].id != out[j].id)
          && (out[i].score > out[j].score || (out[i].score == out[j].score && out[i].created >= out[j].created)))
    && (forall x, y, k :: x in out && 0 <= k < |matching| && y in matching[k] && y !in out ==>
          y.score < x.score || (y.score == x.score && y.created <= x.created))
  }

  lemma TopRanksBest(matching: seq<set<Item>>, out: seq<Item>, limit: nat)
    requires IsGlobalTop(matching, out, limit)
    ensures RanksBest(matching, out)
  {
  }

  lemma CutKeeps(sorted: seq<Item>, limit: nat)
    requires Sorted(sorted, Above) && NoKeyTwice(sorted)
    ensures Sorted(Cut(sorted, limit), Above) && NoKeyTwice(Cut(sorted, limit))
    ensures forall i :: 0 <= i < |Cut(sorted, limit)| ==> i < limit && i < |sorted| && Cut(sorted, limit)[i] == sorted[i]
    ensures forall x :: x in Cut(sorted, limit) ==> x in sorted
  {
  }

  lemma {:induction false} SourcesHoldEnough(matching: seq<set<Item>>, got: seq<seq<Item>>, limit: nat)
    requires Sources(matching, got, limit)
    ensures AtMost(|Concat(got)|, limit) == AtMost(Size(matching), limit) && |Concat(got)| <= Size(matching)
  {
    if got != [] {
      var m := |got| - 1;
      FewerSources(matching, got, limit);
      assert |got[m]| == AtMost(|matching[m]|, limit);
      hide Sources, TopOf, AtMost;
      SourcesHoldEnough(matching[..m], got[..m], limit);
      AtMostAdds(|Concat(got[..m])|, |got[m]|, Size(matching[..m]), |matching[m]|, limit);
    }
  }

  lemma AtMostAdds(a: nat, b: nat, x: nat, y: nat, limit: nat)
    requires a <= x && AtMost(a, limit) == AtMost(x, limit) && b == AtMost(y, limit)
    ensures AtMost(a + b, limit) == AtMost(x + y, limit) && a + b <= x + y
  {
  }

  lemma FewerSources(matching: seq<set<Item>>, got: seq<seq<Item>>, n: nat)
    requires got != [] && Sources(matching, got, n)
    ensures |matching| == |got| && Sources(matching[..|got| - 1], got[..|got| - 1], n)
    ensures |got[|got| - 1]| == AtMost(|matching[|got| - 1]|, n)
  {
    assert TopOf(matching[|got| - 1], got[|got| - 1], n);
    hide TopOf;
  }

  lemma SameLength(matching: seq<set<Item>>, got: seq<seq<Item>>, n: nat)
    requires Sources(matching, got, n)
    ensures |matching| == |got|
  {
  }

  lemma GotMatches(matching: seq<set<Item>>, got: seq<seq<Item>>, n: nat, x: Item)
    requires Sources(matching, got, n) && exists l :: 0 <= l < |got| && x in got[l]
    ensures exists k :: 0 <= k < |matching| && x in matching[k]
  {
    var l :| 0 <= l < |got| && x in got[l];
    assert x in matching[l];
  }

  // ---- Above 50 the property fails ----

  function Items(kind: Kind, score: real, n: nat): (s: seq<Item>)
    ensures |s| == n && forall i :: 0 <= i < n ==> s[i] == Item(kind, i, score, 0)
  {
    seq(n, i => Item(kind, i, score, 0))
  }

  lemma ItemsAreASource(kind: Kind, score: real, n: nat, k: nat)
    requires k <= n
    ensures TopOf(Elements(Items(kind, score, n)), Items(kind, score, k), k)
  {
    DistinctElements(Items(kind, score, n));
    assert forall i :: 0 <= i < n ==> Items(kind, score, n)[i] in Elements(Items(kind, score, n));
    assert forall i :: 0 <= i < k ==> Items(kind, score, k)[i] == Items(kind, score, n)[i];
  }

  lemma TwoSources(matching: seq<set<Item>>, got: seq<seq<Item>>)
    requires matching == [Elements(Items(NoteItem, 1.0, 51)), Elements(Items(ActionItem, 0.0, 50))]
    requires got == [Items(NoteItem, 1.0, 50), Items(ActionItem, 0.0, 50)]
    ensures Sources(matching, got, PER_SOURCE_LIMIT)
  {
    ItemsAreASource(NoteItem, 1.0, 51, 50);
    ItemsAreASource(ActionItem, 0.0, 50, 50);
    hide TopOf;
    assert forall x :: x in matching[0] ==> x.kind == NoteItem && x.score == 1.0 && x.created == 0;
    assert forall x :: x in matching[1] ==> x.kind == ActionItem && x.score == 0.0 && x.created == 0;
  }

  lemma FirstSourceRunsOut(limit: nat)
    requires PER_SOURCE_LIMIT < limit <= MAX_LIMIT
    ensures var matching := [Elements(Items(NoteItem, 1.0, 51)), Elements(Items(ActionItem, 0.0, 50))];
            var got := [Items(NoteItem, 1.0, 50), Items(ActionItem, 0.0, 50)];
            Sources(matching, got, SourceLimit(limit)) && !IsGlobalTop(matching, Merged(Concat(got), limit), limit)
  {
    var matching := [Elements(Items(NoteItem, 1.0, 51)), Elements(Items(ActionItem, 0.0, 50))];
    var got := [Items(NoteItem, 1.0, 50), Items(ActionItem, 0.0, 50)];
    TwoSources(matching, got);
    var y := Item(NoteItem, 50, 1.0, 0);
    assert y == Items(NoteItem, 1.0, 51)[50] && y in matching[0];
    hide Sources;
    LeftOutNote(matching, got, limit, y);
  }

  lemma LeftOutNote(matching: seq<set<Item>>, got: seq<seq<Item>>, limit: nat, y: Item)
    requires |matching| == |got| == 2 && Sources(matching, got, PER_SOURCE_LIMIT)
    requires |got[0]| == |got[1]| == PER_SOURCE_LIMIT < limit <= MAX_LIMIT
    requires y in matching[0] && y !in got[0] && y !in got[1] && forall x :: x in got[1] ==> Above(y, x)
    ensures !IsGlobalTop(matching, Merged(Concat(got), limit), limit)
  {
    hide Sources, Merged, Concat, Above, IsGlobalTop, NoKeyTwice;
    var out := Merged(Concat(got), limit);
    MergedOfTwo(matching, got, limit);
    SomeActionIsReturned(out, got[0], got[1]);
    var x :| x in out && x in got[1];
    LeftOutSpoils(matching, out, limit, x, y);
  }

  lemma MergedOfTwo(matching: seq<set<Item>>, got: seq<seq<Item>>, limit: nat)
    requires |got| == 2 && Sources(matching, got, PER_SOURCE_LIMIT) && |got[0]| + |got[1]| >= limit
    ensures var out := Merged(Concat(got), limit);
            |out| == limit && NoKeyTwice(out) && forall x :: x in out ==> x in got[0] || x in got[1]
  {
    hide Sources, Sorted, Dedup, Concat, StableSort, NoKeyTwice;
    MergedFacts(matching, got, PER_SOURCE_LIMIT);
    TwoTogether(got);
    var sorted := StableSort(Dedup(Concat(got)), Above);
    OnlyFromTwo(got, sorted);
    CutKeeps(sorted, limit);
    CutLength(sorted, limit);
  }

  lemma TwoTogether(got: seq<seq<Item>>)
    requires |got| == 2
    ensures |Concat(got)| == |got[0]| + |got[1]|
  {
    ConcatOfTwo(got[0], got[1]);
    assert got == [got[0], got[1]];
  }

  lemma CutLength(sorted: seq<Item>, limit: nat)
    requires |sorted| >= limit
    ensures |Cut(sorted, limit)| == limit
  {
  }

  lemma OnlyFromTwo(got: seq<seq<Item>>, sorted: seq<Item>)
    requires |got| == 2 && forall x :: x in sorted <==> exists l :: 0 <= l < |got| && x in got[l]
    ensures forall x :: x in sorted ==> x in got[0] || x in got[1]
  {
  }

  lemma LeftOutSpoils(matching: seq<set<Item>>, out: seq<Item>, limit: nat, x: Item, y: Item)
    requires matching != [] && x in out && y in matching[0] && y !in out && Above(y, x)
    ensures !IsGlobalTop(matching, out, limit)
  {
  }

  lemma ConcatOfTwo(a: seq<Item>, b: seq<Item>)
    ensures Concat([a, b]) == a + b
  {
    assert [a, b][..1] == [a] && [a][..0] == [];
    assert Concat([a]) == Concat([]) + a;
  }

  lemma SomeActionIsReturned(out: seq<Item>, notes: seq<Item>, actions: seq<Item>)
    requires NoKeyTwice(out) && |out| > |notes|
    requires forall x :: x in out ==> x in notes || x in actions
    ensures exists x :: x in out && x in actions
  {
    if forall x :: x in out ==> x !in actions {
      DistinctElements(out);
      ElementsAtMost(notes);
      SubsetIsSmaller(Elements(out), Elements(notes));
    }
  }

  lemma {:induction false} ElementsAtMost(s: seq<Item>)
    ensures |Elements(s)| <= |s|
  {
    if s != [] {
      var n := |s| - 1;
      ElementsAtMost(s[..n]);
      assert Elements(s) == Elements(s[..n]) + {s[n]};
    }
  }

  // The merge is a global top for every content of the sources exactly if the limit is at most 50.
  ghost predicate AlwaysGlobalTop(limit: nat) {
    forall matching, got :: Sources(matching, got, SourceLimit(limit)) ==> IsGlobalTop(matching, Merged(Concat(got), limit), limit)
  }

  lemma GlobalTopUpToFifty(limit: nat)
    requires 1 <= limit <= 100
    ensures AlwaysGlobalTop(limit) <==> limit <= 50
  {
    if limit <= PER_SOURCE_LIMIT {
      forall matching, got | Sources(matching, got, SourceLimit(limit)) ensures IsGlobalTop(matching, Merged(Concat(got), limit), limit) {
        MergedIsGlobalTop(matching, got, limit);
      }
    } else {
      FirstSourceRunsOut(limit);
    }
  }
}
