// BuildAgendaFromPersonContext of internal/services/agenda.go. Instants are nanoseconds since the
// zero time, so the zero time is 0.
module Agenda {
  import opened Options
  import opened Sets
  import opened Sorting
  import Text
  import Weeks

  type Instant = int

  datatype Kind = OpenAction | Commitment | FollowUp | OpenQuestion | Concern | Decision | Achievement | Background
  datatype Priority = High | Normal | Low
  datatype Section = MustDiscuss | FollowUps | OpenQuestions | Decisions | PositiveNotes | Context

  datatype Item = Item(kind: Kind, text: string, note: int, date: Instant, action: Option<int>, due: Option<Instant>,
                       priority: Priority, inferred: bool)

  datatype ContextItem = ContextItem(text: string, typ: string, note: int, date: Instant)
  datatype ContextAction = ContextAction(id: int, title: string, status: string, note: int, date: Instant, due: Option<Instant>)
  datatype ContextDecision = ContextDecision(text: string, status: string, note: int, date: Instant)

  datatype PersonContext = PersonContext(
    openActions: seq<ContextAction>, completedActions: seq<ContextAction>, commitments: seq<ContextItem>,
    followUps: seq<ContextItem>, feedback: seq<ContextItem>, achievements: seq<ContextItem>, concerns: seq<ContextItem>,
    decisions: seq<ContextDecision>, openQuestions: seq<ContextItem>, recentNotes: seq<ContextItem>,
    possibleMentions: seq<ContextItem>)

  // An item on its way into a section.
  datatype Offer = Offer(section: Section, item: Item)

  datatype Source = Source(note: int, date: Instant)

  const SOURCE_LIMIT := 30
  const POSITIVE_TYPES := {"", "achievement", "feedback", "positive_signal", "collaboration"}

  function LimitOf(s: Section): nat {
    match s
    case MustDiscuss => 10
    case FollowUps => 8
    case OpenQuestions => 8
    case _ => 5
  }

  // ---- Accepting items ----

  type Key = (int, string)

  function DedupeKey(note: int, text: string): Key {
    (note, Text.ToLower(Text.NormalizeSpace(text)))
  }

  function KeyOf(o: Offer): Key { DedupeKey(o.item.note, o.item.text) }

  predicate Taken(acc: seq<Offer>, k: Key) {
    exists i :: 0 <= i < |acc| && KeyOf(acc[i]) == k
  }

  function Accept(acc: seq<Offer>, o: Offer): seq<Offer> {
    var trimmed := o.(item := o.item.(text := Text.TrimSpace(o.item.text)));
    if trimmed.item.text == "" || o.item.note <= 0 || o.item.date == 0 || Taken(acc, KeyOf(trimmed)) then acc
    else acc + [trimmed]
  }

  function AcceptAll(acc: seq<Offer>, offers: seq<Offer>): seq<Offer> {
    if offers == [] then acc else Accept(AcceptAll(acc, offers[..|offers| - 1]), offers[|offers| - 1])
  }

  function OffersOf<T>(xs: seq<T>, offer: T -> seq<Offer>): seq<Offer> {
    if xs == [] then [] else OffersOf(xs[..|xs| - 1], offer) + offer(xs[|xs| - 1])
  }

  // The accepted items of one section, in order.
  function InSection(acc: seq<Offer>, s: Section): seq<Item> {
    if acc == [] then []
    else InSection(acc[..|acc| - 1], s) + if acc[|acc| - 1].section == s then [acc[|acc| - 1].item] else []
  }

  // ---- What each loop offers ----

  function DaysBefore(now: Instant, days: int): Instant { now - days * Weeks.DAY }

  function OfAction(a: ContextAction, now: Instant): seq<Offer> {
    if a.status != "open" then []
    else
      var p := if a.due.Some? && a.due.value < now then High else Normal;
      [Offer(MustDiscuss, Item(OpenAction, a.title, a.note, a.date, Some(a.id), a.due, p, false))]
  }

  function CompletedFacts(done: seq<ContextAction>): set<Key> {
    set i | 0 <= i < |done| && done[i].status == "done" :: DedupeKey(done[i].note, done[i].title)
  }

  function OfItem(x: ContextItem, since: Instant, s: Section, k: Kind, p: Priority, inferred: bool): seq<Offer> {
    if x.date < since then [] else [Offer(s, Item(k, x.text, x.note, x.date, None, None, p, inferred))]
  }

  function OfCommitment(x: ContextItem, completed: set<Key>, since: Instant): seq<Offer> {
    if DedupeKey(x.note, x.text) in completed then [] else OfItem(x, since, MustDiscuss, Commitment, Normal, false)
  }

  function OfDecision(x: ContextDecision, since: Instant): seq<Offer> {
    if x.date < since || x.status !in {"active", "recorded", ""} then []
    else [Offer(Decisions, Item(Decision, x.text, x.note, x.date, None, None, Normal, false))]
  }

  function OfPraise(x: ContextItem, since: Instant): seq<Offer> {
    if x.typ !in POSITIVE_TYPES then [] else OfItem(x, since, PositiveNotes, Achievement, Low, false)
  }

  function OfCompleted(a: ContextAction, since: Instant): seq<Offer> {
    if a.status != "done" || a.date < since then []
    else [Offer(PositiveNotes, Item(Achievement, a.title, a.note, a.date, Some(a.id), None, Low, false))]
  }

  // The bodies of the loops, as functions of one element.
  function ForAction(now: Instant): ContextAction -> seq<Offer> { a => OfAction(a, now) }

  function ForCommitment(completed: set<Key>, since: Instant): ContextItem -> seq<Offer> {
    x => OfCommitment(x, completed, since)
  }

  function ForItem(since: Instant, s: Section, k: Kind, p: Priority, inferred: bool): ContextItem -> seq<Offer> {
    x => OfItem(x, since, s, k, p, inferred)
  }

  function ForDecision(since: Instant): ContextDecision -> seq<Offer> { x => OfDecision(x, since) }

  function ForPraise(since: Instant): ContextItem -> seq<Offer> { x => OfPraise(x, since) }

  function ForCompleted(since: Instant): ContextAction -> seq<Offer> { a => OfCompleted(a, since) }

  function Offers(pc: PersonContext, now: Instant): seq<Offer> {
    var since60, since30, since14 := DaysBefore(now, 60), DaysBefore(now, 30), DaysBefore(now, 14);
    var completed := CompletedFacts(pc.completedActions);
    OffersOf(pc.openActions, ForAction(now))
    + OffersOf(pc.commitments, ForCommitment(completed, since60))
    + OffersOf(pc.followUps, ForItem(since60, FollowUps, FollowUp, Normal, false))
    + OffersOf(pc.concerns, ForItem(since30, MustDiscuss, Concern, High, false))
    + OffersOf(pc.openQuestions, ForItem(since30, OpenQuestions, OpenQuestion, Normal, false))
    + OffersOf(pc.decisions, ForDecision(since30))
    + OffersOf(pc.achievements, ForPraise(since30))
    + OffersOf(pc.feedback, ForPraise(since30))
    + OffersOf(pc.completedActions, ForCompleted(since14))
    + OffersOf(pc.recentNotes, ForItem(since14, Context, Background, Low, false))
    + OffersOf(pc.possibleMentions, ForItem(since14, Context, Background, Low, true))
  }

  function Accepted(pc: PersonContext, now: Instant): seq<Offer> {
    AcceptAll([], Offers(pc, now))
  }

  // ---- Sorting and cutting ----

  function PriorityRank(p: Priority): int {
    match p case High => 0 case Normal => 1 case Low => 2
  }

  predicate Before(a: Item, b: Item) {
    PriorityRank(a.priority) < PriorityRank(b.priority)
    || (PriorityRank(a.priority) == PriorityRank(b.priority) && a.date > b.date)
  }

  lemma BeforeIsWeakOrder()
    ensures WeakOrder(Before)
  {
  }

  function Cut<T>(s: seq<T>, limit: nat): seq<T> {
    if |s| > limit then s[..limit] else s
  }

  function Shown(acc: seq<Offer>, s: Section): seq<Item> {
    Cut(StableSort(InSection(acc, s), Before), LimitOf(s))
  }

  function AllShown(acc: seq<Offer>): seq<Item> {
    Shown(acc, MustDiscuss) + Shown(acc, FollowUps) + Shown(acc, OpenQuestions)
    + Shown(acc, Decisions) + Shown(acc, PositiveNotes) + Shown(acc, Context)
  }

  // ---- Sources ----

  // d is the latest date of the note among the items.
  predicate LatestOf(items: seq<Item>, note: int, d: Instant) {
    && (exists i :: 0 <= i < |items| && items[i].note == note && items[i].date == d)
    && (forall i :: 0 <= i < |items| && items[i].note == note ==> items[i].date <= d)
  }

  predicate Newer(a: Source, b: Source) { a.date > b.date }

  // The newest notes of the items, each once with its latest date.
  ghost predicate AreSources(items: seq<Item>, sources: seq<Source>, limit: nat) {
    && |sources| == (if |Notes(items)| < limit then |Notes(items)| else limit)
    && Sorted(sources, Newer)
    && (forall i :: 0 <= i < |sources| ==> LatestOf(items, sources[i].note, sources[i].date))
    && (forall i, j :: 0 <= i < j < |sources| ==> sources[i].note != sources[j].note)
    && NoneLeftOutIsNewer(items, sources)
  }

  predicate Unlisted(sources: seq<Source>, note: int) {
    forall j :: 0 <= j < |sources| ==> sources[j].note != note
  }

  // No note without a source has an item that is newer than a source.
  ghost predicate NoneLeftOutIsNewer(items: seq<Item>, sources: seq<Source>) {
    forall i, note, d :: 0 <= i < |sources| && LatestOf(items, note, d) && Unlisted(sources, note) ==> d <= sources[i].date
  }

  function Notes(items: seq<Item>): set<int> {
    set i | 0 <= i < |items| :: items[i].note
  }

  // ---- The builder ----

  class Draft {
    var seen: set<Key>
    var sections: map<Section, seq<Item>>
    ghost var accepted: seq<Offer>

    ghost predicate Valid()
      reads this
    {
      && (forall k :: k in seen <==> Taken(accepted, k))
      && (forall s :: s in sections && sections[s] == InSection(accepted, s))
    }

    constructor ()
      ensures Valid() && accepted == []
    {
      seen, accepted := {}, [];
      sections := map[MustDiscuss := [], FollowUps := [], OpenQuestions := [], Decisions := [], PositiveNotes := [], Context := []];
      new;
      forall s: Section ensures s in sections && sections[s] == [] {
        match s case MustDiscuss => case FollowUps => case OpenQuestions => case Decisions => case PositiveNotes => case Context =>
      }
    }

    method Add(section: Section, offered: Item)
      requires Valid()
      modifies this
      ensures Valid() && accepted == Accept(old(accepted), Offer(section, offered))
    {
      hide Text.TrimSpace, DedupeKey;
      var item := offered.(text := Text.TrimSpace(offered.text));
      if item.text == "" || item.note <= 0 || item.date == 0 {
        return;
      }
      var key := DedupeKey(item.note, item.text);
      if key in seen {
        return;
      }
      OneMoreTaken(accepted, Offer(section, item));
      seen := seen + {key};
      sections := sections[section := sections[section] + [item]];
      accepted := accepted + [Offer(section, item)];
    }

    // One loop over a list of the person's context, after those that made the offers so far.
    method AddEach<T>(xs: seq<T>, offer: T -> seq<Offer>, ghost sofar: seq<Offer>) returns (ghost offers: seq<Offer>)
      requires Valid() && accepted == AcceptAll([], sofar) && forall x :: x in xs ==> |offer(x)| <= 1
      modifies this
      ensures offers == sofar + OffersOf(xs, offer)
      ensures Valid() && accepted == AcceptAll([], offers)
    {
      offers := sofar + OffersOf(xs, offer);
      AcceptInTurn([], sofar, OffersOf(xs, offer));
      for i := 0 to |xs|
        invariant Valid() && accepted == AcceptAll(old(accepted), OffersOf(xs[..i], offer))
      {
        assert xs[..i + 1][..i] == xs[..i];
        var o := offer(xs[i]);
        if o != [] {
          assert o == [o[0]];
          AcceptOneMore(old(accepted), OffersOf(xs[..i], offer), o[0]);
          Add(o[0].section, o[0].item);
        } else {
          assert OffersOf(xs[..i + 1], offer) == OffersOf(xs[..i], offer);
        }
      }
      assert xs[..|xs|] == xs;
    }
  }

  lemma OneMoreTaken(acc: seq<Offer>, o: Offer)
    ensures forall k :: Taken(acc + [o], k) <==> Taken(acc, k) || k == KeyOf(o)
    ensures forall s :: InSection(acc + [o], s) == InSection(acc, s) + if o.section == s then [o.item] else []
  {
    hide KeyOf;
    var more := acc + [o];
    assert more[..|acc|] == acc;
    forall k ensures Taken(more, k) <==> Taken(acc, k) || k == KeyOf(o) {
      if Taken(acc, k) {
        var i :| 0 <= i < |acc| && KeyOf(acc[i]) == k;
        assert KeyOf(more[i]) == k;
      }
      assert KeyOf(more[|acc|]) == KeyOf(o);
    }
  }

  lemma AcceptOneMore(acc: seq<Offer>, offers: seq<Offer>, o: Offer)
    ensures AcceptAll(acc, offers + [o]) == Accept(AcceptAll(acc, offers), o)
  {
    assert (offers + [o])[..|offers|] == offers;
  }

  lemma {:induction false} AcceptInTurn(acc: seq<Offer>, a: seq<Offer>, b: seq<Offer>)
    ensures AcceptAll(acc, a + b) == AcceptAll(AcceptAll(acc, a), b)
  {
    if b == [] {
      assert a + b == a;
    } else {
      var n := |b| - 1;
      assert (a + b)[..|a + b| - 1] == a + b[..n];
      AcceptInTurn(acc, a, b[..n]);
    }
  }

  // The loops of the builder, in their order.
  method Collect(pc: PersonContext, now: Instant) returns (drafted: map<Section, seq<Item>>)
    ensures forall s :: s in drafted && drafted[s] == InSection(Accepted(pc, now), s)
  {
    hide OfAction, OfCommitment, OfItem, OfDecision, OfPraise, OfCompleted, AcceptAll, OffersOf, CompletedFacts, DaysBefore;
    var draft := new Draft();
    AtMostOneOffer();
    var since60, since30, since14 := DaysBefore(now, 60), DaysBefore(now, 30), DaysBefore(now, 14);
    var completed := CompletedFacts(pc.completedActions);
    assert draft.accepted == AcceptAll([], []) by { NoOffers(); }
    ghost var offers := draft.AddEach(pc.openActions, ForAction(now), []);
    offers := draft.AddEach(pc.commitments, ForCommitment(completed, since60), offers);
    offers := draft.AddEach(pc.followUps, ForItem(since60, FollowUps, FollowUp, Normal, false), offers);
    offers := draft.AddEach(pc.concerns, ForItem(since30, MustDiscuss, Concern, High, false), offers);
    offers := draft.AddEach(pc.openQuestions, ForItem(since30, OpenQuestions, OpenQuestion, Normal, false), offers);
    offers := draft.AddEach(pc.decisions, ForDecision(since30), offers);
    offers := draft.AddEach(pc.achievements, ForPraise(since30), offers);
    offers := draft.AddEach(pc.feedback, ForPraise(since30), offers);
    offers := draft.AddEach(pc.completedActions, ForCompleted(since14), offers);
    offers := draft.AddEach(pc.recentNotes, ForItem(since14, Context, Background, Low, false), offers);
    offers := draft.AddEach(pc.possibleMentions, ForItem(since14, Context, Background, Low, true), offers);
    assert offers == Offers(pc, now);
    drafted := draft.sections;
  }

  lemma NoOffers()
    ensures AcceptAll([], []) == []
  {
  }

  lemma AtMostOneOffer()
    ensures forall now, a :: |ForAction(now)(a)| <= 1
    ensures forall done, since, x :: |ForCommitment(done, since)(x)| <= 1
    ensures forall since, s, k, p, inferred, x :: |ForItem(since, s, k, p, inferred)(x)| <= 1
    ensures forall since, x :: |ForDecision(since)(x)| <= 1
    ensures forall since, x :: |ForPraise(since)(x)| <= 1
    ensures forall since, a :: |ForCompleted(since)(a)| <= 1
  {
    hide DedupeKey;
  }

  // The loops that build the list of sources.
  method CollectSources(items: seq<Item>) returns (sources: seq<Source>)
    ensures AreSources(items, sources, SOURCE_LIMIT)
  {
    var latest := LatestDates(items);
    var all := ListSources(latest);
    SortSources(items, latest, all);
    sources := Cut(StableSort(all, Newer), SOURCE_LIMIT);
  }

  method LatestDates(items: seq<Item>) returns (latest: map<int, Instant>)
    ensures latest.Keys == Notes(items)
    ensures forall note :: note in latest ==> LatestOf(items, note, latest[note])
  {
    hide LatestOf, Notes;
    latest := map[];
    NoDates();
    for i := 0 to |items|
      invariant latest.Keys == Notes(items[..i])
      invariant forall note :: note in latest ==> LatestOf(items[..i], note, latest[note])
    {
      var x := items[i];
      OneMoreDate(items[..i], x, latest);
      assert items[..i + 1] == items[..i] + [x];
      if x.note !in latest || x.date > latest[x.note] {
        latest := latest[x.note := x.date];
      }
    }
    assert items[..|items|] == items;
  }

  lemma NoDates()
    ensures Notes([]) == {}
  {
  }

  lemma OneMoreDate(items: seq<Item>, x: Item, latest: map<int, Instant>)
    requires latest.Keys == Notes(items)
    requires forall note :: note in latest ==> LatestOf(items, note, latest[note])
    ensures Notes(items + [x]) == Notes(items) + {x.note}
    ensures forall note :: note in latest && note != x.note ==> LatestOf(items + [x], note, latest[note])
    ensures LatestOf(items + [x], x.note, if x.note !in latest || x.date > latest[x.note] then x.date else latest[x.note])
  {
    var more := items + [x];
    assert more[|items|] == x;
    assert forall i :: 0 <= i < |items| ==> more[i] == items[i];
    forall i | 0 <= i < |items| ensures items[i].note in Notes(items) {}
    forall note | note in latest ensures LatestOf(more, note, latest[note]) || note == x.note {
      var i :| 0 <= i < |items| && items[i].note == note && items[i].date == latest[note];
      assert more[i].note == note;
    }
    if x.note in latest {
      var i :| 0 <= i < |items| && items[i].note == x.note && items[i].date == latest[x.note];
      assert more[i].note == x.note;
    }
  }

  lemma NewerIsWeakOrder()
    ensures WeakOrder(Newer)
  {
  }

  lemma SortSources(items: seq<Item>, latest: map<int, Instant>, all: seq<Source>)
    requires latest.Keys == Notes(items) && forall note :: note in latest ==> LatestOf(items, note, latest[note])
    requires |all| == |latest|
    requires forall i :: 0 <= i < |all| ==> all[i].note in latest && all[i].date == latest[all[i].note]
    requires forall i, j :: 0 <= i < j < |all| ==> all[i].note != all[j].note
    requires forall note :: note in latest ==> Source(note, latest[note]) in all
    ensures AreSources(items, Cut(StableSort(all, Newer), SOURCE_LIMIT), SOURCE_LIMIT)
  {
    var sorted := StableSort(all, Newer);
    NewerIsWeakOrder();
    hide StableSort, Tied, LatestOf, Notes, Sorted, AreSources, WeakOrder;
    StableSortSorts(all, Newer);
    SortKeepsAll(all, Newer);
    SortKeepsElements(all, Newer);
    SortKeepsDistinct(all, Newer, (x: Source) => x.note);
    assert forall x :: x in sorted ==> x.note in latest && x.date == latest[x.note];
    assert |latest.Keys| == |latest|;
    var limit: nat := SOURCE_LIMIT;
    CutSources(items, latest, sorted, limit);
  }

  lemma CutSources(items: seq<Item>, latest: map<int, Instant>, sorted: seq<Source>, limit: nat)
    requires latest.Keys == Notes(items) && |latest.Keys| == |sorted| && Sorted(sorted, Newer)
    requires forall note :: note in latest ==> LatestOf(items, note, latest[note]) && Source(note, latest[note]) in sorted
    requires forall x :: x in sorted ==> x.note in latest && x.date == latest[x.note]
    requires DistinctBy(sorted, (x: Source) => x.note)
    ensures AreSources(items, Cut(sorted, limit), limit)
  {
    hide *;
    CutIsPrefix(sorted, limit);
    NoneNewer(items, latest, sorted, |Cut(sorted, limit)|);
    FirstSources(items, latest, sorted, |Cut(sorted, limit)|);
    SourcesAre(items, Cut(sorted, limit), limit);
  }

  lemma CutIsPrefix<T>(s: seq<T>, limit: nat)
    ensures |Cut(s, limit)| == (if |s| < limit then |s| else limit) && Cut(s, limit) == s[..|Cut(s, limit)|]
  {
  }

  lemma SourcesAre(items: seq<Item>, sources: seq<Source>, limit: nat)
    requires |sources| == (if |Notes(items)| < limit then |Notes(items)| else limit) && Sorted(sources, Newer)
    requires forall i :: 0 <= i < |sources| ==> LatestOf(items, sources[i].note, sources[i].date)
    requires forall i, j :: 0 <= i < j < |sources| ==> sources[i].note != sources[j].note
    requires NoneLeftOutIsNewer(items, sources)
    ensures AreSources(items, sources, limit)
  {
    hide Sorted, LatestOf, NoneLeftOutIsNewer, Notes;
  }

  lemma FirstSources(items: seq<Item>, latest: map<int, Instant>, sorted: seq<Source>, count: nat)
    requires Sorted(sorted, Newer) && DistinctBy(sorted, (x: Source) => x.note) && count <= |sorted|
    requires forall note :: note in latest ==> LatestOf(items, note, latest[note])
    requires forall x :: x in sorted ==> x.note in latest && x.date == latest[x.note]
    ensures Sorted(sorted[..count], Newer)
    ensures forall i :: 0 <= i < count ==> LatestOf(items, sorted[..count][i].note, sorted[..count][i].date)
    ensures forall i, j :: 0 <= i < j < count ==> sorted[..count][i].note != sorted[..count][j].note
  {
    hide LatestOf, Newer;
    forall i | 0 <= i < count ensures LatestOf(items, sorted[i].note, sorted[i].date) {
      assert sorted[i] in sorted;
    }
  }

  // A note without a source among the first ones is not newer than any of them.
  lemma NoneNewer(items: seq<Item>, latest: map<int, Instant>, sorted: seq<Source>, count: nat)
    requires latest.Keys == Notes(items) && Sorted(sorted, Newer) && count <= |sorted|
    requires forall note :: note in latest ==> LatestOf(items, note, latest[note]) && Source(note, latest[note]) in sorted
    ensures NoneLeftOutIsNewer(items, sorted[..count])
  {
    hide LatestOf, Newer, Notes, Sorted, Unlisted;
    forall i, note, d | 0 <= i < count && LatestOf(items, note, d) && Unlisted(sorted[..count], note)
      ensures d <= sorted[i].date
    {
      LatestIsListed(items, latest, note, d);
      LaterIsOlder(sorted, count, i, Source(note, d));
    }
  }

  lemma LatestIsListed(items: seq<Item>, latest: map<int, Instant>, note: int, d: Instant)
    requires latest.Keys == Notes(items) && LatestOf(items, note, d)
    requires forall n :: n in latest ==> LatestOf(items, n, latest[n])
    ensures note in latest && latest[note] == d
  {
    var n :| 0 <= n < |items| && items[n].note == note && items[n].date == d;
    assert note in Notes(items);
    OneLatest(items, note, d, latest[note]);
  }

  // A source that does not stand among the first ones is not newer than any of them.
  lemma LaterIsOlder(sorted: seq<Source>, count: nat, i: nat, x: Source)
    requires Sorted(sorted, Newer) && x in sorted && i < count <= |sorted|
    requires Unlisted(sorted[..count], x.note)
    ensures x.date <= sorted[i].date
  {
    var j :| 0 <= j < |sorted| && sorted[j] == x;
    assert forall l :: 0 <= l < count ==> sorted[..count][l].note == sorted[l].note;
    assert j >= count;
    assert !Newer(sorted[j], sorted[i]);
  }

  lemma OneLatest(items: seq<Item>, note: int, d: Instant, e: Instant)
    requires LatestOf(items, note, d) && LatestOf(items, note, e)
    ensures d == e
  {
  }

  // The map's entries in any order.
  method ListSources(latest: map<int, Instant>) returns (all: seq<Source>)
    ensures |all| == |latest|
    ensures forall i :: 0 <= i < |all| ==> all[i].note in latest && all[i].date == latest[all[i].note]
    ensures forall i, j :: 0 <= i < j < |all| ==> all[i].note != all[j].note
    ensures forall note :: note in latest ==> Source(note, latest[note]) in all
  {
    all := [];
    var left := latest.Keys;
    while left != {}
      invariant left <= latest.Keys && |all| + |left| == |latest|
      invariant forall i :: 0 <= i < |all| ==> all[i].note in latest && all[i].note !in left && all[i].date == latest[all[i].note]
      invariant forall i, j :: 0 <= i < j < |all| ==> all[i].note != all[j].note
      invariant forall note :: note in latest && note !in left ==> Source(note, latest[note]) in all
      decreases |left|
    {
      ghost var some := Pick(left);
      var id :| id in left;
      all := all + [Source(id, latest[id])];
      left := left - {id};
    }
  }

  datatype PersonAgenda = PersonAgenda(sections: map<Section, seq<Item>>, hiddenMustDiscuss: nat, sources: seq<Source>)

  method BuildAgendaFromPersonContext(pc: PersonContext, now: Instant) returns (a: PersonAgenda)
    ensures var acc := Accepted(pc, now);
            && (forall s :: s in a.sections && a.sections[s] == Shown(acc, s))
            && a.hiddenMustDiscuss == |InSection(acc, MustDiscuss)| - |Shown(acc, MustDiscuss)|
            && AreSources(AllShown(acc), a.sources, 30)
  {
    var drafted := Collect(pc, now);
    hide Accepted, Shown, AreSources;
    var shown := map s | s in drafted :: Limited(drafted[s], LimitOf(s));
    var hidden := if |drafted[MustDiscuss]| > LimitOf(MustDiscuss) then |drafted[MustDiscuss]| - LimitOf(MustDiscuss) else 0;
    ShownSizes(Accepted(pc, now), drafted);
    var sources := CollectSources(shown[MustDiscuss] + shown[FollowUps] + shown[OpenQuestions] + shown[Decisions]
                                  + shown[PositiveNotes] + shown[Context]);
    a := PersonAgenda(shown, hidden, sources);
  }

  function Limited(items: seq<Item>, limit: nat): seq<Item> {
    Cut(StableSort(items, Before), limit)
  }

  lemma ShownSizes(acc: seq<Offer>, drafted: map<Section, seq<Item>>)
    requires forall s :: s in drafted && drafted[s] == InSection(acc, s)
    ensures forall s :: Limited(drafted[s], LimitOf(s)) == Shown(acc, s)
    ensures |Shown(acc, MustDiscuss)|
         == if |drafted[MustDiscuss]| > LimitOf(MustDiscuss) then LimitOf(MustDiscuss) else |drafted[MustDiscuss]|
  {
    SortKeepsAll(InSection(acc, MustDiscuss), Before);
  }

  // ---- Main results ----

  lemma TrimKeepsKey(note: int, text: string)
    ensures DedupeKey(note, Text.TrimSpace(text)) == DedupeKey(note, text)
  {
    hide Text.ToLower, Text.TrimSpace, Text.Fields, Text.Join;
    Text.FieldsIgnoreTrim(text);
    Text.FieldsIgnoreTrim(Text.TrimSpace(text));
  }

  lemma {:induction false} AcceptedAreDistinct(offers: seq<Offer>)
    ensures DistinctBy(AcceptAll([], offers), KeyOf)
  {
    if offers != [] {
      hide Text.TrimSpace, DedupeKey;
      AcceptedAreDistinct(offers[..|offers| - 1]);
    }
  }

  lemma {:induction false} InSectionMeans(acc: seq<Offer>, s: Section)
    ensures forall x :: x in InSection(acc, s) <==> Offer(s, x) in acc
  {
    if acc != [] {
      var n := |acc| - 1;
      InSectionMeans(acc[..n], s);
      forall x ensures Offer(s, x) in acc <==> Offer(s, x) in acc[..n] || acc[n] == Offer(s, x) {
        if Offer(s, x) in acc[..n] { assert Offer(s, x) in acc; }
      }
    }
  }

  function ItemKey(x: Item): Key { DedupeKey(x.note, x.text) }

  lemma {:induction false} InSectionIsDistinct(acc: seq<Offer>, s: Section)
    requires DistinctBy(acc, KeyOf)
    ensures DistinctBy(InSection(acc, s), ItemKey)
  {
    if acc != [] {
      var n := |acc| - 1;
      InSectionIsDistinct(acc[..n], s);
      InSectionMeans(acc[..n], s);
      hide DedupeKey;
      var before := InSection(acc[..n], s);
      forall i | 0 <= i < |before| && acc[n].section == s ensures ItemKey(before[i]) != ItemKey(acc[n].item) {
        assert Offer(s, before[i]) in acc[..n];
        var j :| 0 <= j < n && acc[j] == Offer(s, before[i]);
        assert KeyOf(acc[j]) != KeyOf(acc[n]);
      }
    }
  }

  lemma ShownMeans(acc: seq<Offer>, s: Section)
    requires DistinctBy(acc, KeyOf)
    ensures forall x :: x in Shown(acc, s) ==> Offer(s, x) in acc
    ensures DistinctBy(Shown(acc, s), ItemKey)
  {
    hide DedupeKey, StableSort;
    InSectionMeans(acc, s);
    InSectionIsDistinct(acc, s);
    SortKeepsElements(InSection(acc, s), Before);
    SortKeepsDistinct(InSection(acc, s), Before, ItemKey);
  }

  // No fact occurs twice across the six sections, whatever the case of its letters and its spaces.
  lemma NoFactTwice(pc: PersonContext, now: Instant, s: Section, i: nat, t: Section, j: nat)
    requires var acc := Accepted(pc, now); i < |Shown(acc, s)| && j < |Shown(acc, t)| && (s, i) != (t, j)
    ensures var acc := Accepted(pc, now);
            var x, y := Shown(acc, s)[i], Shown(acc, t)[j];
            ItemKey(x) != ItemKey(y) && !SameFact(x.note, x.text, y.note, y.text)
  {
    hide Offers, AcceptAll, Shown, DedupeKey, SameFact;
    var acc := Accepted(pc, now);
    OneKeyPerFact(Shown(acc, s)[i].note, Shown(acc, s)[i].text, Shown(acc, t)[j].note, Shown(acc, t)[j].text);
    AcceptedAreDistinct(Offers(pc, now));
    ShownMeans(acc, s);
    ShownMeans(acc, t);
    var x, y := Shown(acc, s)[i], Shown(acc, t)[j];
    if s != t && ItemKey(x) == ItemKey(y) {
      OnePerKey(acc, KeyOf, Offer(s, x), Offer(t, y));
    }
  }

  // No fact is lost before the cut: each offer that carries text, a note and a date is accepted,
  // or another with its key is.
  lemma {:induction false} EveryFactIsKept(offers: seq<Offer>, o: Offer)
    requires o in offers && Text.TrimSpace(o.item.text) != "" && o.item.note > 0 && o.item.date != 0
    ensures Taken(AcceptAll([], offers), KeyOf(o))
  {
    hide Text.TrimSpace, DedupeKey;
    var n := |offers| - 1;
    var before := AcceptAll([], offers[..n]);
    if o != offers[n] {
      assert o in offers[..n];
      EveryFactIsKept(offers[..n], o);
      StaysTaken(before, offers[n], KeyOf(o));
    } else {
      TrimKeepsKey(o.item.note, o.item.text);
      var trimmed := o.(item := o.item.(text := Text.TrimSpace(o.item.text)));
      OneMoreTaken(before, trimmed);
    }
  }

  lemma StaysTaken(acc: seq<Offer>, o: Offer, k: Key)
    requires Taken(acc, k)
    ensures Taken(Accept(acc, o), k)
  {
    hide Text.TrimSpace, DedupeKey;
    var trimmed := o.(item := o.item.(text := Text.TrimSpace(o.item.text)));
    OneMoreTaken(acc, trimmed);
  }

  function AtMost(n: nat, limit: nat): nat { if n > limit then limit else n }

  // High comes before normal and normal before low, and of one priority the newer first.
  predicate InOrder(x: Item, y: Item) {
    if x.priority == y.priority then x.date >= y.date else x.priority == High || y.priority == Low
  }

  lemma InOrderMeans(x: Item, y: Item)
    ensures InOrder(x, y) <==> !Before(y, x)
  {
  }

  // Each section is a prefix of the stable (priority, newest) ordering of its accepted items, and
  // no item left out belongs before one that is shown.
  lemma SectionIsStableTop(pc: PersonContext, now: Instant, s: Section)
    ensures var items := InSection(Accepted(pc, now), s);
            var ordered := StableSort(items, Before);
            && Shown(Accepted(pc, now), s) <= ordered && Sorted(ordered, Before)
            && multiset(ordered) == multiset(items) && (forall x :: Tied(ordered, x, Before) == Tied(items, x, Before))
            && |Shown(Accepted(pc, now), s)|
               == AtMost(|items|, if s == MustDiscuss then 10 else if s in {FollowUps, OpenQuestions} then 8 else 5)
            && (forall i, j :: 0 <= i < j < |Shown(Accepted(pc, now), s)| ==>
                  InOrder(Shown(Accepted(pc, now), s)[i], Shown(Accepted(pc, now), s)[j]))
            && forall x, y :: x in items && x !in Shown(Accepted(pc, now), s) && y in Shown(Accepted(pc, now), s) ==> !Before(x, y)
  {
    hide Accepted, InSection, StableSort, Before, Tied, InOrder;
    var items := InSection(Accepted(pc, now), s);
    var ordered := StableSort(items, Before);
    var shown := Shown(Accepted(pc, now), s);
    BeforeIsWeakOrder();
    StableSortSorts(items, Before);
    SortKeepsAll(items, Before);
    SortKeepsElements(items, Before);
    forall i, j | 0 <= i < j < |shown| ensures InOrder(shown[i], shown[j]) {
      assert shown[i] == ordered[i] && shown[j] == ordered[j];
      InOrderMeans(shown[i], shown[j]);
    }
    forall x, y | x in items && x !in shown && y in shown ensures !Before(x, y) {
      assert x in ordered;
      var j :| 0 <= j < |ordered| && ordered[j] == x;
      var i :| 0 <= i < |shown| && shown[i] == y;
      assert shown[i] == ordered[i] && j >= |shown|;
    }
  }

  // A high item is hidden only if every item shown is high.
  lemma HiddenHighItems(pc: PersonContext, now: Instant, x: Item)
    requires x in InSection(Accepted(pc, now), MustDiscuss) && x !in Shown(Accepted(pc, now), MustDiscuss) && x.priority == High
    ensures forall y :: y in Shown(Accepted(pc, now), MustDiscuss) ==> y.priority == High
  {
    hide Accepted, InSection, Shown;
    SectionIsStableTop(pc, now, MustDiscuss);
    forall y | y in Shown(Accepted(pc, now), MustDiscuss) ensures y.priority == High {
      assert !Before(x, y);
    }
  }

  // ---- What may be shown ----

  // No completed fact is offered as a commitment.
  predicate Unfinished(o: Offer, completed: set<Key>) {
    o.item.kind == Commitment ==> KeyOf(o) !in completed
  }

  // The oldest a shown item of each kind may be, in days; open actions are shown at any age.
  function MaxAge(k: Kind): int {
    match k
    case Commitment => 60
    case FollowUp => 60
    case Background => 14
    case _ => 30
  }

  predicate Fresh(o: Offer, now: Instant) {
    o.item.kind != OpenAction ==> o.item.date >= DaysBefore(now, MaxAge(o.item.kind))
  }

  // High is kept for overdue open actions and for concerns.
  predicate Urgent(o: Offer, now: Instant) {
    o.item.priority == High <==>
      (o.item.kind == Concern || (o.item.kind == OpenAction && o.item.due.Some? && o.item.due.value < now))
  }

  predicate MayShow(o: Offer, completed: set<Key>, now: Instant) {
    Unfinished(o, completed) && Fresh(o, now) && Urgent(o, now)
  }

  ghost predicate AllMayShow(offers: seq<Offer>, completed: set<Key>, now: Instant) {
    forall o :: o in offers ==> MayShow(o, completed, now)
  }

  lemma {:induction false} OffersMayShow<T>(xs: seq<T>, offer: T -> seq<Offer>, completed: set<Key>, now: Instant)
    requires forall x :: x in xs ==> AllMayShow(offer(x), completed, now)
    ensures AllMayShow(OffersOf(xs, offer), completed, now)
  {
    if xs != [] {
      OffersMayShow(xs[..|xs| - 1], offer, completed, now);
    }
  }

  lemma AllOffersMayShow(pc: PersonContext, now: Instant)
    ensures AllMayShow(Offers(pc, now), CompletedFacts(pc.completedActions), now)
  {
    hide CompletedFacts, DedupeKey, OffersOf;
    var done := CompletedFacts(pc.completedActions);
    var since60, since30, since14 := DaysBefore(now, 60), DaysBefore(now, 30), DaysBefore(now, 14);
    OffersMayShow(pc.openActions, ForAction(now), done, now);
    OffersMayShow(pc.commitments, ForCommitment(done, since60), done, now);
    OffersMayShow(pc.followUps, ForItem(since60, FollowUps, FollowUp, Normal, false), done, now);
    OffersMayShow(pc.concerns, ForItem(since30, MustDiscuss, Concern, High, false), done, now);
    OffersMayShow(pc.openQuestions, ForItem(since30, OpenQuestions, OpenQuestion, Normal, false), done, now);
    OffersMayShow(pc.decisions, ForDecision(since30), done, now);
    OffersMayShow(pc.achievements, ForPraise(since30), done, now);
    OffersMayShow(pc.feedback, ForPraise(since30), done, now);
    OffersMayShow(pc.completedActions, ForCompleted(since14), done, now);
    OffersMayShow(pc.recentNotes, ForItem(since14, Context, Background, Low, false), done, now);
    OffersMayShow(pc.possibleMentions, ForItem(since14, Context, Background, Low, true), done, now);
    hide ForAction, ForCommitment, ForItem, ForDecision, ForPraise, ForCompleted, MayShow;
  }

  lemma {:induction false} AcceptedMayShow(offers: seq<Offer>, completed: set<Key>, now: Instant)
    requires AllMayShow(offers, completed, now)
    ensures AllMayShow(AcceptAll([], offers), completed, now)
  {
    if offers != [] {
      hide Text.TrimSpace, DedupeKey;
      var n := |offers| - 1;
      assert offers[n] in offers;
      AcceptedMayShow(offers[..n], completed, now);
      TrimKeepsKey(offers[n].item.note, offers[n].item.text);
    }
  }

  lemma ShownMayShow(pc: PersonContext, now: Instant, s: Section, x: Item)
    requires x in Shown(Accepted(pc, now), s)
    ensures MayShow(Offer(s, x), CompletedFacts(pc.completedActions), now)
  {
    hide Offers, AcceptAll, Shown, DedupeKey, MayShow;
    AllOffersMayShow(pc, now);
    AcceptedMayShow(Offers(pc, now), CompletedFacts(pc.completedActions), now);
    AcceptedAreDistinct(Offers(pc, now));
    ShownMeans(Accepted(pc, now), s);
  }

  // No completed fact appears as a commitment.
  lemma CompletedFactsAreNoCommitments(pc: PersonContext, now: Instant, s: Section, x: Item, i: nat)
    requires x in Shown(Accepted(pc, now), s) && x.kind == Commitment
    requires i < |pc.completedActions| && pc.completedActions[i].status == "done"
    ensures !SameFact(x.note, x.text, pc.completedActions[i].note, pc.completedActions[i].title)
  {
    hide Accepted, Shown, DedupeKey, SameFact;
    OneKeyPerFact(x.note, x.text, pc.completedActions[i].note, pc.completedActions[i].title);
    ShownMayShow(pc, now, s, x);
  }

  // Whatever is shown, open actions apart, is at most as old as its kind allows; and it is high
  // exactly if it is a concern or an overdue open action.
  lemma ShownIsFreshAndRanked(pc: PersonContext, now: Instant, s: Section, x: Item)
    requires x in Shown(Accepted(pc, now), s)
    ensures x.kind != OpenAction ==> now - x.date <= MaxAge(x.kind) * Weeks.DAY
    ensures x.priority == High <==> (x.kind == Concern || (x.kind == OpenAction && x.due.Some? && x.due.value < now))
  {
    hide Accepted, Shown, DedupeKey;
    ShownMayShow(pc, now, s, x);
  }

  // ---- Where the items come from ----

  // Not older than so many days.
  predicate Recent(date: Instant, now: Instant, days: int) {
    now - date <= days * 86_400_000_000_000
  }

  // An item made of a context item, and one made of a context action.
  function Noted(k: Kind, x: ContextItem, p: Priority, inferred: bool): Item {
    Item(k, Text.TrimSpace(x.text), x.note, x.date, None, None, p, inferred)
  }

  function Acted(k: Kind, a: ContextAction, due: Option<Instant>, p: Priority): Item {
    Item(k, Text.TrimSpace(a.title), a.note, a.date, Some(a.id), due, p, false)
  }

  // The item stands in the section of its kind and is made of a fact of its list that is young
  // enough and still counts.
  ghost predicate Stems(pc: PersonContext, now: Instant, s: Section, x: Item) {
    match x.kind
    case OpenAction =>
      s == MustDiscuss
      && exists a :: a in pc.openActions && a.status == "open"
                     && x == Acted(OpenAction, a, a.due, if a.due.Some? && a.due.value < now then High else Normal)
    case Commitment =>
      s == MustDiscuss && exists c :: c in pc.commitments && Recent(c.date, now, 60) && x == Noted(Commitment, c, Normal, false)
    case FollowUp =>
      s == FollowUps && exists c :: c in pc.followUps && Recent(c.date, now, 60) && x == Noted(FollowUp, c, Normal, false)
    case Concern =>
      s == MustDiscuss && exists c :: c in pc.concerns && Recent(c.date, now, 30) && x == Noted(Concern, c, High, false)
    case OpenQuestion =>
      s == OpenQuestions && exists c :: c in pc.openQuestions && Recent(c.date, now, 30) && x == Noted(OpenQuestion, c, Normal, false)
    case Decision =>
      s == Decisions
      && exists d :: d in pc.decisions && Live(d) && Recent(d.date, now, 30)
                     && x == Item(Decision, Text.TrimSpace(d.text), d.note, d.date, None, None, Normal, false)
    case Achievement =>
      s == PositiveNotes
      && ((exists c :: (c in pc.achievements || c in pc.feedback) && Praises(c) && Recent(c.date, now, 30)
                       && x == Noted(Achievement, c, Low, false))
          || exists a :: a in pc.completedActions && a.status == "done" && Recent(a.date, now, 14) && x == Acted(Achievement, a, None, Low))
    case Background =>
      s == Context
      && ((exists c :: c in pc.recentNotes && Recent(c.date, now, 14) && x == Noted(Background, c, Low, false))
          || exists c :: c in pc.possibleMentions && Recent(c.date, now, 14) && x == Noted(Background, c, Low, true))
  }

  predicate Live(d: ContextDecision) {
    d.status in {"", "active", "recorded"}
  }

  predicate Praises(c: ContextItem) {
    c.typ in {"achievement", "collaboration", "feedback", "positive_signal", ""}
  }

  function Trimmed(o: Offer): Offer { o.(item := o.item.(text := Text.TrimSpace(o.item.text))) }

  lemma {:induction false} OffersComeFrom<T>(xs: seq<T>, offer: T -> seq<Offer>)
    ensures forall o :: o in OffersOf(xs, offer) <==> exists x :: x in xs && o in offer(x)
  {
    if xs != [] {
      var n := |xs| - 1;
      OffersComeFrom(xs[..n], offer);
      assert xs == xs[..n] + [xs[n]];
      forall o ensures o in OffersOf(xs, offer) <==> exists x :: x in xs && o in offer(x) {
        if o in OffersOf(xs[..n], offer) {
          var x :| x in xs[..n] && o in offer(x);
          assert x in xs;
        }
        if o in offer(xs[n]) { assert xs[n] in xs; }
      }
    }
  }

  ghost predicate AllStem(offers: seq<Offer>, pc: PersonContext, now: Instant) {
    forall o :: o in offers ==> Stems(pc, now, o.section, Trimmed(o).item)
  }

  lemma ListStems<T>(xs: seq<T>, offer: T -> seq<Offer>, pc: PersonContext, now: Instant)
    requires forall x :: x in xs ==> AllStem(offer(x), pc, now)
    ensures AllStem(OffersOf(xs, offer), pc, now)
  {
    hide OffersOf, Stems;
    OffersComeFrom(xs, offer);
  }

  lemma OpenActionsStem(pc: PersonContext, now: Instant)
    ensures AllStem(OffersOf(pc.openActions, ForAction(now)), pc, now)
  {
    hide DedupeKey, Text.TrimSpace, OffersOf, CompletedFacts;
    ListStems(pc.openActions, ForAction(now), pc, now);
  }

  lemma CommitmentsStem(pc: PersonContext, now: Instant)
    ensures AllStem(OffersOf(pc.commitments, ForCommitment(CompletedFacts(pc.completedActions), DaysBefore(now, 60))), pc, now)
  {
    hide DedupeKey, Text.TrimSpace, OffersOf, CompletedFacts;
    ListStems(pc.commitments, ForCommitment(CompletedFacts(pc.completedActions), DaysBefore(now, 60)), pc, now);
  }

  lemma FollowUpsStem(pc: PersonContext, now: Instant)
    ensures AllStem(OffersOf(pc.followUps, ForItem(DaysBefore(now, 60), FollowUps, FollowUp, Normal, false)), pc, now)
  {
    hide DedupeKey, Text.TrimSpace, OffersOf, CompletedFacts;
    ListStems(pc.followUps, ForItem(DaysBefore(now, 60), FollowUps, FollowUp, Normal, false), pc, now);
  }

  lemma ConcernsStem(pc: PersonContext, now: Instant)
    ensures AllStem(OffersOf(pc.concerns, ForItem(DaysBefore(now, 30), MustDiscuss, Concern, High, false)), pc, now)
  {
    hide DedupeKey, Text.TrimSpace, OffersOf, CompletedFacts;
    ListStems(pc.concerns, ForItem(DaysBefore(now, 30), MustDiscuss, Concern, High, false), pc, now);
  }

  lemma OpenQuestionsStem(pc: PersonContext, now: Instant)
    ensures AllStem(OffersOf(pc.openQuestions, ForItem(DaysBefore(now, 30), OpenQuestions, OpenQuestion, Normal, false)), pc, now)
  {
    hide DedupeKey, Text.TrimSpace, OffersOf, CompletedFacts;
    ListStems(pc.openQuestions, ForItem(DaysBefore(now, 30), OpenQuestions, OpenQuestion, Normal, false), pc, now);
  }

  lemma DecisionsStem(pc: PersonContext, now: Instant)
    ensures AllStem(OffersOf(pc.decisions, ForDecision(DaysBefore(now, 30))), pc, now)
  {
    hide DedupeKey, Text.TrimSpace, OffersOf, CompletedFacts;
    ListStems(pc.decisions, ForDecision(DaysBefore(now, 30)), pc, now);
  }

  lemma AchievementsStem(pc: PersonContext, now: Instant)
    ensures AllStem(OffersOf(pc.achievements, ForPraise(DaysBefore(now, 30))), pc, now)
  {
    hide DedupeKey, Text.TrimSpace, OffersOf, CompletedFacts;
    ListStems(pc.achievements, ForPraise(DaysBefore(now, 30)), pc, now);
  }

  lemma FeedbackStems(pc: PersonContext, now: Instant)
    ensures AllStem(OffersOf(pc.feedback, ForPraise(DaysBefore(now, 30))), pc, now)
  {
    hide DedupeKey, Text.TrimSpace, OffersOf, CompletedFacts;
    ListStems(pc.feedback, ForPraise(DaysBefore(now, 30)), pc, now);
  }

  lemma CompletedActionsStem(pc: PersonContext, now: Instant)
    ensures AllStem(OffersOf(pc.completedActions, ForCompleted(DaysBefore(now, 14))), pc, now)
  {
    hide DedupeKey, Text.TrimSpace, OffersOf, CompletedFacts;
    ListStems(pc.completedActions, ForCompleted(DaysBefore(now, 14)), pc, now);
  }

  lemma RecentNotesStem(pc: PersonContext, now: Instant)
    ensures AllStem(OffersOf(pc.recentNotes, ForItem(DaysBefore(now, 14), Context, Background, Low, false)), pc, now)
  {
    hide DedupeKey, Text.TrimSpace, OffersOf, CompletedFacts;
    ListStems(pc.recentNotes, ForItem(DaysBefore(now, 14), Context, Background, Low, false), pc, now);
  }

  lemma PossibleMentionsStem(pc: PersonContext, now: Instant)
    ensures AllStem(OffersOf(pc.possibleMentions, ForItem(DaysBefore(now, 14), Context, Background, Low, true)), pc, now)
  {
    hide DedupeKey, Text.TrimSpace, OffersOf, CompletedFacts;
    ListStems(pc.possibleMentions, ForItem(DaysBefore(now, 14), Context, Background, Low, true), pc, now);
  }

  // An offer is one of a list.
  lemma OffersAreOfLists(pc: PersonContext, now: Instant, o: Offer)
    ensures o in Offers(pc, now) <==>
              || o in OffersOf(pc.openActions, ForAction(now))
              || o in OffersOf(pc.commitments, ForCommitment(CompletedFacts(pc.completedActions), DaysBefore(now, 60)))
              || o in OffersOf(pc.followUps, ForItem(DaysBefore(now, 60), FollowUps, FollowUp, Normal, false))
              || o in OffersOf(pc.concerns, ForItem(DaysBefore(now, 30), MustDiscuss, Concern, High, false))
              || o in OffersOf(pc.openQuestions, ForItem(DaysBefore(now, 30), OpenQuestions, OpenQuestion, Normal, false))
              || o in OffersOf(pc.decisions, ForDecision(DaysBefore(now, 30)))
              || o in OffersOf(pc.achievements, ForPraise(DaysBefore(now, 30)))
              || o in OffersOf(pc.feedback, ForPraise(DaysBefore(now, 30)))
              || o in OffersOf(pc.completedActions, ForCompleted(DaysBefore(now, 14)))
              || o in OffersOf(pc.recentNotes, ForItem(DaysBefore(now, 14), Context, Background, Low, false))
              || o in OffersOf(pc.possibleMentions, ForItem(DaysBefore(now, 14), Context, Background, Low, true))
  {
    hide OffersOf, CompletedFacts, DaysBefore, ForAction, ForCommitment, ForItem, ForDecision, ForPraise, ForCompleted;
  }

  lemma AllOffersStem(pc: PersonContext, now: Instant)
    ensures AllStem(Offers(pc, now), pc, now)
  {
    OpenActionsStem(pc, now);
    CommitmentsStem(pc, now);
    FollowUpsStem(pc, now);
    ConcernsStem(pc, now);
    OpenQuestionsStem(pc, now);
    DecisionsStem(pc, now);
    AchievementsStem(pc, now);
    FeedbackStems(pc, now);
    CompletedActionsStem(pc, now);
    RecentNotesStem(pc, now);
    PossibleMentionsStem(pc, now);
    hide Offers, OffersOf, CompletedFacts, DaysBefore, ForAction, ForCommitment, ForItem, ForDecision, ForPraise, ForCompleted, Stems;
    forall o | o in Offers(pc, now) ensures Stems(pc, now, o.section, Trimmed(o).item) {
      OffersAreOfLists(pc, now, o);
    }
  }

  lemma {:induction false} AcceptedAreTrimmed(offers: seq<Offer>)
    ensures forall a :: a in AcceptAll([], offers) ==>
              a.item.text != "" && a.item.note > 0 && a.item.date != 0 && exists o :: o in offers && a == Trimmed(o)
  {
    hide Text.TrimSpace, DedupeKey;
    if offers != [] {
      var n := |offers| - 1;
      AcceptedAreTrimmed(offers[..n]);
      assert offers == offers[..n] + [offers[n]];
      forall a | a in AcceptAll([], offers) ensures exists o :: o in offers && a == Trimmed(o) {
        if a in AcceptAll([], offers[..n]) {
          var o :| o in offers[..n] && a == Trimmed(o);
          assert o in offers;
        } else {
          assert offers[n] in offers;
        }
      }
    }
  }

  // Every item that is shown stands in the section of its kind and is made of a fact of the
  // person's context that is young enough and still counts, with its trimmed text, its note and
  // date, its action and due date, and the priority of its kind; text, note and date are present.
  lemma ShownItemsStem(pc: PersonContext, now: Instant, s: Section, x: Item)
    requires x in Shown(Accepted(pc, now), s)
    ensures Stems(pc, now, s, x) && x.text != "" && x.note > 0 && x.date != 0
  {
    hide Offers, AcceptAll, Shown, DedupeKey, Stems;
    AllOffersStem(pc, now);
    AcceptedAreDistinct(Offers(pc, now));
    ShownMeans(Accepted(pc, now), s);
    AcceptedAreTrimmed(Offers(pc, now));
    var o :| o in Offers(pc, now) && Offer(s, x) == Trimmed(o);
  }

  // ---- Nothing fresh is missing ----

  predicate Tellable(text: string, note: int, date: Instant) {
    !Text.Blank(text) && note > 0 && date != 0
  }

  // The two texts say one fact of one note: the same words, up to case.
  ghost predicate SameFact(note: int, text: string, other: int, otherText: string) {
    note == other && Text.SameWords(text, otherText)
  }

  // Some accepted item says the fact.
  ghost predicate Tells(acc: seq<Offer>, note: int, text: string) {
    exists i :: 0 <= i < |acc| && SameFact(note, text, acc[i].item.note, acc[i].item.text)
  }

  // Two facts have one dedup key exactly if they are the same.
  lemma OneKeyPerFact(note: int, text: string, other: int, otherText: string)
    ensures DedupeKey(note, text) == DedupeKey(other, otherText) <==> SameFact(note, text, other, otherText)
  {
    Text.FoldedTextsAreEqual(text, otherText);
    hide Text.ToLower, Text.NormalizeSpace, Text.SameWords;
  }

  lemma OfferIsTold(pc: PersonContext, now: Instant, o: Offer)
    requires o in Offers(pc, now) && Tellable(o.item.text, o.item.note, o.item.date)
    ensures Tells(Accepted(pc, now), o.item.note, o.item.text)
  {
    hide Offers, Text.TrimSpace, DedupeKey, AcceptAll, SameFact;
    TextIsThere(o.item.text);
    EveryFactIsKept(Offers(pc, now), o);
    var acc := Accepted(pc, now);
    var i :| 0 <= i < |acc| && KeyOf(acc[i]) == KeyOf(o);
    OneKeyPerFact(o.item.note, o.item.text, acc[i].item.note, acc[i].item.text);
  }

  lemma TextIsThere(text: string)
    requires !Text.Blank(text)
    ensures Text.TrimSpace(text) != ""
  {
    Text.TrimSpaceShape(text);
    hide Text.TrimSpace, Text.Blank;
  }

  lemma OfferOfList<T>(xs: seq<T>, offer: T -> seq<Offer>, x: T, o: Offer)
    requires x in xs && o in offer(x)
    ensures o in OffersOf(xs, offer)
  {
    OffersComeFrom(xs, offer);
  }

  // Before the cut no fact that counts is missing: every open action; commitments and follow-ups of
  // 60 days, of those commitments not done; concerns, open questions, live decisions and praise of
  // 30 days; and finished actions, notes and possible mentions of 14 days.
  ghost predicate NothingMissing(pc: PersonContext, now: Instant, acc: seq<Offer>) {
    && (forall a :: a in pc.openActions && a.status == "open" && Tellable(a.title, a.note, a.date) ==> Tells(acc, a.note, a.title))
    && (forall c :: c in pc.commitments && Recent(c.date, now, 60) && Tellable(c.text, c.note, c.date) ==>
          Finished(pc.completedActions, c) || Tells(acc, c.note, c.text))
    && (forall c :: c in pc.followUps && Recent(c.date, now, 60) && Tellable(c.text, c.note, c.date) ==> Tells(acc, c.note, c.text))
    && (forall c :: c in pc.concerns + pc.openQuestions && Recent(c.date, now, 30) && Tellable(c.text, c.note, c.date) ==>
          Tells(acc, c.note, c.text))
    && (forall d :: d in pc.decisions && Live(d) && Recent(d.date, now, 30) && Tellable(d.text, d.note, d.date) ==>
          Tells(acc, d.note, d.text))
    && (forall c :: c in pc.achievements + pc.feedback && Praises(c) && Recent(c.date, now, 30) && Tellable(c.text, c.note, c.date) ==>
          Tells(acc, c.note, c.text))
    && (forall a :: a in pc.completedActions && a.status == "done" && Recent(a.date, now, 14) && Tellable(a.title, a.note, a.date) ==>
          Tells(acc, a.note, a.title))
    && (forall c :: c in pc.recentNotes + pc.possibleMentions && Recent(c.date, now, 14) && Tellable(c.text, c.note, c.date) ==>
          Tells(acc, c.note, c.text))
  }

  // A finished action says the commitment.
  ghost predicate Finished(done: seq<ContextAction>, c: ContextItem) {
    exists i :: 0 <= i < |done| && done[i].status == "done" && SameFact(c.note, c.text, done[i].note, done[i].title)
  }

  lemma CompletedMeansFinished(done: seq<ContextAction>, c: ContextItem)
    ensures DedupeKey(c.note, c.text) in CompletedFacts(done) <==> Finished(done, c)
  {
    hide DedupeKey, SameFact;
    forall i | 0 <= i < |done|
      ensures DedupeKey(c.note, c.text) == DedupeKey(done[i].note, done[i].title) <==> SameFact(c.note, c.text, done[i].note, done[i].title)
    {
      OneKeyPerFact(c.note, c.text, done[i].note, done[i].title);
    }
  }

  lemma OpenActionIsTold(pc: PersonContext, now: Instant, a: ContextAction)
    requires a in pc.openActions && a.status == "open" && Tellable(a.title, a.note, a.date)
    ensures Tells(Accepted(pc, now), a.note, a.title)
  {
    hide Accepted, OffersOf, Offers, Tells, DedupeKey, CompletedFacts, Text.Blank;
    var urgent := a.due.Some? && a.due.value < now;
    var o := Offer(MustDiscuss, Item(OpenAction, a.title, a.note, a.date, Some(a.id), a.due, if urgent then High else Normal, false));
    assert o in ForAction(now)(a);
    OfferOfList(pc.openActions, ForAction(now), a, o);
    OffersAreOfLists(pc, now, o);
    OfferIsTold(pc, now, o);
  }

  lemma CommitmentIsTold(pc: PersonContext, now: Instant, c: ContextItem)
    requires c in pc.commitments && Recent(c.date, now, 60) && Tellable(c.text, c.note, c.date) && !Finished(pc.completedActions, c)
    ensures Tells(Accepted(pc, now), c.note, c.text)
  {
    hide Accepted, OffersOf, Offers, Tells, DedupeKey, CompletedFacts, Text.Blank;
    var o := Offer(MustDiscuss, Item(Commitment, c.text, c.note, c.date, None, None, Normal, false));
    CompletedMeansFinished(pc.completedActions, c);
    assert o in ForCommitment(CompletedFacts(pc.completedActions), DaysBefore(now, 60))(c);
    OfferOfList(pc.commitments, ForCommitment(CompletedFacts(pc.completedActions), DaysBefore(now, 60)), c, o);
    OffersAreOfLists(pc, now, o);
    OfferIsTold(pc, now, o);
  }

  lemma FollowUpIsTold(pc: PersonContext, now: Instant, c: ContextItem)
    requires c in pc.followUps && Recent(c.date, now, 60) && Tellable(c.text, c.note, c.date)
    ensures Tells(Accepted(pc, now), c.note, c.text)
  {
    hide Accepted, OffersOf, Offers, Tells, DedupeKey, CompletedFacts, Text.Blank;
    var o := Offer(FollowUps, Item(FollowUp, c.text, c.note, c.date, None, None, Normal, false));
    assert o in ForItem(DaysBefore(now, 60), FollowUps, FollowUp, Normal, false)(c);
    OfferOfList(pc.followUps, ForItem(DaysBefore(now, 60), FollowUps, FollowUp, Normal, false), c, o);
    OffersAreOfLists(pc, now, o);
    OfferIsTold(pc, now, o);
  }

  lemma ConcernIsTold(pc: PersonContext, now: Instant, c: ContextItem)
    requires c in pc.concerns && Recent(c.date, now, 30) && Tellable(c.text, c.note, c.date)
    ensures Tells(Accepted(pc, now), c.note, c.text)
  {
    hide Accepted, OffersOf, Offers, Tells, DedupeKey, CompletedFacts, Text.Blank;
    var o := Offer(MustDiscuss, Item(Concern, c.text, c.note, c.date, None, None, High, false));
    assert o in ForItem(DaysBefore(now, 30), MustDiscuss, Concern, High, false)(c);
    OfferOfList(pc.concerns, ForItem(DaysBefore(now, 30), MustDiscuss, Concern, High, false), c, o);
    OffersAreOfLists(pc, now, o);
    OfferIsTold(pc, now, o);
  }

  lemma OpenQuestionIsTold(pc: PersonContext, now: Instant, c: ContextItem)
    requires c in pc.openQuestions && Recent(c.date, now, 30) && Tellable(c.text, c.note, c.date)
    ensures Tells(Accepted(pc, now), c.note, c.text)
  {
    hide Accepted, OffersOf, Offers, Tells, DedupeKey, CompletedFacts, Text.Blank;
    var o := Offer(OpenQuestions, Item(OpenQuestion, c.text, c.note, c.date, None, None, Normal, false));
    assert o in ForItem(DaysBefore(now, 30), OpenQuestions, OpenQuestion, Normal, false)(c);
    OfferOfList(pc.openQuestions, ForItem(DaysBefore(now, 30), OpenQuestions, OpenQuestion, Normal, false), c, o);
    OffersAreOfLists(pc, now, o);
    OfferIsTold(pc, now, o);
  }

  lemma DecisionIsTold(pc: PersonContext, now: Instant, d: ContextDecision)
    requires d in pc.decisions && Live(d) && Recent(d.date, now, 30) && Tellable(d.text, d.note, d.date)
    ensures Tells(Accepted(pc, now), d.note, d.text)
  {
    hide Accepted, OffersOf, Offers, Tells, DedupeKey, CompletedFacts, Text.Blank;
    var o := Offer(Decisions, Item(Decision, d.text, d.note, d.date, None, None, Normal, false));
    assert o in ForDecision(DaysBefore(now, 30))(d);
    OfferOfList(pc.decisions, ForDecision(DaysBefore(now, 30)), d, o);
    OffersAreOfLists(pc, now, o);
    OfferIsTold(pc, now, o);
  }

  lemma AchievementIsTold(pc: PersonContext, now: Instant, c: ContextItem)
    requires c in pc.achievements && Recent(c.date, now, 30) && Tellable(c.text, c.note, c.date) && Praises(c)
    ensures Tells(Accepted(pc, now), c.note, c.text)
  {
    hide Accepted, OffersOf, Offers, Tells, DedupeKey, CompletedFacts, Text.Blank;
    var o := Offer(PositiveNotes, Item(Achievement, c.text, c.note, c.date, None, None, Low, false));
    assert o in ForPraise(DaysBefore(now, 30))(c);
    OfferOfList(pc.achievements, ForPraise(DaysBefore(now, 30)), c, o);
    OffersAreOfLists(pc, now, o);
    OfferIsTold(pc, now, o);
  }

  lemma FeedbackIsTold(pc: PersonContext, now: Instant, c: ContextItem)
    requires c in pc.feedback && Recent(c.date, now, 30) && Tellable(c.text, c.note, c.date) && Praises(c)
    ensures Tells(Accepted(pc, now), c.note, c.text)
  {
    hide Accepted, OffersOf, Offers, Tells, DedupeKey, CompletedFacts, Text.Blank;
    var o := Offer(PositiveNotes, Item(Achievement, c.text, c.note, c.date, None, None, Low, false));
    assert o in ForPraise(DaysBefore(now, 30))(c);
    OfferOfList(pc.feedback, ForPraise(DaysBefore(now, 30)), c, o);
    OffersAreOfLists(pc, now, o);
    OfferIsTold(pc, now, o);
  }

  lemma CompletedActionIsTold(pc: PersonContext, now: Instant, a: ContextAction)
    requires a in pc.completedActions && a.status == "done" && Recent(a.date, now, 14) && Tellable(a.title, a.note, a.date)
    ensures Tells(Accepted(pc, now), a.note, a.title)
  {
    hide Accepted, OffersOf, Offers, Tells, DedupeKey, CompletedFacts, Text.Blank;
    var o := Offer(PositiveNotes, Item(Achievement, a.title, a.note, a.date, Some(a.id), None, Low, false));
    assert o in ForCompleted(DaysBefore(now, 14))(a);
    OfferOfList(pc.completedActions, ForCompleted(DaysBefore(now, 14)), a, o);
    OffersAreOfLists(pc, now, o);
    OfferIsTold(pc, now, o);
  }

  lemma RecentNoteIsTold(pc: PersonContext, now: Instant, c: ContextItem)
    requires c in pc.recentNotes && Recent(c.date, now, 14) && Tellable(c.text, c.note, c.date)
    ensures Tells(Accepted(pc, now), c.note, c.text)
  {
    hide Accepted, OffersOf, Offers, Tells, DedupeKey, CompletedFacts, Text.Blank;
    var o := Offer(Context, Item(Background, c.text, c.note, c.date, None, None, Low, false));
    assert o in ForItem(DaysBefore(now, 14), Context, Background, Low, false)(c);
    OfferOfList(pc.recentNotes, ForItem(DaysBefore(now, 14), Context, Background, Low, false), c, o);
    OffersAreOfLists(pc, now, o);
    OfferIsTold(pc, now, o);
  }

  lemma PossibleMentionIsTold(pc: PersonContext, now: Instant, c: ContextItem)
    requires c in pc.possibleMentions && Recent(c.date, now, 14) && Tellable(c.text, c.note, c.date)
    ensures Tells(Accepted(pc, now), c.note, c.text)
  {
    hide Accepted, OffersOf, Offers, Tells, DedupeKey, CompletedFacts, Text.Blank;
    var o := Offer(Context, Item(Background, c.text, c.note, c.date, None, None, Low, true));
    assert o in ForItem(DaysBefore(now, 14), Context, Background, Low, true)(c);
    OfferOfList(pc.possibleMentions, ForItem(DaysBefore(now, 14), Context, Background, Low, true), c, o);
    OffersAreOfLists(pc, now, o);
    OfferIsTold(pc, now, o);
  }

  lemma NoFreshFactIsMissing(pc: PersonContext, now: Instant)
    ensures NothingMissing(pc, now, Accepted(pc, now))
  {
    hide Accepted, Tells, Tellable, Recent, Finished;
    var acc := Accepted(pc, now);
    forall a | a in pc.openActions && a.status == "open" && Tellable(a.title, a.note, a.date) ensures Tells(acc, a.note, a.title) {
      OpenActionIsTold(pc, now, a);
    }
    forall c | c in pc.commitments && Recent(c.date, now, 60) && Tellable(c.text, c.note, c.date) && !Finished(pc.completedActions, c)
      ensures Tells(acc, c.note, c.text)
    {
      CommitmentIsTold(pc, now, c);
    }
    forall c | c in pc.followUps && Recent(c.date, now, 60) && Tellable(c.text, c.note, c.date) ensures Tells(acc, c.note, c.text) {
      FollowUpIsTold(pc, now, c);
    }
    forall c | c in pc.concerns + pc.openQuestions && Recent(c.date, now, 30) && Tellable(c.text, c.note, c.date)
      ensures Tells(acc, c.note, c.text)
    {
      if c in pc.concerns { ConcernIsTold(pc, now, c); } else { OpenQuestionIsTold(pc, now, c); }
    }
    forall d | d in pc.decisions && Live(d) && Recent(d.date, now, 30) && Tellable(d.text, d.note, d.date)
      ensures Tells(acc, d.note, d.text)
    {
      DecisionIsTold(pc, now, d);
    }
    forall c | c in pc.achievements + pc.feedback && Praises(c) && Recent(c.date, now, 30) && Tellable(c.text, c.note, c.date)
      ensures Tells(acc, c.note, c.text)
    {
      if c in pc.achievements { AchievementIsTold(pc, now, c); } else { FeedbackIsTold(pc, now, c); }
    }
    forall a | a in pc.completedActions && a.status == "done" && Recent(a.date, now, 14) && Tellable(a.title, a.note, a.date)
      ensures Tells(acc, a.note, a.title)
    {
      CompletedActionIsTold(pc, now, a);
    }
    forall c | c in pc.recentNotes + pc.possibleMentions && Recent(c.date, now, 14) && Tellable(c.text, c.note, c.date)
      ensures Tells(acc, c.note, c.text)
    {
      if c in pc.recentNotes { RecentNoteIsTold(pc, now, c); } else { PossibleMentionIsTold(pc, now, c); }
    }
  }
}
