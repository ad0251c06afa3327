// The queue together with everything else that touches a note's records: merges and edits of
// persons, and actions that are marked done or opened again.
module WholeRuns {
  import opened Options
  import opened Text
  import opened Names
  import opened People
  import opened Records
  import opened Queue
  import Entities
  import Profiles
  import Merging

  datatype Event =
    | Enrich(step: Queue.Step)
    | Merge(pair: Merging.Pair, input: Merging.MergeInput, now: Instant)
    | Edit(user: int, id: int, request: Profiles.Request, now: Instant)
      // SetActionStatus, and with open false the update of a /done
    | SetStatus(user: int, action: int, open: bool)

  function WithStatus(t: Tables, user: int, action: int, open: bool): Tables {
    if action in t.actions && t.actions[action].user == user
    then t.(actions := t.actions[action := t.actions[action].(open := open)]) else t
  }

  ghost function Do(s: State, e: Event): State {
    match e
    case Enrich(step) => Queue.Next(s, step)
    case Merge(pair, input, now) => s.(db := Merging.MergePeople(s.db, pair, input, now).0)
    case Edit(user, id, request, now) => s.(db := Profiles.UpdateProfile(s.db, user, id, request, now).0)
    case SetStatus(user, action, open) => s.(db := WithStatus(s.db, user, action, open))
  }

  ghost function RunAll(s: State, events: seq<Event>): State {
    if events == [] then s else Do(RunAll(s, events[..|events| - 1]), events[|events| - 1])
  }

  ghost predicate Allowed(s: State, e: Event) {
    e.Enrich? ==> InOrder(s, e.step)
  }

  ghost predicate AllAllowed(s: State, events: seq<Event>) {
    events == []
    || (AllAllowed(s, events[..|events| - 1]) && Allowed(RunAll(s, events[..|events| - 1]), events[|events| - 1]))
  }

  // ---- Roots of merge chains ----

  // root is the active person above id.
  ghost predicate LeadsTo(people: map<int, Person>, id: int, root: int) {
    exists d: nat :: AtDepth(people, id, d) && Up(people, id, d) == root
  }

  ghost predicate PointersStay(people: map<int, Person>, later: map<int, Person>) {
    forall id :: id in people ==>
      id in later && later[id].user == people[id].user && later[id].merged == people[id].merged
  }

  lemma ActiveLeadsToItself(people: map<int, Person>, id: int)
    requires Active(people, id)
    ensures LeadsTo(people, id, id)
  {
    assert AtDepth(people, id, 0) && Up(people, id, 0) == id;
  }

  lemma {:induction false} DepthStays(people: map<int, Person>, later: map<int, Person>, id: int, d: nat)
    requires PointersStay(people, later) && AtDepth(people, id, d)
    ensures AtDepth(later, id, d) && Up(later, id, d) == Up(people, id, d)
    decreases d
  {
    if d > 0 {
      DepthStays(people, later, people[id].merged.value, d - 1);
    }
  }

  lemma RootsStay(people: map<int, Person>, later: map<int, Person>)
    requires PointersStay(people, later)
    ensures forall id, root :: LeadsTo(people, id, root) ==> LeadsTo(later, id, root)
  {
    forall id, root | LeadsTo(people, id, root) ensures LeadsTo(later, id, root) {
      var d: nat :| AtDepth(people, id, d) && Up(people, id, d) == root;
      DepthStays(people, later, id, d);
    }
  }

  function Redirected(q: Merging.Pair, id: int): int { if id == q.source then q.primary else id }

  // The pointers after a merge of two active persons.
  ghost predicate Joined(people: map<int, Person>, after: map<int, Person>, q: Merging.Pair) {
    && Active(people, q.primary) && Active(people, q.source) && q.primary != q.source
    && people[q.primary].user == people[q.source].user && after.Keys == people.Keys
    && (forall x :: x in people ==> after[x].user == people[x].user)
    && (forall x :: x in people ==> after[x].merged == if x == q.source then Some(q.primary) else people[x].merged)
  }

  lemma {:induction false} RootAfterMerge(people: map<int, Person>, after: map<int, Person>, q: Merging.Pair, id: int, d: nat)
    requires Joined(people, after, q) && AtDepth(people, id, d)
    ensures LeadsTo(after, id, Redirected(q, Up(people, id, d)))
    decreases d
  {
    if id == q.source {
      assert AtDepth(after, q.primary, 0) && AtDepth(after, id, 1);
      assert Up(after, id, 1) == Up(after, q.primary, 0) == q.primary;
    } else if d == 0 {
      assert AtDepth(after, id, 0) && Up(after, id, 0) == id;
    } else {
      var next := people[id].merged.value;
      RootAfterMerge(people, after, q, next, d - 1);
      var root := Redirected(q, Up(people, next, d - 1));
      var e: nat :| AtDepth(after, next, e) && Up(after, next, e) == root;
      assert AtDepth(after, id, e + 1) && Up(after, id, e + 1) == root;
    }
  }

  lemma RootsJoin(people: map<int, Person>, after: map<int, Person>, q: Merging.Pair)
    requires Joined(people, after, q)
    ensures forall id, root :: LeadsTo(people, id, root) ==> LeadsTo(after, id, Redirected(q, root))
  {
    hide Joined;
    forall id, root | LeadsTo(people, id, root) ensures LeadsTo(after, id, Redirected(q, root)) {
      var d: nat :| AtDepth(people, id, d) && Up(people, id, d) == root;
      RootAfterMerge(people, after, q, id, d);
    }
  }

  // ---- Rows that follow their derived form ----

  ghost predicate SameLink(people: map<int, Person>, was: Option<int>, now: Option<int>) {
    match was
    case None => now.None?
    case Some(p) => now.Some? && LeadsTo(people, p, now.value)
  }

  ghost predicate DecisionFollows(people: map<int, Person>, was: DecisionRow, now: DecisionRow) {
    now == was.(person := now.person) && SameLink(people, was.person, now.person)
  }

  ghost predicate ActionFollows(people: map<int, Person>, was: Action, now: Action) {
    now == was.(person := now.person, open := now.open) && SameLink(people, was.person, now.person)
  }

  ghost predicate PeopleNoteFollows(people: map<int, Person>, was: PeopleNote, now: PeopleNote) {
    now == was.(person := now.person) && LeadsTo(people, was.person, now.person)
  }

  // now records the fact of was, about the person that was's person has become.
  ghost predicate FactFollows(people: map<int, Person>, was: PeopleNote, now: PeopleNote) {
    Merging.SameFact(was, now) && LeadsTo(people, was.person, now.person)
  }

  ghost predicate DecisionsFollow(people: map<int, Person>, m: map<int, DecisionRow>, start: int, rows: seq<DecisionRow>) {
    && (forall r :: r in m <==> start <= r < start + |rows|)
    && (forall r :: r in m ==> DecisionFollows(people, rows[r - start], m[r]))
  }

  ghost predicate ActionsFollow(people: map<int, Person>, m: map<int, Action>, start: int, rows: seq<Action>) {
    && (forall r :: r in m <==> start <= r < start + |rows|)
    && (forall r :: r in m ==> ActionFollows(people, rows[r - start], m[r]))
  }

  ghost predicate Recorded(people: map<int, Person>, m: map<int, PeopleNote>, was: PeopleNote) {
    exists r :: r in m && FactFollows(people, was, m[r])
  }

  // Rows may be gone, but no fact is.
  ghost predicate PeopleNotesFollow(people: map<int, Person>, m: map<int, PeopleNote>, start: int, rows: seq<PeopleNote>) {
    && (forall r :: r in m ==> start <= r < start + |rows| && PeopleNoteFollows(people, rows[r - start], m[r]))
    && (forall i :: 0 <= i < |rows| ==> Recorded(people, m, rows[i]))
  }

  // rows are what the parsed note p yielded when it was saved, with names read in the alias index
  // of that time: every link now leads to the root of its merge chain, actions may have been marked
  // done or opened again, and people notes may have been deduplicated.
  ghost predicate Follows(rows: NoteRows, people: map<int, Person>, index: map<AliasKey, Alias>, user: int, note: int, p: Parsed) {
    && AllLead(index, user, NamesOf(p))
    && (exists a: int :: PeopleNotesFollow(people, rows.peopleNotes, a, PeopleNoteRows(index, user, note, KeptPeopleNotes(p.peopleNotes))))
    && (exists b: int :: DecisionsFollow(people, rows.decisions, b, DecisionRows(index, user, note, KeptDecisions(p.decisions))))
    && (exists c: int :: ActionsFollow(people, rows.actions, c, ActionRows(index, user, note, KeptActions(p.actions))))
    && rows.mentions == MentionRows(user, note, Entities.NormalizeMentions(p.mentions).out)
  }

  // ---- One table at a time ----

  lemma DecisionBlockFollows(people: map<int, Person>, m: map<int, DecisionRow>, b: int, rows: seq<DecisionRow>)
    requires IsBlock(m, b, rows) && forall r :: r in m ==> m[r].person.Some? ==> Active(people, m[r].person.value)
    ensures DecisionsFollow(people, m, b, rows)
  {
    hide Active, LeadsTo;
    forall r | r in m ensures DecisionFollows(people, rows[r - b], m[r]) {
      assert m[b + (r - b)] == rows[r - b];
      if m[r].person.Some? { ActiveLeadsToItself(people, m[r].person.value); }
    }
  }

  lemma FreshDecisionsFollow(people: map<int, Person>, m: map<int, DecisionRow>, rows: seq<DecisionRow>)
    requires Holds(m, rows) && forall r :: r in m ==> m[r].person.Some? ==> Active(people, m[r].person.value)
    ensures exists b: int :: DecisionsFollow(people, m, b, rows)
  {
    var b: int :| IsBlock(m, b, rows);
    hide IsBlock, Active, DecisionsFollow;
    DecisionBlockFollows(people, m, b, rows);
  }

  lemma ActionBlockFollows(people: map<int, Person>, m: map<int, Action>, c: int, rows: seq<Action>)
    requires IsBlock(m, c, rows) && forall r :: r in m ==> m[r].person.Some? ==> Active(people, m[r].person.value)
    ensures ActionsFollow(people, m, c, rows)
  {
    hide Active, LeadsTo;
    forall r | r in m ensures ActionFollows(people, rows[r - c], m[r]) {
      assert m[c + (r - c)] == rows[r - c];
      if m[r].person.Some? { ActiveLeadsToItself(people, m[r].person.value); }
    }
  }

  lemma FreshActionsFollow(people: map<int, Person>, m: map<int, Action>, rows: seq<Action>)
    requires Holds(m, rows) && forall r :: r in m ==> m[r].person.Some? ==> Active(people, m[r].person.value)
    ensures exists c: int :: ActionsFollow(people, m, c, rows)
  {
    var c: int :| IsBlock(m, c, rows);
    hide IsBlock, Active, ActionsFollow;
    ActionBlockFollows(people, m, c, rows);
  }

  lemma ActiveNoteFollows(people: map<int, Person>, n: PeopleNote)
    requires Active(people, n.person)
    ensures PeopleNoteFollows(people, n, n) && FactFollows(people, n, n)
  {
    hide LeadsTo;
    ActiveLeadsToItself(people, n.person);
  }

  lemma RecordedBy(people: map<int, Person>, m: map<int, PeopleNote>, was: PeopleNote, r: int)
    requires r in m && FactFollows(people, was, m[r])
    ensures Recorded(people, m, was)
  {
    hide FactFollows;
  }

  lemma BlockIsRecorded(people: map<int, Person>, m: map<int, PeopleNote>, a: int, rows: seq<PeopleNote>)
    requires IsBlock(m, a, rows) && forall r :: r in m ==> Active(people, m[r].person)
    ensures forall i :: 0 <= i < |rows| ==> Recorded(people, m, rows[i])
  {
    hide Active, PeopleNoteFollows, FactFollows, Recorded;
    forall i | 0 <= i < |rows| ensures Recorded(people, m, rows[i]) {
      var r := a + i;
      assert r in m && m[r] == rows[i];
      ActiveNoteFollows(people, m[r]);
      RecordedBy(people, m, rows[i], r);
    }
  }

  lemma BlockFollows(people: map<int, Person>, m: map<int, PeopleNote>, a: int, rows: seq<PeopleNote>)
    requires IsBlock(m, a, rows) && forall r :: r in m ==> Active(people, m[r].person)
    ensures forall r :: r in m ==> a <= r < a + |rows| && PeopleNoteFollows(people, rows[r - a], m[r])
  {
    hide Active, PeopleNoteFollows, FactFollows;
    forall r | r in m ensures PeopleNoteFollows(people, rows[r - a], m[r]) {
      assert m[a + (r - a)] == rows[r - a];
      ActiveNoteFollows(people, m[r]);
    }
  }

  lemma NoteBlockFollows(people: map<int, Person>, m: map<int, PeopleNote>, a: int, rows: seq<PeopleNote>)
    requires IsBlock(m, a, rows) && forall r :: r in m ==> Active(people, m[r].person)
    ensures PeopleNotesFollow(people, m, a, rows)
  {
    hide IsBlock, Recorded, PeopleNoteFollows, Active;
    BlockIsRecorded(people, m, a, rows);
    BlockFollows(people, m, a, rows);
  }

  lemma FreshPeopleNotesFollow(people: map<int, Person>, m: map<int, PeopleNote>, rows: seq<PeopleNote>)
    requires Holds(m, rows) && forall r :: r in m ==> Active(people, m[r].person)
    ensures exists a: int :: PeopleNotesFollow(people, m, a, rows)
  {
    var a: int :| IsBlock(m, a, rows);
    hide IsBlock, PeopleNotesFollow, Active;
    NoteBlockFollows(people, m, a, rows);
  }

  function RedirectedLink(q: Merging.Pair, link: Option<int>): Option<int> {
    if link.Some? then Some(Redirected(q, link.value)) else None
  }

  // The rows of one table with their links redirected; actions may also change their status.
  ghost predicate DecisionsMoved(q: Merging.Pair, m: map<int, DecisionRow>, m1: map<int, DecisionRow>) {
    m1.Keys == m.Keys && forall r :: r in m ==> m1[r] == m[r].(person := RedirectedLink(q, m[r].person))
  }

  ghost predicate ActionsMoved(q: Merging.Pair, m: map<int, Action>, m1: map<int, Action>) {
    m1.Keys == m.Keys && forall r :: r in m ==> m1[r] == m[r].(person := RedirectedLink(q, m[r].person), open := m1[r].open)
  }

  ghost predicate Kept(m: map<int, PeopleNote>, n: PeopleNote) {
    exists x :: x in m && m[x].person == n.person && Merging.SameFact(n, m[x])
  }

  // m1 has rows of m, redirected, and for each row that it lacks one with the same fact.
  ghost predicate PeopleNotesMoved(q: Merging.Pair, m: map<int, PeopleNote>, m1: map<int, PeopleNote>) {
    && (forall r :: r in m1 ==> r in m && m1[r] == m[r].(person := Redirected(q, m[r].person)))
    && (forall r :: r in m ==> Kept(m1, m[r].(person := Redirected(q, m[r].person))))
  }

  // Rows that stay, or only change their open flag, while every root is led on by Redirected.
  lemma DecisionsMove(people: map<int, Person>, after: map<int, Person>, q: Merging.Pair, m: map<int, DecisionRow>,
                      m1: map<int, DecisionRow>, rows: seq<DecisionRow>)
    requires exists b: int :: DecisionsFollow(people, m, b, rows)
    requires forall id, root :: LeadsTo(people, id, root) ==> LeadsTo(after, id, Redirected(q, root))
    requires DecisionsMoved(q, m, m1)
    ensures exists b: int :: DecisionsFollow(after, m1, b, rows)
  {
    hide LeadsTo;
    var b: int :| DecisionsFollow(people, m, b, rows);
    forall r | r in m1 ensures DecisionFollows(after, rows[r - b], m1[r]) {
      assert DecisionFollows(people, rows[r - b], m[r]);
    }
    assert DecisionsFollow(after, m1, b, rows);
  }

  lemma ActionsMove(people: map<int, Person>, after: map<int, Person>, q: Merging.Pair, m: map<int, Action>,
                    m1: map<int, Action>, rows: seq<Action>)
    requires exists c: int :: ActionsFollow(people, m, c, rows)
    requires forall id, root :: LeadsTo(people, id, root) ==> LeadsTo(after, id, Redirected(q, root))
    requires ActionsMoved(q, m, m1)
    ensures exists c: int :: ActionsFollow(after, m1, c, rows)
  {
    hide LeadsTo;
    var c: int :| ActionsFollow(people, m, c, rows);
    forall r | r in m1 ensures ActionFollows(after, rows[r - c], m1[r]) {
      assert ActionFollows(people, rows[r - c], m[r]);
    }
    assert ActionsFollow(after, m1, c, rows);
  }

  lemma FactMoves(people: map<int, Person>, after: map<int, Person>, q: Merging.Pair, was: PeopleNote, now: PeopleNote, x: PeopleNote)
    requires FactFollows(people, was, now) && x.person == Redirected(q, now.person)
    requires Merging.SameFact(now.(person := Redirected(q, now.person)), x)
    requires forall id, root :: LeadsTo(people, id, root) ==> LeadsTo(after, id, Redirected(q, root))
    ensures FactFollows(after, was, x)
  {
    hide LeadsTo, Redirected;
  }

  lemma FactMovesOn(people: map<int, Person>, after: map<int, Person>, q: Merging.Pair, m: map<int, PeopleNote>,
                    m1: map<int, PeopleNote>, was: PeopleNote)
    requires Recorded(people, m, was)
    requires forall id, root :: LeadsTo(people, id, root) ==> LeadsTo(after, id, Redirected(q, root))
    requires forall r :: r in m ==> Kept(m1, m[r].(person := Redirected(q, m[r].person)))
    ensures Recorded(after, m1, was)
  {
    hide LeadsTo, Redirected, FactFollows, Merging.SameFact;
    var r :| r in m && FactFollows(people, was, m[r]);
    var moved := m[r].(person := Redirected(q, m[r].person));
    assert Kept(m1, moved);
    var x :| x in m1 && m1[x].person == moved.person && Merging.SameFact(moved, m1[x]);
    FactMoves(people, after, q, was, m[r], m1[x]);
  }

  lemma PeopleNotesMove(people: map<int, Person>, after: map<int, Person>, q: Merging.Pair, m: map<int, PeopleNote>,
                        m1: map<int, PeopleNote>, rows: seq<PeopleNote>)
    requires exists a: int :: PeopleNotesFollow(people, m, a, rows)
    requires forall id, root :: LeadsTo(people, id, root) ==> LeadsTo(after, id, Redirected(q, root))
    requires PeopleNotesMoved(q, m, m1)
    ensures exists a: int :: PeopleNotesFollow(after, m1, a, rows)
  {
    hide LeadsTo, Redirected, FactFollows, Merging.SameFact, Recorded, Kept;
    var a: int :| PeopleNotesFollow(people, m, a, rows);
    forall r | r in m1 ensures PeopleNoteFollows(after, rows[r - a], m1[r]) {
      assert PeopleNoteFollows(people, rows[r - a], m[r]);
    }
    hide PeopleNoteFollows;
    forall i | 0 <= i < |rows| ensures Recorded(after, m1, rows[i]) {
      FactMovesOn(people, after, q, m, m1, rows[i]);
    }
    assert PeopleNotesFollow(after, m1, a, rows);
  }

  // ---- All rows of a note ----

  const STILL := Merging.Pair(0, 0, 0)

  // What any event but a save leaves of a note's rows.
  ghost predicate RowsMoved(q: Merging.Pair, rows: NoteRows, rows1: NoteRows) {
    && DecisionsMoved(q, rows.decisions, rows1.decisions)
    && ActionsMoved(q, rows.actions, rows1.actions)
    && PeopleNotesMoved(q, rows.peopleNotes, rows1.peopleNotes)
    && rows1.mentions == rows.mentions
  }

  lemma FollowsMoves(q: Merging.Pair, rows: NoteRows, rows1: NoteRows, people: map<int, Person>, after: map<int, Person>,
                     index: map<AliasKey, Alias>, user: int, note: int, p: Parsed)
    requires Follows(rows, people, index, user, note, p) && RowsMoved(q, rows, rows1)
    requires forall id, root :: LeadsTo(people, id, root) ==> LeadsTo(after, id, Redirected(q, root))
    ensures Follows(rows1, after, index, user, note, p)
  {
    hide LeadsTo, Redirected, DecisionsFollow, ActionsFollow, PeopleNotesFollow, DecisionsMoved, ActionsMoved, PeopleNotesMoved;
    hide PeopleNoteRows, DecisionRows, ActionRows, MentionRows, KeptPeopleNotes, KeptDecisions, KeptActions;
    DecisionsMove(people, after, q, rows.decisions, rows1.decisions, DecisionRows(index, user, note, KeptDecisions(p.decisions)));
    ActionsMove(people, after, q, rows.actions, rows1.actions, ActionRows(index, user, note, KeptActions(p.actions)));
    PeopleNotesMove(people, after, q, rows.peopleNotes, rows1.peopleNotes,
                    PeopleNoteRows(index, user, note, KeptPeopleNotes(p.peopleNotes)));
  }

  lemma NoRowsMove(q: Merging.Pair, rows1: NoteRows)
    requires RowsMoved(q, NO_ROWS, rows1)
    ensures rows1 == NO_ROWS
  {
    assert rows1.decisions == map[] && rows1.actions == map[];
    assert forall r :: r in rows1.peopleNotes ==> r in NO_ROWS.peopleNotes;
    assert rows1.peopleNotes == map[];
  }

  lemma KeptItself(m: map<int, PeopleNote>, r: int)
    requires r in m
    ensures Kept(m, m[r])
  {
  }

  lemma RowsStandStill(rows: NoteRows)
    ensures RowsMoved(STILL, rows, rows)
  {
    hide Kept;
    forall r | r in rows.peopleNotes
      ensures Kept(rows.peopleNotes, rows.peopleNotes[r].(person := Redirected(STILL, rows.peopleNotes[r].person)))
    {
      KeptItself(rows.peopleNotes, r);
    }
  }

  lemma StatusMoves(t: Tables, user: int, action: int, open: bool, note: int)
    ensures RowsMoved(STILL, RowsFor(t, note), RowsFor(WithStatus(t, user, action, open), note))
  {
    RowsStandStill(RowsFor(t, note));
    hide Kept;
  }

  lemma LinkIsRedirected(t: Tables, q: Merging.Pair, user: int, link: Option<int>)
    requires LinkOk(t.people, user, link) && Merging.Mergeable(t, q)
    ensures (if Merging.LinksToSource(q, user, link) then Some(q.primary) else link) == RedirectedLink(q, link)
  {
  }

  lemma DecisionsOfNoteMove(t: Tables, q: Merging.Pair, note: int)
    requires RecordsInv(t) && Merging.Mergeable(t, q)
    ensures var m, m1 := Of(t.decisions, DecisionAbout(note)), Of(Merging.MoveDecisions(t, q), DecisionAbout(note));
            DecisionsMoved(q, m, m1)
  {
    hide LinkOk, Merging.LinksToSource, RedirectedLink, Merging.Mergeable;
    forall r | r in t.decisions
      ensures Merging.MoveDecisions(t, q)[r] == t.decisions[r].(person := RedirectedLink(q, t.decisions[r].person))
    {
      LinkIsRedirected(t, q, t.decisions[r].user, t.decisions[r].person);
    }
  }

  lemma ActionsOfNoteMove(t: Tables, q: Merging.Pair, note: int)
    requires RecordsInv(t) && Merging.Mergeable(t, q)
    ensures var m, m1 := Of(t.actions, ActionAbout(note)), Of(Merging.MoveActions(t, q), ActionAbout(note));
            ActionsMoved(q, m, m1)
  {
    hide LinkOk, Merging.LinksToSource, RedirectedLink, Merging.Mergeable;
    forall r | r in t.actions
      ensures Merging.MoveActions(t, q)[r] == t.actions[r].(person := RedirectedLink(q, t.actions[r].person))
    {
      LinkIsRedirected(t, q, t.actions[r].user, t.actions[r].person);
    }
  }

  lemma SourceNotesOfUser(t: Tables, q: Merging.Pair, r: int)
    requires RecordsInv(t) && Merging.Mergeable(t, q) && r in t.peopleNotes
    ensures Merging.IsSourceNote(t, q, r) <==> t.peopleNotes[r].person == q.source
  {
    assert ActiveFor(t.people, t.peopleNotes[r].user, t.peopleNotes[r].person);
  }

  // A people note either moves, or a row with its fact is the primary's already.
  lemma PeopleNoteIsKept(t: Tables, q: Merging.Pair, note: int, r: int)
    requires RecordsInv(t) && Merging.Mergeable(t, q) && r in t.peopleNotes && t.peopleNotes[r].note == Some(note)
    ensures Kept(Of(Merging.MovePeopleNotes(t, q), PeopleNoteAbout(note)),
                 t.peopleNotes[r].(person := Redirected(q, t.peopleNotes[r].person)))
  {
    SourceNotesOfUser(t, q, r);
    hide RecordsInv;
    var m1 := Of(Merging.MovePeopleNotes(t, q), PeopleNoteAbout(note));
    if Merging.IsDuplicate(t, q, r) {
      var x :| x in t.peopleNotes && t.peopleNotes[x].person == q.primary && Merging.SameFact(t.peopleNotes[x], t.peopleNotes[r]);
      assert x in m1 && m1[x] == t.peopleNotes[x];
    } else {
      hide Merging.IsDuplicate;
      assert r in m1;
    }
  }

  lemma PeopleNotesOfNoteMove(t: Tables, q: Merging.Pair, note: int)
    requires RecordsInv(t) && Merging.Mergeable(t, q)
    ensures var m, m1 := Of(t.peopleNotes, PeopleNoteAbout(note)), Of(Merging.MovePeopleNotes(t, q), PeopleNoteAbout(note));
            PeopleNotesMoved(q, m, m1)
  {
    var m, m1 := Of(t.peopleNotes, PeopleNoteAbout(note)), Of(Merging.MovePeopleNotes(t, q), PeopleNoteAbout(note));
    hide RecordsInv, Merging.Mergeable, Kept, Merging.IsDuplicate, Merging.IsSourceNote;
    forall r | r in m1 ensures r in m && m1[r] == m[r].(person := Redirected(q, m[r].person)) {
      SourceNotesOfUser(t, q, r);
    }
    forall r | r in m ensures Kept(m1, m[r].(person := Redirected(q, m[r].person))) {
      PeopleNoteIsKept(t, q, note, r);
    }
  }

  lemma MergeMovesRows(t: Tables, q: Merging.Pair, input: Merging.MergeInput, now: Instant, note: int)
    requires RecordsInv(t) && Merging.Mergeable(t, q)
    ensures RowsMoved(q, RowsFor(t, note), RowsFor(Merging.MoveAll(t, q, input, now), note))
  {
    hide RecordsInv, Merging.Mergeable, Merging.MoveAll, RowsFor, Of, DecisionsMoved, ActionsMoved, PeopleNotesMoved;
    MergedRowsAre(t, q, input, now, note);
    DecisionsOfNoteMove(t, q, note);
    ActionsOfNoteMove(t, q, note);
    PeopleNotesOfNoteMove(t, q, note);
  }

  lemma MergedRowsAre(t: Tables, q: Merging.Pair, input: Merging.MergeInput, now: Instant, note: int)
    requires Merging.Mergeable(t, q)
    ensures RowsFor(t, note) == NoteRows(Of(t.peopleNotes, PeopleNoteAbout(note)), Of(t.decisions, DecisionAbout(note)),
                                         Of(t.actions, ActionAbout(note)), MentionsFor(t.mentions, note))
    ensures RowsFor(Merging.MoveAll(t, q, input, now), note)
         == NoteRows(Of(Merging.MovePeopleNotes(t, q), PeopleNoteAbout(note)),
                     Of(Merging.MoveDecisions(t, q), DecisionAbout(note)),
                     Of(Merging.MoveActions(t, q), ActionAbout(note)), MentionsFor(t.mentions, note))
  {
    Merging.MoveAllRecords(t, q, input, now);
    hide Merging.MoveAll, Of, Merging.MoveActions, Merging.MoveDecisions, Merging.MovePeopleNotes, MentionsFor;
  }

  lemma MergeJoins(t: Tables, q: Merging.Pair, input: Merging.MergeInput, now: Instant)
    requires Merging.Mergeable(t, q)
    ensures Joined(t.people, Merging.MoveAll(t, q, input, now).people, q)
  {
    hide Merging.PickName, Merging.PickProfile, Merging.MoveAliases, Merging.MovePeopleNotes, Merging.MoveActions,
      Merging.MoveDecisions, Merging.MergedAliases;
  }

  lemma FreshFollows(db: Tables, user: int, note: int, p: Parsed)
    requires RecordsInv(db) && Derived(RowsFor(db, note), db.aliases, user, note, p)
    ensures Follows(RowsFor(db, note), db.people, db.aliases, user, note, p)
  {
    var rows := RowsFor(db, note);
    assert forall r :: r in rows.peopleNotes ==> Active(db.people, rows.peopleNotes[r].person);
    assert forall r :: r in rows.decisions ==> rows.decisions[r].person.Some? ==> Active(db.people, rows.decisions[r].person.value);
    assert forall r :: r in rows.actions ==> rows.actions[r].person.Some? ==> Active(db.people, rows.actions[r].person.value);
    hide RecordsInv, RowsFor, PeopleNoteRows, DecisionRows, ActionRows, MentionRows, Active, Holds, PeopleNotesFollow,
      DecisionsFollow, ActionsFollow;
    FreshPeopleNotesFollow(db.people, rows.peopleNotes, PeopleNoteRows(db.aliases, user, note, KeptPeopleNotes(p.peopleNotes)));
    FreshDecisionsFollow(db.people, rows.decisions, DecisionRows(db.aliases, user, note, KeptDecisions(p.decisions)));
    FreshActionsFollow(db.people, rows.actions, ActionRows(db.aliases, user, note, KeptActions(p.actions)));
  }

  // The rows still belong to the user of the save.
  lemma FollowingRowsOwned(rows: NoteRows, people: map<int, Person>, index: map<AliasKey, Alias>, user: int, note: int, p: Parsed)
    requires Follows(rows, people, index, user, note, p)
    ensures RowsOwned(rows, user)
  {
    hide PeopleNoteRows, DecisionRows, ActionRows, MentionRows, PeopleNotesFollow, DecisionsFollow, ActionsFollow,
      KeptPeopleNotes, KeptDecisions, KeptActions;
    PeopleNoteRowsAre(index, user, note, KeptPeopleNotes(p.peopleNotes));
    DecisionRowsAre(index, user, note, KeptDecisions(p.decisions));
    ActionRowsAre(index, user, note, KeptActions(p.actions));
    MentionRowsShape(user, note, Entities.NormalizeMentions(p.mentions).out);
    var a: int :| PeopleNotesFollow(people, rows.peopleNotes, a, PeopleNoteRows(index, user, note, KeptPeopleNotes(p.peopleNotes)));
    PeopleNotesOwned(people, rows.peopleNotes, a, PeopleNoteRows(index, user, note, KeptPeopleNotes(p.peopleNotes)), user);
    var b: int :| DecisionsFollow(people, rows.decisions, b, DecisionRows(index, user, note, KeptDecisions(p.decisions)));
    DecisionsOwned(people, rows.decisions, b, DecisionRows(index, user, note, KeptDecisions(p.decisions)), user);
    var c: int :| ActionsFollow(people, rows.actions, c, ActionRows(index, user, note, KeptActions(p.actions)));
    ActionsOwned(people, rows.actions, c, ActionRows(index, user, note, KeptActions(p.actions)), user);
  }

  lemma PeopleNotesOwned(people: map<int, Person>, m: map<int, PeopleNote>, a: int, rows: seq<PeopleNote>, user: int)
    requires PeopleNotesFollow(people, m, a, rows) && forall row :: row in rows ==> row.user == user
    ensures forall r :: r in m ==> m[r].user == user
  {
    hide LeadsTo, Recorded;
    forall r | r in m ensures m[r].user == user {
      assert rows[r - a] in rows;
    }
  }

  lemma DecisionsOwned(people: map<int, Person>, m: map<int, DecisionRow>, b: int, rows: seq<DecisionRow>, user: int)
    requires DecisionsFollow(people, m, b, rows) && forall row :: row in rows ==> row.user == user
    ensures forall r :: r in m ==> m[r].user == user
  {
    hide SameLink;
    forall r | r in m ensures m[r].user == user {
      assert rows[r - b] in rows;
    }
  }

  lemma ActionsOwned(people: map<int, Person>, m: map<int, Action>, c: int, rows: seq<Action>, user: int)
    requires ActionsFollow(people, m, c, rows) && forall row :: row in rows ==> row.user == user
    ensures forall r :: r in m ==> m[r].user == user
  {
    hide SameLink;
    forall r | r in m ensures m[r].user == user {
      assert rows[r - c] in rows;
    }
  }

  // ---- Invariant ----

  // A note's rows follow from its last committed save.
  ghost predicate FollowsLog(s: State, note: int) {
    match LastCommit(s.log, note)
    case None => RowsFor(s.db, note) == NO_ROWS
    case Some(c) =>
      && note in s.notes
      && Follows(RowsFor(s.db, note), s.db.people, c.index, s.notes[note].user, note, c.parsed)
      && s.notes[note].summary == Some(c.parsed.summary) && Some(s.notes[note].tags) == c.parsed.tags
  }

  ghost predicate AllFollow(s: State) {
    Inv(s.db) && forall note :: FollowsLog(s, note)
  }

  ghost predicate WholeInv(s: State) {
    NotesOk(s) && HoldersOk(s) && LogOk(s) && AllFollow(s)
  }

  // Rows of every note stay or move with the roots, and nothing is committed.
  lemma MovingKeepsFollow(s: State, s1: State, q: Merging.Pair)
    requires AllFollow(s) && Inv(s1.db) && s1.log == s.log
    requires forall id :: id in s.notes ==> id in s1.notes && s1.notes[id].user == s.notes[id].user
                                            && s1.notes[id].summary == s.notes[id].summary && s1.notes[id].tags == s.notes[id].tags
    requires forall note :: RowsMoved(q, RowsFor(s.db, note), RowsFor(s1.db, note))
    requires forall id, root :: LeadsTo(s.db.people, id, root) ==> LeadsTo(s1.db.people, id, Redirected(q, root))
    ensures AllFollow(s1)
  {
    hide Inv, RowsFor, RowsMoved, LeadsTo, Follows, Redirected;
    forall note ensures FollowsLog(s1, note) {
      assert FollowsLog(s, note);
      assert RowsMoved(q, RowsFor(s.db, note), RowsFor(s1.db, note));
      match LastCommit(s.log, note)
      case None => NoRowsMove(q, RowsFor(s1.db, note));
      case Some(c) =>
        FollowsMoves(q, RowsFor(s.db, note), RowsFor(s1.db, note), s.db.people, s1.db.people, c.index, s.notes[note].user, note,
                     c.parsed);
    }
  }

  // The same where no person was merged.
  lemma StandingKeepsFollow(s: State, s1: State)
    requires AllFollow(s) && Inv(s1.db) && s1.log == s.log && PointersStay(s.db.people, s1.db.people)
    requires forall id :: id in s.notes ==> id in s1.notes && s1.notes[id].user == s.notes[id].user
                                            && s1.notes[id].summary == s.notes[id].summary && s1.notes[id].tags == s.notes[id].tags
    requires forall note :: RowsMoved(STILL, RowsFor(s.db, note), RowsFor(s1.db, note))
    ensures AllFollow(s1)
  {
    RootsStay(s.db.people, s1.db.people);
    hide Inv, RowsFor, RowsMoved, LeadsTo, PointersStay, AllFollow;
    assert forall id :: Redirected(STILL, id) == id;
    MovingKeepsFollow(s, s1, STILL);
  }

  lemma StatusKeepsInv(t: Tables, user: int, action: int, open: bool)
    requires Inv(t)
    ensures Inv(WithStatus(t, user, action, open))
  {
    var t1 := WithStatus(t, user, action, open);
    IdentityIgnoresRecords(t, t1);
    hide IdentityInv, ActiveFor;
  }

  lemma SetStatusKeepsFollow(s: State, user: int, action: int, open: bool)
    requires AllFollow(s)
    ensures AllFollow(Do(s, SetStatus(user, action, open)))
  {
    hide Inv, RowsFor, RowsMoved, AllFollow, WithStatus;
    FollowHasInv(s);
    StatusKeepsInv(s.db, user, action, open);
    var s1 := Do(s, SetStatus(user, action, open));
    forall note ensures RowsMoved(STILL, RowsFor(s.db, note), RowsFor(s1.db, note)) {
      StatusMoves(s.db, user, action, open, note);
    }
    StatusTouchesActions(s.db, user, action, open);
    StandingKeepsFollow(s, s1);
  }

  lemma StatusTouchesActions(t: Tables, user: int, action: int, open: bool)
    ensures PointersStay(t.people, WithStatus(t, user, action, open).people)
  {
  }

  lemma EditKeepsFollow(s: State, user: int, id: int, request: Profiles.Request, now: Instant)
    requires AllFollow(s)
    ensures AllFollow(Do(s, Edit(user, id, request, now)))
  {
    hide Inv, RowsMoved, AllFollow, Profiles.UpdateProfile, PointersStay;
    FollowHasInv(s);
    Profiles.UpdateKeepsInv(s.db, user, id, request, now);
    EditTouches(s.db, user, id, request, now);
    var s1 := Do(s, Edit(user, id, request, now));
    forall note ensures RowsMoved(STILL, RowsFor(s.db, note), RowsFor(s1.db, note)) {
      RowsStandStill(RowsFor(s.db, note));
    }
    StandingKeepsFollow(s, s1);
  }

  lemma EditTouches(t: Tables, user: int, id: int, request: Profiles.Request, now: Instant)
    ensures var t1 := Profiles.UpdateProfile(t, user, id, request, now).0;
            && PointersStay(t.people, t1.people)
            && t1 == t.(people := t1.people, aliases := t1.aliases)
  {
    hide Profiles.Validate, Profiles.WriteProfile, NameTaken, Profiles.UpdateCheck;
    if Profiles.UpdateProfile(t, user, id, request, now).1.Updated? {
      Profiles.CheckedExists(t, user, id, Profiles.Validate(request).value);
      Profiles.UpdateTouches(t, user, id, Profiles.Validate(request).value, now);
    }
  }

  lemma MergeKeepsFollow(s: State, q: Merging.Pair, input: Merging.MergeInput, now: Instant)
    requires AllFollow(s)
    ensures AllFollow(Do(s, Merge(q, input, now)))
  {
    Merging.MergeKeepsInv(s.db, q, input, now);
    hide Inv, RowsMoved, RowsFor, Merging.MoveAll, Merging.MergeCheck, Merging.NameCollides, Merging.MergeCountsOf, LeadsTo, Joined,
      Merging.MergedAliases, Merging.PickName, Redirected, FollowsLog;
    if Merging.MergePeople(s.db, q, input, now).1.Merged? {
      Merging.CheckedIsMergeable(s.db, q, input);
      RecordsHold(s.db);
      var s1 := Do(s, Merge(q, input, now));
      forall note ensures RowsMoved(q, RowsFor(s.db, note), RowsFor(s1.db, note)) {
        MergeMovesRows(s.db, q, input, now, note);
      }
      MergeJoins(s.db, q, input, now);
      RootsJoin(s.db.people, s1.db.people, q);
      MovingKeepsFollow(s, s1, q);
    } else {
      Merging.UnsuccessfulMergeChangesNothing(s.db, q, input, now);
    }
  }

  lemma RecordsHold(t: Tables)
    requires Inv(t)
    ensures RecordsInv(t)
  {
  }

  lemma QuietStepKeepsFollow(s: State, step: Queue.Step)
    requires AllFollow(s) && NotesOk(s) && !Commits(s, step)
    ensures AllFollow(Next(s, step))
  {
    OtherStepsKeepRows(s, step);
    var s1 := Next(s, step);
    hide Inv, RowsMoved, Next, AllFollow, Commits;
    forall note ensures RowsMoved(STILL, RowsFor(s.db, note), RowsFor(s1.db, note)) {
      RowsStandStill(RowsFor(s.db, note));
    }
    assert Inv(s.db) by { FollowHasInv(s); }
    StandingKeepsFollow(s, s1);
  }

  lemma FollowHasInv(s: State)
    requires AllFollow(s)
    ensures Inv(s.db)
  {
    hide Inv, FollowsLog;
  }

  lemma SavedRowsOwned(s: State, note: int)
    requires AllFollow(s) && note in s.notes
    ensures RowsOwned(RowsFor(s.db, note), s.notes[note].user)
  {
    hide Inv, RowsFor, Follows;
    assert FollowsLog(s, note);
    match LastCommit(s.log, note)
    case None => NoRowsAreOwned(s.notes[note].user);
    case Some(c) => FollowingRowsOwned(RowsFor(s.db, note), s.db.people, c.index, s.notes[note].user, note, c.parsed);
  }

  lemma CommitKeepsFollow(s: State, step: Queue.Step)
    requires AllFollow(s) && Commits(s, step)
    ensures AllFollow(Next(s, step))
  {
    CommitEffect(s, step);
    var c, s1 := s.holders[step.holder], Next(s, step);
    FollowHasInv(s);
    SavedRowsOwned(s, c.note);
    hide Inv, RowsFor, SaveStructured, DeleteForNote, RowsOwned, Next, Commits, AllFollow, Derived, Follows;
    CommittedRows(s.db, c.user, c.note, step.parsed, step.now);
    RecordsHold(s1.db);
    FreshFollows(s1.db, c.user, c.note, step.parsed);
    SavingGrows(s.db, c.user, c.note, step.parsed, step.now);
    forall note ensures FollowsLog(s1, note) {
      NextLast(s.log, s1.log[|s.log|], note);
      if note != c.note {
        OtherStillFollows(s, s1, note);
      }
    }
    AllFollowing(s1);
  }

  lemma AllFollowing(s: State)
    requires Inv(s.db) && forall note :: FollowsLog(s, note)
    ensures AllFollow(s)
  {
    hide Inv, FollowsLog;
  }

  lemma OtherStillFollows(s: State, s1: State, note: int)
    requires AllFollow(s) && PointersStay(s.db.people, s1.db.people) && RowsFor(s1.db, note) == RowsFor(s.db, note)
    requires LastCommit(s1.log, note) == LastCommit(s.log, note)
    requires note in s.notes ==> note in s1.notes && s1.notes[note] == s.notes[note]
    ensures FollowsLog(s1, note)
  {
    assert FollowsLog(s, note);
    RootsStay(s.db.people, s1.db.people);
    RowsStandStill(RowsFor(s.db, note));
    hide Inv, RowsFor, RowsMoved, LeadsTo, PointersStay, AllFollow, Follows;
    assert forall id :: Redirected(STILL, id) == id;
    match LastCommit(s.log, note)
    case None =>
    case Some(c) =>
      FollowsMoves(STILL, RowsFor(s.db, note), RowsFor(s1.db, note), s.db.people, s1.db.people, c.index, s.notes[note].user, note,
                   c.parsed);
  }

  lemma SavingGrows(db: Tables, user: int, note: int, p: Parsed, now: Instant)
    requires Inv(db) && SaveStructured(DeleteForNote(db, user, note), user, note, p, now).Some?
    ensures PointersStay(db.people, SaveStructured(DeleteForNote(db, user, note), user, note, p, now).value.people)
  {
    hide Inv, SaveStructured;
    DeleteKeepsInv(db, user, note);
    SaveStructuredKeepsInv(DeleteForNote(db, user, note), user, note, p, now);
  }

  lemma EventKeepsInv(s: State, e: Event)
    requires WholeInv(s) && Allowed(s, e)
    ensures WholeInv(Do(s, e))
  {
    hide AllFollow, LogOk, HoldersOk, NotesOk, AllEvolve, Next, Commits, Merging.MergePeople, Profiles.UpdateProfile, WithStatus;
    match e
    case Enrich(step) =>
      NotesStayOk(s, step);
      HoldersStayOk(s, step);
      NotesBelow(s);
      StepEvolves(s, step);
      LogStep(s, step);
      if Commits(s, step) {
        CommitKeepsFollow(s, step);
      } else {
        QuietStepKeepsFollow(s, step);
      }
    case Merge(pair, input, now) =>
      SameQueue(s, Do(s, e));
      MergeKeepsFollow(s, pair, input, now);
    case Edit(user, id, request, now) =>
      SameQueue(s, Do(s, e));
      EditKeepsFollow(s, user, id, request, now);
    case SetStatus(user, action, open) =>
      SameQueue(s, Do(s, e));
      SetStatusKeepsFollow(s, user, action, open);
  }

  lemma SameQueue(s: State, s1: State)
    requires NotesOk(s) && HoldersOk(s) && LogOk(s) && s1 == s.(db := s1.db)
    ensures NotesOk(s1) && HoldersOk(s1) && LogOk(s1)
  {
  }

  lemma {:induction false} RunKeepsWholeInv(s: State, events: seq<Event>)
    requires WholeInv(s) && AllAllowed(s, events)
    ensures WholeInv(RunAll(s, events))
  {
    if events != [] {
      hide WholeInv, Do, Allowed;
      RunKeepsWholeInv(s, events[..|events| - 1]);
      EventKeepsInv(RunAll(s, events[..|events| - 1]), events[|events| - 1]);
    }
  }

  lemma InitIsWhole(cfg: Config, clock: Instant)
    ensures WholeInv(Init(cfg, clock))
  {
    assert Inv(EMPTY);
    hide Inv;
  }

  // ---- Main result ----

  // However claims, saves, failures, merges, edits of persons and done marks interleave, a note's
  // records are those of its last committed save, and none if it has none: the same decisions,
  // actions and mentions, with every link led to the active person at the end of its merge chain
  // and nothing of an action changed but its status, and the same facts about people, of which
  // only duplicates about one person are gone. StillTells says so column by column.
  lemma RecordsFollowLastSave(cfg: Config, clock: Instant, events: seq<Event>, note: int)
    requires AllAllowed(Init(cfg, clock), events)
    ensures var s := RunAll(Init(cfg, clock), events);
            && Inv(s.db)
            && match LastCommit(s.log, note)
               case None => RowsFor(s.db, note) == NO_ROWS
               case Some(c) =>
                 && note in s.notes && c in s.log && c.note == note
                 && Follows(RowsFor(s.db, note), s.db.people, c.index, s.notes[note].user, note, c.parsed)
                 && StillTells(RowsFor(s.db, note), s.db.people, c.index, s.notes[note].user, note, c.parsed)
                 && s.notes[note].summary == Some(c.parsed.summary) && Some(s.notes[note].tags) == c.parsed.tags
  {
    InitIsWhole(cfg, clock);
    RunKeepsWholeInv(Init(cfg, clock), events);
    var s := RunAll(Init(cfg, clock), events);
    hide Inv, RowsFor, Follows, StillTells, RunAll, NotesOk, HoldersOk, LogOk;
    assert FollowsLog(s, note);
    LastCommitIsLogged(s.log, note);
    match LastCommit(s.log, note)
    case None =>
    case Some(c) => FollowingTells(RowsFor(s.db, note), s.db.people, c.index, s.notes[note].user, note, c.parsed);
  }

  // ---- The same, told from the parsed note ----

  // A blank name is linked to nobody, and any other to the person that its person has become.
  ghost predicate LedTo(people: map<int, Person>, index: map<AliasKey, Alias>, user: int, name: string, link: Option<int>) {
    if Blank(name) then link.None?
    else
      && (user, NormalizePersonName(name)) in index && link.Some?
      && LeadsTo(people, index[(user, NormalizePersonName(name))].person, link.value)
  }

  ghost function DecisionStillFits(people: map<int, Person>, index: map<AliasKey, Alias>, user: int,
                                   note: int): (Entities.Decision, DecisionRow) -> bool {
    (d: Entities.Decision, row: DecisionRow) => DecisionSays(user, note, d, row) && LedTo(people, index, user, d.linkedPerson, row.person)
  }

  // Its status may have changed.
  ghost function ActionStillFits(people: map<int, Person>, index: map<AliasKey, Alias>, user: int,
                                 note: int): (ParsedAction, Action) -> bool {
    (a: ParsedAction, row: Action) => ActionSays(user, note, a, row) && LedTo(people, index, user, a.linked, row.person)
  }

  ghost predicate NoteStillFits(people: map<int, Person>, index: map<AliasKey, Alias>, user: int, note: int, pn: ParsedPeopleNote,
                                row: PeopleNote) {
    NamesSomeone(pn) && PeopleNoteSays(user, note, pn, row) && LedTo(people, index, user, pn.person, Some(row.person))
  }

  // The row holds the item's fact, if not its review flag.
  ghost predicate FactStillFits(people: map<int, Person>, index: map<AliasKey, Alias>, user: int, note: int, pn: ParsedPeopleNote,
                                row: PeopleNote) {
    NoteStillFits(people, index, user, note, pn.(review := row.review), row)
  }

  ghost predicate NotesStillTell(m: map<int, PeopleNote>, people: map<int, Person>, index: map<AliasKey, Alias>, user: int, note: int,
                                 items: seq<ParsedPeopleNote>) {
    && (forall r :: r in m ==> exists i :: 0 <= i < |items| && NoteStillFits(people, index, user, note, items[i], m[r]))
    && (forall i :: 0 <= i < |items| && NamesSomeone(items[i]) ==>
          exists r :: r in m && FactStillFits(people, index, user, note, items[i], m[r]))
  }

  // The rows still say what the parsed note says, column by column, of the persons that those named
  // have become.
  ghost predicate StillTells(rows: NoteRows, people: map<int, Person>, index: map<AliasKey, Alias>, user: int, note: int, p: Parsed) {
    && NotesStillTell(rows.peopleNotes, people, index, user, note, p.peopleNotes)
    && RowPerItem(rows.decisions, p.decisions, Decides, DecisionStillFits(people, index, user, note))
    && RowPerItem(rows.actions, p.actions, HasTitle, ActionStillFits(people, index, user, note))
    && MentionsTell(rows.mentions, user, note, p.mentions)
  }

  lemma LinkLed(people: map<int, Person>, index: map<AliasKey, Alias>, user: int, name: string, was: Option<int>, now: Option<int>)
    requires LinkedTo(index, user, name, was) && SameLink(people, was, now)
    ensures LedTo(people, index, user, name, now)
  {
    hide Blank, NormalizePersonName, LeadsTo;
  }

  lemma DecisionsStillTell(people: map<int, Person>, index: map<AliasKey, Alias>, user: int, note: int, ds: seq<Entities.Decision>,
                           m: map<int, DecisionRow>, b: int, at: seq<nat>, rows: seq<DecisionRow>)
    requires DecisionsFollow(people, m, b, rows) && Picks(ds, Decides, DecisionFits(index, user, note), at, rows)
    ensures RowPerItem(m, ds, Decides, DecisionStillFits(people, index, user, note))
  {
    hide Places, Blank, LinkedTo, SameLink, LedTo, Cut, NormalizeSpace, Decides;
    forall j | 0 <= j < |at|
      ensures at[j] < |ds| && b + j in m && DecisionStillFits(people, index, user, note)(ds[at[j]], m[b + j])
    {
      var row := m[b + j];
      assert DecisionFits(index, user, note)(ds[at[j]], rows[j]) && DecisionFollows(people, rows[b + j - b], row);
      LinkLed(people, index, user, ds[at[j]].linkedPerson, rows[j].person, row.person);
    }
    assert Tabulates(m, ds, DecisionStillFits(people, index, user, note), b, at);
  }

  lemma ActionsStillTell(people: map<int, Person>, index: map<AliasKey, Alias>, user: int, note: int, items: seq<ParsedAction>,
                         m: map<int, Action>, c: int, at: seq<nat>, rows: seq<Action>)
    requires ActionsFollow(people, m, c, rows) && Picks(items, HasTitle, ActionFits(index, user, note), at, rows)
    ensures RowPerItem(m, items, HasTitle, ActionStillFits(people, index, user, note))
  {
    hide Places, Blank, LinkedTo, SameLink, LedTo, TrimSpace, HasTitle;
    forall j | 0 <= j < |at|
      ensures at[j] < |items| && c + j in m && ActionStillFits(people, index, user, note)(items[at[j]], m[c + j])
    {
      var row := m[c + j];
      assert ActionFits(index, user, note)(items[at[j]], rows[j]) && ActionFollows(people, rows[c + j - c], row);
      LinkLed(people, index, user, items[at[j]].linked, rows[j].person, row.person);
    }
    assert Tabulates(m, items, ActionStillFits(people, index, user, note), c, at);
  }

  lemma PeopleNotesStillTell(people: map<int, Person>, index: map<AliasKey, Alias>, user: int, note: int, items: seq<ParsedPeopleNote>,
                             m: map<int, PeopleNote>, a: int, at: seq<nat>, rows: seq<PeopleNote>)
    requires PeopleNotesFollow(people, m, a, rows) && Picks(items, NamesSomeone, PeopleNoteFits(index, user, note), at, rows)
    ensures NotesStillTell(m, people, index, user, note, items)
  {
    hide Blank, LinkedTo, LedTo, LeadsTo, Recorded, PeopleNoteFollows, FactFollows, NoteStillFits, FactStillFits;
    forall r | r in m ensures exists i :: 0 <= i < |items| && NoteStillFits(people, index, user, note, items[i], m[r]) {
      var j := r - a;
      assert PeopleNoteFits(index, user, note)(items[at[j]], rows[j]) && NamesSomeone(items[at[j]]);
      NoteRowStillFits(people, index, user, note, items[at[j]], rows[j], m[r]);
    }
    forall i | 0 <= i < |items| && NamesSomeone(items[i])
      ensures exists r :: r in m && FactStillFits(people, index, user, note, items[i], m[r])
    {
      var j :| 0 <= j < |at| && at[j] == i;
      assert Recorded(people, m, rows[j]);
      FactRowStillFits(people, index, user, note, items[i], rows[j], m);
    }
  }

  lemma NoteRowStillFits(people: map<int, Person>, index: map<AliasKey, Alias>, user: int, note: int, pn: ParsedPeopleNote,
                         was: PeopleNote, now: PeopleNote)
    requires NamesSomeone(pn) && PeopleNoteFits(index, user, note)(pn, was) && PeopleNoteFollows(people, was, now)
    ensures NoteStillFits(people, index, user, note, pn, now)
  {
    hide LeadsTo, NormalizePersonName;
  }

  lemma FactRowStillFits(people: map<int, Person>, index: map<AliasKey, Alias>, user: int, note: int, pn: ParsedPeopleNote,
                         was: PeopleNote, m: map<int, PeopleNote>)
    requires NamesSomeone(pn) && PeopleNoteFits(index, user, note)(pn, was) && Recorded(people, m, was)
    ensures exists r :: r in m && FactStillFits(people, index, user, note, pn, m[r])
  {
    hide LeadsTo, NormalizePersonName;
    var r :| r in m && FactFollows(people, was, m[r]);
    assert FactStillFits(people, index, user, note, pn, m[r]);
  }

  lemma FollowingTells(rows: NoteRows, people: map<int, Person>, index: map<AliasKey, Alias>, user: int, note: int, p: Parsed)
    requires Follows(rows, people, index, user, note, p)
    ensures StillTells(rows, people, index, user, note, p)
  {
    hide PeopleNoteRows, DecisionRows, ActionRows, MentionRows, PeopleNotesFollow, DecisionsFollow, ActionsFollow, AllLead, NamesOf,
      KeptPeopleNotes, KeptDecisions, KeptActions, Picks, RowPerItem, NotesStillTell, MentionsTell, Entities.NormalizeMentions;
    NamesSplit(index, user, p);
    var at := PeopleNoteRowsFit(index, user, note, p.peopleNotes);
    var pns := PeopleNoteRows(index, user, note, KeptPeopleNotes(p.peopleNotes));
    var a: int :| PeopleNotesFollow(people, rows.peopleNotes, a, pns);
    PeopleNotesStillTell(people, index, user, note, p.peopleNotes, rows.peopleNotes, a, at, pns);
    at := DecisionRowsFit(index, user, note, p.decisions);
    var ds := DecisionRows(index, user, note, KeptDecisions(p.decisions));
    var b: int :| DecisionsFollow(people, rows.decisions, b, ds);
    DecisionsStillTell(people, index, user, note, p.decisions, rows.decisions, b, at, ds);
    at := ActionRowsFit(index, user, note, p.actions);
    var acts := ActionRows(index, user, note, KeptActions(p.actions));
    var c: int :| ActionsFollow(people, rows.actions, c, acts);
    ActionsStillTell(people, index, user, note, p.actions, rows.actions, c, at, acts);
    MentionsAreTold(user, note, p.mentions);
  }

  // The persons that the rows point at are active, so each link has reached the end of its chain.
  lemma RootIsUnique(people: map<int, Person>, id: int, a: int, b: int)
    requires LeadsTo(people, id, a) && LeadsTo(people, id, b)
    ensures a == b && Active(people, a) && id in people && people[a].user == people[id].user
  {
    var d: nat :| AtDepth(people, id, d) && Up(people, id, d) == a;
    var e: nat :| AtDepth(people, id, e) && Up(people, id, e) == b;
    DepthIsUnique(people, id, d, e);
    RootIsAtTheTop(people, id, d);
  }
}
