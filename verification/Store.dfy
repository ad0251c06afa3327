// The store of internal/adapters/store/store.go: the tables as fields, and each transaction as a
// method that changes them in place. Every method is proved against the function that the
// protocol modules reason about.
module Stores {
  import opened Options
  import opened Text
  import opened Names
  import opened Sets
  import opened Ordering
  import opened People
  import opened Records
  import Entities
  import Profiles
  import Merging
  import Queue
  import Inbox

  // What ClaimNextNotesForEnrichment returns for one note.
  datatype NoteClaim = NoteClaim(note: int, user: int, raw: string, status: Queue.Status, startedAt: Instant, attempts: nat)

  function ClaimOf(id: int, n: Queue.Note): NoteClaim
    requires n.startedAt.Some?
  {
    NoteClaim(id, n.user, n.raw, n.status, n.startedAt.value, n.attempts)
  }

  // ORDER BY and LIMIT of the candidate query.
  method FirstRows(candidates: set<(Instant, int)>, limit: nat) returns (rows: seq<(Instant, int)>)
    requires StrictTotal(Queue.Sooner)
    ensures rows == TopRows(candidates, Queue.Sooner, limit)
  {
    hide Queue.Sooner, StrictTotal, Listing, IsFirst;
    var left := candidates;
    rows := [];
    while |rows| < limit && left != {}
      invariant |rows| <= limit && Listing(candidates, Queue.Sooner) == rows + Listing(left, Queue.Sooner)
      decreases |left|
    {
      SomeFirst(left);
      var row :| row in left && forall other :: other in left && other != row ==> Queue.Sooner(row, other);
      FirstIsNext(left, row);
      rows := rows + [row];
      left := left - {row};
    }
    NothingListed();
  }

  lemma SomeFirst(left: set<(Instant, int)>)
    requires StrictTotal(Queue.Sooner) && left != {}
    ensures exists row :: row in left && forall other :: other in left && other != row ==> Queue.Sooner(row, other)
  {
    hide Queue.Sooner;
    HasFirst(left, Queue.Sooner);
  }

  lemma FirstIsNext(left: set<(Instant, int)>, row: (Instant, int))
    requires StrictTotal(Queue.Sooner) && row in left
    requires forall other :: other in left && other != row ==> Queue.Sooner(row, other)
    ensures Listing(left, Queue.Sooner) == [row] + Listing(left - {row}, Queue.Sooner)
  {
    assert row == First(left, Queue.Sooner);
  }

  lemma NothingListed()
    requires StrictTotal(Queue.Sooner)
    ensures Listing({}, Queue.Sooner) == []
  {
  }

  class Store {
    var people: map<int, Person>
    var aliases: map<AliasKey, Alias>
    var peopleNotes: map<int, PeopleNote>
    var actions: map<int, Action>
    var decisions: map<int, DecisionRow>
    var mentions: map<MentionKey, MentionRow>
    var nextPerson: int
    var nextPeopleNote: int
    var nextAction: int
    var nextDecision: int
    var notes: map<int, Queue.Note>
    var nextNote: int
    var updates: map<Inbox.Ident, Inbox.Row>

    constructor ()
      ensures View() == EMPTY && notes == map[] && nextNote == 1 && updates == map[]
    {
      people, aliases, peopleNotes, actions, decisions, mentions := map[], map[], map[], map[], map[], map[];
      nextPerson, nextPeopleNote, nextAction, nextDecision := 1, 1, 1, 1;
      notes, nextNote, updates := map[], 1, map[];
    }

    function View(): Tables
      reads this
    {
      Tables(people, aliases, peopleNotes, actions, decisions, mentions, nextPerson, nextPeopleNote, nextAction, nextDecision)
    }

    // Puts back the tables as they were when the transaction began.
    method Rollback(t: Tables)
      modifies `people, `aliases, `peopleNotes, `actions, `decisions, `mentions
      modifies `nextPerson, `nextPeopleNote, `nextAction, `nextDecision
      ensures View() == t
    {
      people, aliases, peopleNotes, actions, decisions, mentions :=
        t.people, t.aliases, t.peopleNotes, t.actions, t.decisions, t.mentions;
      nextPerson, nextPeopleNote, nextAction, nextDecision := t.nextPerson, t.nextPeopleNote, t.nextAction, t.nextDecision;
    }

    // ---- Persons ----

    method InsertPersonAlias(user: int, person: int, alias: string, norm: string) returns (owner: int)
      modifies `aliases
      ensures (View(), owner) == InsertAlias(old(View()), user, person, alias, norm)
    {
      if (user, norm) !in aliases {
        aliases := aliases[(user, norm) := Alias(person, alias)];
      }
      owner := aliases[(user, norm)].person;
    }

    method UpsertPerson(user: int, rawName: string, now: Instant) returns (id: Option<int>)
      modifies `people, `aliases, `nextPerson
      ensures (View(), id) == Upsert(old(View()), user, rawName, now)
      ensures Inv(old(View())) ==> Inv(View())
    {
      hide NormalizePersonName, TrimSpace, AliasChain, InsertAlias, Inv, Storable, NameTaken, ActiveNamed;
      if Inv(View()) {
        UpsertKeepsInv(View(), user, rawName, now);
      }
      var name := TrimSpace(rawName);
      var norm := NormalizePersonName(name);
      if norm == "" || !Storable(norm) {
        return None;
      }
      var chain := AliasChain(View(), user, norm);
      if chain.Some? {
        return Some(chain.value.id);
      }
      if !Storable(name) {
        return None;
      }
      var named := ActiveNamed(View(), user, norm);
      if named != {} {
        var owner := InsertPersonAlias(user, Least(named), name, norm);
        return Some(owner);
      }
      if NameTaken(people, user, name, {}) {
        return None;
      }
      var added := nextPerson;
      people := people[added := Person(user, name, norm, NO_PROFILE, now, None)];
      nextPerson := nextPerson + 1;
      var owner := InsertPersonAlias(user, added, name, norm);
      if owner != added {
        people := people - {added};
      }
      return Some(owner);
    }

    // ---- Saving a parsed note ----

    // The person id for a linked name; ok is false on an error.
    method LinkPerson(user: int, name: string, ids: map<string, int>, now: Instant) returns (ok: bool, pid: Option<int>)
      modifies `people, `aliases, `nextPerson
      ensures match Link(old(View()), ids, user, name, now)
              case None => !ok
              case Some((t1, linked)) => ok && View() == t1 && pid == linked
    {
      hide NormalizePersonName, Upsert, Inv;
      pid := None;
      if name != "" {
        var key := NormalizePersonName(name);
        if key in ids {
          pid := Some(ids[key]);
        } else {
          pid := UpsertPerson(user, name, now);
          return pid.Some?, pid;
        }
      }
      ok := true;
    }

    method SaveNotesAboutPeople(user: int, note: int, items: seq<ParsedPeopleNote>, now: Instant)
      returns (ok: bool, personIDs: map<string, int>)
      modifies `people, `aliases, `nextPerson, `peopleNotes, `nextPeopleNote
      ensures match SavePeopleNotes(old(View()), user, note, items, now)
              case None => !ok
              case Some(s) => ok && View() == s.t && personIDs == s.ids
    {
      hide NormalizePersonName, TrimSpace, Upsert, PeopleNoteStorable, ToPeopleNote, Inv;
      ghost var t0 := View();
      personIDs := map[];
      for i := 0 to |items|
        invariant SavePeopleNotes(t0, user, note, items[..i], now) == Some(Progress(View(), personIDs))
      {
        assert items[..i + 1][..i] == items[..i];
        var pn := items[i];
        var name := TrimSpace(pn.person);
        if name == "" {
          continue;
        }
        var pid := UpsertPerson(user, name, now);
        if pid == None || !PeopleNoteStorable(pn) {
          PeopleNotesFail(t0, user, note, items, i + 1, now);
          return false, map[];
        }
        personIDs := personIDs[NormalizePersonName(name) := pid.value];
        peopleNotes := peopleNotes[nextPeopleNote := ToPeopleNote(user, note)(pn, pid)];
        nextPeopleNote := nextPeopleNote + 1;
      }
      assert items[..|items|] == items;
      ok := true;
    }

    method SaveNoteDecisions(user: int, note: int, ds: seq<Entities.Decision>, personIDs: map<string, int>,
                            now: Instant)
      returns (ok: bool)
      modifies `people, `aliases, `nextPerson, `decisions, `nextDecision
      ensures match SaveDecisions(old(View()), personIDs, user, note, ds, now)
              case None => !ok
              case Some(t1) => ok && View() == t1
    {
      hide Link, Entities.NormalizeDecision, DecisionStorable, ToDecisionRow;
      ghost var t0 := View();
      for i := 0 to |ds|
        invariant SaveDecisions(t0, personIDs, user, note, ds[..i], now) == Some(View())
      {
        assert ds[..i + 1][..i] == ds[..i];
        var d := Entities.NormalizeDecision(ds[i]);
        if d == None {
          continue;
        }
        var linked, pid := LinkPerson(user, d.value.linkedPerson, personIDs, now);
        if !linked || !DecisionStorable(d.value) {
          DecisionsFail(t0, personIDs, user, note, ds, i + 1, now);
          return false;
        }
        decisions := decisions[nextDecision := ToDecisionRow(user, note)(d.value, pid)];
        nextDecision := nextDecision + 1;
      }
      assert ds[..|ds|] == ds;
      ok := true;
    }

    method SaveNoteMentions(user: int, note: int, ms: seq<Entities.Mention>) returns (ok: bool)
      modifies `mentions
      ensures match SaveMentions(old(View()), user, note, Entities.NormalizeMentions(ms).out)
              case None => !ok
              case Some(t1) => ok && View() == t1
    {
      hide Entities.NormalizeMentions, MentionStorable, ToMentionRow;
      ghost var t0 := View();
      var rs, _ := Entities.NormalizeEntityMentionsForNote(ms);
      for i := 0 to |rs|
        invariant SaveMentions(t0, user, note, rs[..i]) == Some(View())
      {
        assert rs[..i + 1][..i] == rs[..i];
        if !MentionStorable(rs[i]) {
          MentionsFail(t0, user, note, rs, i + 1);
          return false;
        }
        var k := MentionKey(note, rs[i].typ, rs[i].normalized);
        var owner := if k in mentions then mentions[k].user else user;
        mentions := mentions[k := ToMentionRow(owner, rs[i])];
      }
      assert rs[..|rs|] == rs;
      ok := true;
    }

    method SaveNoteActions(user: int, note: int, items: seq<ParsedAction>, personIDs: map<string, int>, now: Instant)
      returns (ok: bool)
      modifies `people, `aliases, `nextPerson, `actions, `nextAction
      ensures match SaveActions(old(View()), personIDs, user, note, items, now)
              case None => !ok
              case Some(t1) => ok && View() == t1
    {
      hide Link, TrimSpace, ActionStorable, ToAction;
      ghost var t0 := View();
      for i := 0 to |items|
        invariant SaveActions(t0, personIDs, user, note, items[..i], now) == Some(View())
      {
        assert items[..i + 1][..i] == items[..i];
        if TrimSpace(items[i].title) == "" {
          continue;
        }
        var linked, pid := LinkPerson(user, items[i].linked, personIDs, now);
        if !linked || !ActionStorable(items[i]) {
          ActionsFail(t0, personIDs, user, note, items, i + 1, now);
          return false;
        }
        actions := actions[nextAction := ToAction(user, note)(items[i], pid)];
        nextAction := nextAction + 1;
      }
      assert items[..|items|] == items;
      ok := true;
    }

    method SaveStructuredRecordsForNote(user: int, note: int, p: Parsed, now: Instant) returns (ok: bool)
      modifies `people, `aliases, `nextPerson, `peopleNotes, `nextPeopleNote, `decisions, `nextDecision
      modifies `mentions, `actions, `nextAction
      ensures match SaveStructured(old(View()), user, note, p, now)
              case None => !ok
              case Some(t1) => ok && View() == t1
    {
      hide SavePeopleNotes, SaveDecisions, SaveMentions, SaveActions, Entities.NormalizeMentions;
      var saved, personIDs := SaveNotesAboutPeople(user, note, p.peopleNotes, now);
      if !saved {
        return false;
      }
      saved := SaveNoteDecisions(user, note, p.decisions, personIDs, now);
      if !saved {
        return false;
      }
      saved := SaveNoteMentions(user, note, p.mentions);
      if !saved {
        return false;
      }
      ok := SaveNoteActions(user, note, p.actions, personIDs, now);
    }

    // Deletes and inserts before it looks at its claim, and rolls back: exactly the save that
    // checks first.
    method SaveNoteEnrichmentResult(user: int, note: int, startedAt: Instant, p: Parsed,
                            now: Instant) returns (ok: bool)
      modifies `people, `aliases, `nextPerson, `peopleNotes, `nextPeopleNote, `decisions, `nextDecision
      modifies `mentions, `actions, `nextAction, `notes
      ensures match Queue.SaveResult(old(notes), old(View()), user, note, startedAt, p, now)
              case None => !ok && notes == old(notes) && View() == old(View())
              case Some((notes1, t1)) => ok && notes == notes1 && View() == t1
      ensures Inv(old(View())) ==> Inv(View())
    {
      if Inv(View()) {
        SavingKeepsInv(View(), user, note, p, now);
      }
      hide SaveStructured, Inv;
      var begin := View();
      actions := DeleteActions(actions, user, note);
      peopleNotes := DeletePeopleNotes(peopleNotes, user, note);
      decisions := DeleteDecisions(decisions, user, note);
      mentions := DeleteMentions(mentions, user, note);
      assert View() == DeleteForNote(begin, user, note);
      var saved := SaveStructuredRecordsForNote(user, note, p, now);
      if !saved {
        Rollback(begin);
        return false;
      }
      if !Queue.SummaryStorable(p) || !Queue.ClaimActive(notes, user, note, startedAt) {
        Rollback(begin);
        return false;
      }
      notes := notes[note := Queue.Summarized(notes[note], p)];
      ok := true;
    }

    // ---- Editing and merging persons ----

    method ListAliases(listed: seq<string>) returns (aliasMap: map<string, string>)
      ensures aliasMap == Profiles.ListedAliases(listed)
    {
      hide NormalizePersonName;
      aliasMap := map[];
      for i := 0 to |listed|
        invariant aliasMap == Profiles.ListedAliases(listed[..i])
      {
        assert listed[..i + 1][..i] == listed[..i];
        aliasMap := aliasMap[NormalizePersonName(listed[i]) := listed[i]];
      }
      assert listed[..|listed|] == listed;
    }

    // Reads the alias rows of the owners in any order, each key once.
    method ReadAliases(user: int, owners: set<int>) returns (aliasMap: map<string, string>)
      ensures forall n :: n in aliasMap <==> OwnedBy(View(), user, owners, (user, n))
      ensures forall n :: n in aliasMap ==> (user, n) in aliases && aliasMap[n] == aliases[(user, n)].alias
    {
      aliasMap := map[];
      var rows := set k | k in aliases && OwnedBy(View(), user, owners, k);
      while rows != {}
        invariant forall k :: k in rows ==> OwnedBy(View(), user, owners, k)
        invariant forall n :: n in aliasMap <==> OwnedBy(View(), user, owners, (user, n)) && (user, n) !in rows
        invariant forall n :: n in aliasMap ==> aliasMap[n] == aliases[(user, n)].alias
        decreases |rows|
      {
        var k :| k in rows;
        aliasMap := aliasMap[k.1 := aliases[k].alias];
        rows := rows - {k};
      }
    }

    // Looks for an active person outside allowed that owns one of the names.
    method FindConflict(user: int, norms: set<string>, allowed: set<int>) returns (found: bool)
      ensures found <==> AliasConflict(View(), user, norms, allowed)
    {
      hide Owners;
      var todo := norms;
      while todo != {}
        invariant todo <= norms
        invariant forall n :: n in norms && n !in todo ==> Owners(View(), user, n) - allowed == {}
        decreases |todo|
      {
        var n :| n in todo;
        if Owners(View(), user, n) - allowed != {} {
          return true;
        }
        todo := todo - {n};
      }
      found := false;
    }

    method BuildAliasMap(user: int, id: int, r: Profiles.Request, newName: string, newNorm: string)
      returns (aliasMap: map<string, string>)
      requires id in people && newName == Profiles.NewName(people[id], r) && newNorm == Profiles.NewNorm(people[id], r)
      ensures aliasMap == Profiles.AliasMap(View(), user, id, r)
    {
      hide NormalizePersonName, OwnedNorms, Profiles.ListedAliases;
      if r.aliases.Some? {
        aliasMap := ListAliases(r.aliases.value);
      } else {
        aliasMap := ReadAliases(user, {id});
        OwnedNormsAre(View(), user, {id});
        assert aliasMap == Profiles.StoredAliases(View(), user, id);
      }
      aliasMap := aliasMap[newNorm := newName];
      var oldNorm := NormalizePersonName(people[id].name);
      if oldNorm != "" {
        aliasMap := aliasMap[oldNorm := people[id].name];
      }
      aliasMap := aliasMap - {""};
    }

    method UpdatePersonProfile(user: int, id: int, r: Profiles.Request,
                            now: Instant) returns (outcome: Profiles.UpdateOutcome)
      modifies `people, `aliases
      ensures (View(), outcome) == Profiles.StoreUpdate(old(View()), user, id, r, now)
    {
      hide NormalizePersonName, Profiles.AliasMap, Profiles.ReplaceAliases, AliasConflict, ActiveNamed, Profiles.ApplyProfile,
        NameTaken;
      if !ActiveFor(people, user, id) {
        return Profiles.Rejected(Profiles.NoSuchPerson);
      }
      var cur := people[id];
      if r.expected.Some? && cur.updated != r.expected.value {
        return Profiles.Rejected(Profiles.UpdateConflict);
      }
      var newName, newNorm := cur.name, cur.norm;
      if r.displayName.Set? && r.displayName.value.Some? {
        newName := r.displayName.value.value;
        newNorm := NormalizePersonName(newName);
      }
      var aliasMap := BuildAliasMap(user, id, r, newName, newNorm);
      if ActiveNamed(View(), user, newNorm) - {id} != {} {
        return Profiles.Rejected(Profiles.IdentityConflict);
      }
      var conflict := FindConflict(user, aliasMap.Keys, {id});
      if conflict {
        return Profiles.Rejected(Profiles.IdentityConflict);
      }
      if NameTaken(people, user, newName, {id}) {
        return Profiles.Rejected(Profiles.DatabaseError);
      }
      people := people[id := cur.(name := newName, norm := newNorm, profile := Profiles.ApplyProfile(cur.profile, r),
                                  updated := now)];
      if r.aliases.Some? || r.displayName.Set? {
        ReplaceAliasRows(user, id, aliasMap, aliasMap.Keys + {newNorm}, old(View()));
      }
      outcome := Profiles.Updated;
    }

    // Writes one alias row after the other over those there.
    method WriteAliases(user: int, id: int, aliasMap: map<string, string>)
      modifies `aliases
      ensures aliases == old(aliases) + AliasRows(user, id, aliasMap)
    {
      hide AliasRows;
      var todo := aliasMap.Keys;
      while todo != {}
        invariant todo <= aliasMap.Keys
        invariant forall k :: k in aliases <==> k in old(aliases) || (k.0 == user && k.1 in aliasMap && k.1 !in todo)
        invariant forall k :: k in aliases ==>
                    aliases[k] == if k.0 == user && k.1 in aliasMap && k.1 !in todo
                                  then Alias(id, aliasMap[k.1]) else old(aliases)[k]
        decreases |todo|
      {
        var n :| n in todo;
        aliases := aliases[(user, n) := Alias(id, aliasMap[n])];
        todo := todo - {n};
      }
    }

    // Deletes the person's other alias rows, then writes the listed ones.
    method ReplaceAliasRows(user: int, id: int, aliasMap: map<string, string>, norms: set<string>, ghost t: Tables)
      requires t.aliases == aliases
      modifies `aliases
      ensures aliases == Profiles.ReplaceAliases(t, user, id, aliasMap, norms)
    {
      aliases := map k | k in aliases && !(OwnedBy(View(), user, {id}, k) && k.1 !in norms) :: aliases[k];
      assert aliases == map k | k in t.aliases && !(OwnedBy(t, user, {id}, k) && k.1 !in norms) :: t.aliases[k];
      WriteAliases(user, id, aliasMap);
    }

    method CollectMergeAliases(q: Merging.Pair, newName: string) returns (aliasMap: map<string, string>)
      requires q.primary in people && q.source in people
      ensures aliasMap == Merging.MergedAliases(View(), q, newName)
    {
      hide NormalizePersonName, TrimSpace, OwnedNorms, Merging.AddAlias;
      var owners := {q.primary, q.source};
      aliasMap := Merging.AddAlias(map[], people[q.primary].name);
      aliasMap := Merging.AddAlias(aliasMap, people[q.source].name);
      var named := aliasMap;
      var rows := set k | k in aliases && OwnedBy(View(), q.user, owners, k);
      OwnedNormsAre(View(), q.user, owners);
      while rows != {}
        invariant forall k :: k in rows ==> OwnedBy(View(), q.user, owners, k)
        invariant forall n :: n in aliasMap <==>
                    n in named || (n != "" && OwnedBy(View(), q.user, owners, (q.user, n)) && (q.user, n) !in rows)
        invariant forall n :: n in aliasMap ==>
                    aliasMap[n] == if n in named then named[n] else aliases[(q.user, n)].alias
        decreases |rows|
      {
        var k :| k in rows;
        if k.1 != "" && k.1 !in aliasMap {
          aliasMap := aliasMap[k.1 := aliases[k].alias];
        }
        rows := rows - {k};
      }
      assert aliasMap == Merging.AddRows(named, View(), q.user, owners);
      aliasMap := Merging.AddAlias(aliasMap, newName);
    }

    // Deletes the source's duplicate facts and hands the others to the primary.
    method MoveFacts(q: Merging.Pair) returns (deduplicated: nat, reassigned: nat)
      modifies `peopleNotes
      ensures peopleNotes == Merging.MovePeopleNotes(old(View()), q)
      ensures deduplicated == |Merging.Duplicates(old(View()), q)|
      ensures reassigned == |Merging.SourceNotes(old(View()), q) - Merging.Duplicates(old(View()), q)|
    {
      hide Merging.IsDuplicate, Merging.MovePeopleNotes;
      ghost var t := View();
      deduplicated := |Merging.Duplicates(View(), q)|;
      peopleNotes := map r | r in peopleNotes && !Merging.IsDuplicate(View(), q, r) :: peopleNotes[r];
      FactsLeft(t, View(), q);
      reassigned := |Merging.SourceNotes(View(), q)|;
      peopleNotes := map r | r in peopleNotes
        :: if Merging.IsSourceNote(View(), q, r) then peopleNotes[r].(person := q.primary) else peopleNotes[r];
    }

    // Deletes the source's alias rows and writes the merged ones that conflict with no one else.
    method MoveAliasRows(q: Merging.Pair, aliasMap: map<string, string>, ghost t: Tables) returns (deduplicated: nat,
                         moved: nat)
      requires t.aliases == aliases
      modifies `aliases
      ensures aliases == Merging.MoveAliases(t, q, aliasMap)
      ensures deduplicated == |set k | k in t.aliases && OwnedBy(t, q.user, {q.source}, k)|
      ensures moved == |Merging.Written(t, q, aliasMap).Keys|
    {
      var gone := set k | k in aliases && OwnedBy(View(), q.user, {q.source}, k);
      assert gone == set k | k in t.aliases && OwnedBy(t, q.user, {q.source}, k);
      deduplicated := |gone|;
      aliases := aliases - gone;
      moved := WriteMergedAliases(q, aliasMap, t);
    }

    method WriteMergedAliases(q: Merging.Pair, aliasMap: map<string, string>, ghost t: Tables) returns (moved: nat)
      requires forall k :: k in aliases <==> k in t.aliases && !OwnedBy(t, q.user, {q.source}, k)
      requires forall k :: k in aliases ==> aliases[k] == t.aliases[k]
      modifies `aliases
      ensures aliases == Merging.MoveAliases(t, q, aliasMap)
      ensures moved == |Merging.Written(t, q, aliasMap).Keys|
    {
      var todo := aliasMap.Keys;
      ghost var wrote: set<string> := {};
      moved := 0;
      while todo != {}
        invariant todo <= aliasMap.Keys
        invariant forall n :: n in wrote <==> n in aliasMap && n !in todo && Merging.WritesAlias(t, q, aliasMap.Keys, (q.user, n))
        invariant moved == |wrote|
        invariant forall k :: k in aliases <==> k in old(aliases) || (k.0 == q.user && k.1 in wrote)
        invariant forall k :: k in aliases ==>
                    aliases[k] == if k.0 == q.user && k.1 in wrote then Alias(q.primary, aliasMap[k.1]) else t.aliases[k]
        decreases |todo|
      {
        var n :| n in todo;
        if (q.user, n) !in aliases || aliases[(q.user, n)].person in {q.primary, q.source} {
          aliases := aliases[(q.user, n) := Alias(q.primary, aliasMap[n])];
          moved := moved + 1;
          wrote := wrote + {n};
        }
        todo := todo - {n};
      }
      assert wrote == Merging.Written(t, q, aliasMap).Keys;
      MergedOver(t, q, aliasMap, aliases);
    }

    method MoveLinks(q: Merging.Pair) returns (movedActions: nat, movedDecisions: nat)
      modifies `actions, `decisions
      ensures actions == Merging.MoveActions(old(View()), q) && decisions == Merging.MoveDecisions(old(View()), q)
      ensures movedActions == |Merging.SourceActions(old(View()), q)|
      ensures movedDecisions == |Merging.SourceDecisions(old(View()), q)|
    {
      ghost var t := View();
      movedActions := |Merging.SourceActions(View(), q)|;
      actions := map r | r in actions
        :: if Merging.LinksToSource(q, actions[r].user, actions[r].person) then actions[r].(person := Some(q.primary)) else actions[r];
      assert Merging.SourceDecisions(View(), q) == Merging.SourceDecisions(t, q);
      movedDecisions := |Merging.SourceDecisions(View(), q)|;
      decisions := map r | r in decisions
        :: if Merging.LinksToSource(q, decisions[r].user, decisions[r].person)
           then decisions[r].(person := Some(q.primary)) else decisions[r];
    }

    // The writes of a merge that passed its checks, in their order; None is the error of the
    // last but one, which renames the primary.
    method MoveEverything(q: Merging.Pair, input: Merging.MergeInput, newName: string, now: Instant)
      returns (counts: Option<Merging.MergeCounts>)
      requires q.primary in people && q.source in people && q.primary != q.source && people[q.source].merged.None?
      requires newName == Merging.PickName(input.resolution, people[q.primary].name, people[q.source].name)
      modifies `people, `aliases, `peopleNotes, `actions, `decisions
      ensures counts.None? <==> Merging.NameCollides(old(View()), q, input)
      ensures counts.Some? ==>
                && View() == Merging.MoveAll(old(View()), q, input, now)
                && counts.value == Merging.MergeCountsOf(old(View()), q, Merging.MergedAliases(old(View()), q, newName))
    {
      hide NormalizePersonName, Merging.PickName, Merging.PickProfile, Merging.MovePeopleNotes, Merging.MoveActions,
        Merging.MoveDecisions, Merging.MoveAliases, Merging.MergedAliases, Merging.Duplicates, Merging.SourceNotes,
        Merging.SourceActions, Merging.SourceDecisions, Merging.Written, OwnedBy, NameTaken;
      ghost var t := View();
      var p, s := people[q.primary], people[q.source];
      var aliasMap := CollectMergeAliases(q, newName);
      var duplicates, reassigned := MoveFacts(q);
      LinksIgnoreNotes(t, View(), q);
      var movedActions, movedDecisions := MoveLinks(q);
      var replaced, moved := MoveAliasRows(q, aliasMap, t);
      if NameTaken(people, q.user, newName, {q.primary}) {
        return None;
      }
      people := people[q.primary := p.(name := newName, norm := NormalizePersonName(newName),
                                       profile := Merging.PickProfile(input.resolution, p.profile, s.profile), updated := now)];
      people := people[q.source := s.(merged := Some(q.primary), updated := now)];
      counts := Some(Merging.MergeCounts(duplicates, reassigned, movedActions, movedDecisions, replaced, moved));
    }

    method MergePeople(q: Merging.Pair, input: Merging.MergeInput, now: Instant) returns (outcome: Merging.MergeOutcome)
      modifies `people, `aliases, `peopleNotes, `actions, `decisions, `mentions
      modifies `nextPerson, `nextPeopleNote, `nextAction, `nextDecision
      ensures (View(), outcome) == Merging.MergePeople(old(View()), q, input, now)
      ensures Inv(old(View())) ==> Inv(View())
    {
      hide Inv;
      MergingKeepsInv(View(), q, input, now);
      outcome := MergeRows(q, input, now);
    }

    method MergeRows(q: Merging.Pair, input: Merging.MergeInput, now: Instant) returns (outcome: Merging.MergeOutcome)
      modifies `people, `aliases, `peopleNotes, `actions, `decisions, `mentions
      modifies `nextPerson, `nextPeopleNote, `nextAction, `nextDecision
      ensures (View(), outcome) == Merging.MergePeople(old(View()), q, input, now)
    {
      hide Merging.PickName, Merging.MoveAll, Merging.MergedAliases, Merging.MergeCountsOf, Merging.ResolutionValid, AliasConflict,
        Merging.NameCollides;
      if q.primary == q.source {
        return Merging.Rejected(Merging.MergeConflict);
      }
      if q.primary !in people || people[q.primary].user != q.user || q.source !in people || people[q.source].user != q.user {
        return Merging.Rejected(Merging.NoSuchPerson);
      }
      var p, s := people[q.primary], people[q.source];
      if s.merged == Some(q.primary) {
        return Merging.AlreadyMerged;
      }
      if p.merged.Some? || s.merged.Some? {
        return Merging.Rejected(Merging.MergeConflict);
      }
      if input.expectedPrimary.Some? && p.updated != input.expectedPrimary.value {
        return Merging.Rejected(Merging.UpdateConflict);
      }
      if input.expectedSource.Some? && s.updated != input.expectedSource.value {
        return Merging.Rejected(Merging.UpdateConflict);
      }
      if !Merging.ResolutionValid(input.resolution) {
        return Merging.Rejected(Merging.MergeConflict);
      }
      var newName := Merging.PickName(input.resolution, p.name, s.name);
      var aliasMap := CollectMergeAliases(q, newName);
      var conflict := FindConflict(q.user, aliasMap.Keys, {q.primary, q.source});
      if conflict {
        return Merging.Rejected(Merging.IdentityConflict);
      }
      var begin := View();
      var counts := MoveEverything(q, input, newName, now);
      if counts.None? {
        Rollback(begin);
        return Merging.Rejected(Merging.DatabaseError);
      }
      outcome := Merging.Merged(counts.value);
    }

    // ---- The enrichment queue ----

    method CreateAndClaimNoteForEnrichment(user: int, raw: string, now: Instant) returns (claim: NoteClaim)
      modifies `notes, `nextNote
      ensures notes == old(notes)[old(nextNote) := Queue.OwnNote(user, raw, now)] && nextNote == old(nextNote) + 1
      ensures claim == NoteClaim(old(nextNote), user, raw, Queue.Processing, now, 1)
    {
      claim := NoteClaim(nextNote, user, raw, Queue.Processing, now, 1);
      notes := notes[nextNote := Queue.OwnNote(user, raw, now)];
      nextNote := nextNote + 1;
    }

    // The query of ClaimNextNotesForEnrichment.
    method SelectCandidates(limit: int, maxAttempts: int, stale: Instant, now: Instant) returns (ids: seq<int>)
      requires limit > 0 && maxAttempts > 0
      ensures ids == Queue.Batch(notes, limit, maxAttempts, stale, now)
    {
      Queue.SoonerIsTotal();
      hide Queue.Candidates, Queue.Sooner;
      var rows := FirstRows(Queue.Candidates(notes, maxAttempts, stale, now), limit);
      ids := Queue.RowIds(rows);
    }

    method ClaimNextNotesForEnrichment(limit: int, maxAttempts: int, stale: Instant,
                            now: Instant) returns (claims: seq<NoteClaim>)
      modifies `notes
      ensures var ids := Queue.Batch(old(notes), limit, maxAttempts, stale, now);
              && notes == Queue.ClaimAll(old(notes), ids, now)
              && notes.Keys == old(notes).Keys
              && (forall id :: id in old(notes) ==>
                    notes[id] == if id !in ids then old(notes)[id]
                                 else old(notes)[id].(status := Queue.Processing, startedAt := Some(now), failedAt := None, nextAt := None,
                                                      attempts := old(notes)[id].attempts + 1))
              && |claims| == |ids|
              && forall i :: 0 <= i < |ids| ==>
                   claims[i] == NoteClaim(ids[i], notes[ids[i]].user, notes[ids[i]].raw, Queue.Processing, now, notes[ids[i]].attempts)
    {
      claims := [];
      if limit <= 0 || maxAttempts <= 0 {
        assert notes == Queue.ClaimAll(notes, [], now);
        return;
      }
      var ids := SelectCandidates(limit, maxAttempts, stale, now);
      notes := map id | id in notes :: if id in ids then Queue.Claimed(notes[id], now) else notes[id];
      hide Queue.Batch;
      claims := ReadClaims(ids);
    }

    method ReadClaims(ids: seq<int>) returns (claims: seq<NoteClaim>)
      requires forall id :: id in ids ==> id in notes && notes[id].startedAt.Some?
      ensures |claims| == |ids| && forall i :: 0 <= i < |ids| ==> claims[i] == ClaimOf(ids[i], notes[ids[i]])
    {
      claims := [];
      for i := 0 to |ids|
        invariant |claims| == i && forall j :: 0 <= j < i ==> claims[j] == ClaimOf(ids[j], notes[ids[j]])
      {
        claims := claims + [ClaimOf(ids[i], notes[ids[i]])];
      }
    }

    method MarkNoteEnrichmentFailed(user: int, note: int, startedAt: Instant, now: Instant)
      modifies `notes
      ensures notes == Queue.MarkFailed(old(notes), user, note, startedAt, now)
      ensures if Queue.ClaimActive(old(notes), user, note, startedAt) then Queue.EndsClaim(old(notes), notes, note, startedAt)
              else notes == old(notes)
    {
      if Queue.ClaimActive(notes, user, note, startedAt) {
        notes := notes[note := notes[note].(status := Queue.Failed, failedAt := Some(now))];
      }
    }

    method ScheduleNoteEnrichmentRetry(user: int, note: int, startedAt: Instant, nextAt: Option<Instant>, now: Instant)
      modifies `notes
      ensures notes == Queue.Reschedule(old(notes), user, note, startedAt, now, nextAt)
      ensures if Queue.TokenCurrent(old(notes), user, note, startedAt) then Queue.EndsClaim(old(notes), notes, note, startedAt)
              else notes == old(notes)
    {
      if Queue.TokenCurrent(notes, user, note, startedAt) {
        notes := notes[note := notes[note].(status := Queue.Failed, failedAt := Some(now), nextAt := nextAt)];
      }
    }

    // ---- The Telegram inbox ----

    method ClaimTelegramUpdate(m: Inbox.Ident, stale: Instant, now: Instant) returns (claimed: bool)
      modifies `updates
      ensures (updates, claimed) == Inbox.Claim(old(updates), m, stale, now)
      ensures Inbox.Alone(old(updates), m) && claimed ==>
                && Inbox.Held(updates, m, m, now)
                && forall k :: k in old(updates) && k != m ==> updates[k] == old(updates)[k]
    {
      if Inbox.Alone(updates, m) {
        Inbox.ClaimIsOneRow(updates, m, stale, now);
      }
      if Inbox.Empty(m) {
        return false;
      }
      if forall k :: k in updates ==> !Inbox.Matches(k, m) {
        updates := updates[m := Inbox.Row(Inbox.Processing, now, 1)];
        return true;
      }
      claimed := exists k :: k in updates && Inbox.Matches(k, m) && Inbox.Reclaimable(updates[k], stale, now);
      updates := map k | k in updates
        :: if Inbox.Matches(k, m) && Inbox.Reclaimable(updates[k], stale, now)
           then Inbox.Row(Inbox.Processing, now, updates[k].attempts + 1) else updates[k];
    }

    // UPDATE telegram_updates SET status WHERE the claim is active; ok if it affected a row.
    method MarkTelegramUpdate(m: Inbox.Ident, startedAt: Instant, status: Inbox.Status) returns (ok: bool)
      modifies `updates
      ensures match Inbox.Mark(old(updates), m, startedAt, status)
              case None => !ok && updates == old(updates)
              case Some(rows1) => ok && updates == rows1
    {
      ok := exists k :: k in updates && Inbox.Held(updates, k, m, startedAt);
      if ok {
        updates := map k | k in updates
          :: if Inbox.Held(updates, k, m, startedAt) then updates[k].(status := status) else updates[k];
      }
    }

    // The note is inserted first; without an active claim the insert is rolled back.
    method SaveNoteAndMarkTelegramUpdateProcessed(user: int, raw: string, claimIt: bool, m: Inbox.Ident,
                            startedAt: Instant, now: Instant)
      returns (ok: bool)
      modifies `updates, `notes, `nextNote
      ensures match Inbox.Mark(old(updates), m, startedAt, Inbox.Processed)
              case None => !ok && updates == old(updates) && notes == old(notes) && nextNote == old(nextNote)
              case Some(rows1) =>
                && ok && updates == rows1 && nextNote == old(nextNote) + 1
                && notes == old(notes)[old(nextNote) := if claimIt then Queue.OwnNote(user, raw, now) else Queue.RawNote(user, raw, now)]
    {
      var notes0, next0 := notes, nextNote;
      if claimIt {
        var _ := CreateAndClaimNoteForEnrichment(user, raw, now);
      } else {
        notes := notes[nextNote := Queue.RawNote(user, raw, now)];
        nextNote := nextNote + 1;
      }
      ok := MarkTelegramUpdate(m, startedAt, Inbox.Processed);
      if !ok {
        notes, nextNote := notes0, next0;
      }
    }

    method MarkActionDoneAndMarkTelegramUpdateProcessed(user: int, action: int, m: Inbox.Ident, startedAt: Instant)
      returns (ok: bool)
      modifies `updates, `actions
      ensures ok <==> && action in old(actions) && old(actions)[action].user == user && old(actions)[action].open
                      && Inbox.Mark(old(updates), m, startedAt, Inbox.Processed).Some?
      ensures ok ==> && updates == Inbox.Mark(old(updates), m, startedAt, Inbox.Processed).value
                     && actions == old(actions)[action := old(actions)[action].(open := false)]
      ensures !ok ==> updates == old(updates) && actions == old(actions)
    {
      if action !in actions || actions[action].user != user || !actions[action].open {
        return false;
      }
      var actions0 := actions;
      actions := actions[action := actions[action].(open := false)];
      ok := MarkTelegramUpdate(m, startedAt, Inbox.Processed);
      if !ok {
        actions := actions0;
      }
    }
  }

  // An error in a prefix of the loop is the error of the whole loop.
  lemma {:induction false} PeopleNotesFail(t: Tables, user: int, note: int, items: seq<ParsedPeopleNote>, n: nat,
                          now: Instant)
    requires n <= |items| && SavePeopleNotes(t, user, note, items[..n], now).None?
    ensures SavePeopleNotes(t, user, note, items, now).None?
    decreases |items|
  {
    if n == |items| {
      assert items[..n] == items;
    } else {
      assert items[..|items| - 1][..n] == items[..n];
      PeopleNotesFail(t, user, note, items[..|items| - 1], n, now);
    }
  }

  lemma {:induction false} DecisionsFail(t: Tables, ids: map<string, int>, user: int, note: int,
                          ds: seq<Entities.Decision>, n: nat, now: Instant)
    requires n <= |ds| && SaveDecisions(t, ids, user, note, ds[..n], now).None?
    ensures SaveDecisions(t, ids, user, note, ds, now).None?
    decreases |ds|
  {
    if n == |ds| {
      assert ds[..n] == ds;
    } else {
      assert ds[..|ds| - 1][..n] == ds[..n];
      DecisionsFail(t, ids, user, note, ds[..|ds| - 1], n, now);
    }
  }

  lemma {:induction false} ActionsFail(t: Tables, ids: map<string, int>, user: int, note: int,
                          items: seq<ParsedAction>, n: nat, now: Instant)
    requires n <= |items| && SaveActions(t, ids, user, note, items[..n], now).None?
    ensures SaveActions(t, ids, user, note, items, now).None?
    decreases |items|
  {
    if n == |items| {
      assert items[..n] == items;
    } else {
      assert items[..|items| - 1][..n] == items[..n];
      ActionsFail(t, ids, user, note, items[..|items| - 1], n, now);
    }
  }

  lemma {:induction false} MentionsFail(t: Tables, user: int, note: int, rs: seq<Entities.Record>, n: nat)
    requires n <= |rs| && SaveMentions(t, user, note, rs[..n]).None?
    ensures SaveMentions(t, user, note, rs).None?
    decreases |rs|
  {
    if n == |rs| {
      assert rs[..n] == rs;
    } else {
      assert rs[..|rs| - 1][..n] == rs[..n];
      MentionsFail(t, user, note, rs[..|rs| - 1], n);
    }
  }

  lemma MergedOver(t: Tables, q: Merging.Pair, aliasMap: map<string, string>, written: map<AliasKey, Alias>)
    requires forall k :: k in written <==>
               (k in t.aliases && !OwnedBy(t, q.user, {q.source}, k))
               || (k.0 == q.user && k.1 in aliasMap && Merging.WritesAlias(t, q, aliasMap.Keys, k))
    requires forall k :: k in written ==>
               written[k] == if k.0 == q.user && k.1 in aliasMap && Merging.WritesAlias(t, q, aliasMap.Keys, k)
                             then Alias(q.primary, aliasMap[k.1]) else t.aliases[k]
    ensures written == Merging.MoveAliases(t, q, aliasMap)
  {
    hide Merging.WritesAlias, OwnedBy, AliasRows;
    forall k: AliasKey ensures k.0 == q.user ==> k == (q.user, k.1) {}
  }

  lemma LinksIgnoreNotes(t: Tables, t1: Tables, q: Merging.Pair)
    requires t1.actions == t.actions && t1.decisions == t.decisions
    ensures Merging.MoveActions(t1, q) == Merging.MoveActions(t, q) && Merging.MoveDecisions(t1, q) == Merging.MoveDecisions(t, q)
    ensures Merging.SourceActions(t1, q) == Merging.SourceActions(t, q)
    ensures Merging.SourceDecisions(t1, q) == Merging.SourceDecisions(t, q)
  {
    assert Merging.SourceActions(t1, q) == Merging.SourceActions(t, q);
    assert Merging.SourceDecisions(t1, q) == Merging.SourceDecisions(t, q);
  }

  lemma SavingKeepsInv(t: Tables, user: int, note: int, p: Parsed, now: Instant)
    requires Inv(t)
    ensures var saved := SaveStructured(DeleteForNote(t, user, note), user, note, p, now); saved.Some? ==> Inv(saved.value)
  {
    hide Inv, SaveStructured, DeleteForNote;
    DeleteKeepsInv(t, user, note);
    if SaveStructured(DeleteForNote(t, user, note), user, note, p, now).Some? {
      SaveStructuredKeepsInv(DeleteForNote(t, user, note), user, note, p, now);
    }
  }

  lemma MergingKeepsInv(t: Tables, q: Merging.Pair, input: Merging.MergeInput, now: Instant)
    ensures Inv(t) ==> Inv(Merging.MergePeople(t, q, input, now).0)
  {
    hide Inv, Merging.MergePeople;
    if Inv(t) {
      Merging.MergeKeepsInv(t, q, input, now);
    }
  }

  // After the duplicates are gone, the source's rows are those to hand over.
  lemma FactsLeft(t: Tables, t1: Tables, q: Merging.Pair)
    requires t1.peopleNotes == map r | r in t.peopleNotes && !Merging.IsDuplicate(t, q, r) :: t.peopleNotes[r]
    ensures Merging.SourceNotes(t1, q) == Merging.SourceNotes(t, q) - Merging.Duplicates(t, q)
    ensures Merging.MovePeopleNotes(t, q)
         == map r | r in t1.peopleNotes
            :: if Merging.IsSourceNote(t1, q, r) then t1.peopleNotes[r].(person := q.primary) else t1.peopleNotes[r]
  {
    hide Merging.SameFact;
    assert Merging.SourceNotes(t1, q) == Merging.SourceNotes(t, q) - Merging.Duplicates(t, q);
  }
}
