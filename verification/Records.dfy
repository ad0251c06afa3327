// saveStructuredRecordsForNoteTx of internal/adapters/store/store.go: the rows that one parsed
// note leaves in the people notes, decisions, entity mentions and actions tables.
module Records {
  import opened Options
  import opened Text
  import opened Names
  import opened People
  import Entities

  datatype ParsedPeopleNote = ParsedPeopleNote(person: string, typ: string, theme: string, text: string, review: bool)
  datatype ParsedAction = ParsedAction(title: string, linked: string, output: string)

  // tags is a slice that may be nil.
  datatype Parsed = Parsed(summary: string, tags: Option<seq<string>>, peopleNotes: seq<ParsedPeopleNote>,
                           decisions: seq<Entities.Decision>, mentions: seq<Entities.Mention>, actions: seq<ParsedAction>)

  // The tables inside the transaction and the personIDs map of the names met so far.
  datatype Progress = Progress(t: Tables, ids: map<string, int>)

  function EmptyTo(v: string, fallback: string): string {
    if TrimSpace(v) == "" then fallback else v
  }

  // ---- The loops ----

  // The row of an item whose name leads to owner.
  function ToPeopleNote(user: int, note: int): (ParsedPeopleNote, Option<int>) -> PeopleNote {
    (pn: ParsedPeopleNote, owner: Option<int>) =>
      PeopleNote(user, if owner.Some? then owner.value else 0, Some(note), EmptyTo(pn.typ, "context"), Some(pn.theme),
                 pn.text, pn.review)
  }

  function ToDecisionRow(user: int, note: int): (Entities.Decision, Option<int>) -> DecisionRow {
    (d: Entities.Decision, owner: Option<int>) => DecisionRow(user, note, owner, d.text, d.topic)
  }

  function ToAction(user: int, note: int): (ParsedAction, Option<int>) -> Action {
    (a: ParsedAction, owner: Option<int>) => Action(user, Some(note), owner, TrimSpace(a.title), a.output, true)
  }

  function ToMentionRow(user: int, r: Entities.Record): MentionRow {
    MentionRow(user, r.rawValue, r.display, r.context)
  }

  // The texts that an insert hands to the database.
  predicate PeopleNoteStorable(pn: ParsedPeopleNote) {
    Storable(EmptyTo(pn.typ, "context")) && Storable(pn.theme) && Storable(pn.text)
  }

  predicate DecisionStorable(d: Entities.Decision) {
    Storable(d.text) && Storable(d.topic)
  }

  predicate MentionStorable(r: Entities.Record) {
    Storable(r.typ) && Storable(r.rawValue) && Storable(r.normalized) && Storable(r.display) && Storable(r.context)
  }

  predicate ActionStorable(a: ParsedAction) {
    Storable(TrimSpace(a.title)) && Storable(a.output)
  }

  function InsertPeopleNote(t: Tables, row: PeopleNote): Tables {
    t.(peopleNotes := t.peopleNotes[t.nextPeopleNote := row], nextPeopleNote := t.nextPeopleNote + 1)
  }

  function InsertDecision(t: Tables, row: DecisionRow): Tables {
    t.(decisions := t.decisions[t.nextDecision := row], nextDecision := t.nextDecision + 1)
  }

  function InsertAction(t: Tables, row: Action): Tables {
    t.(actions := t.actions[t.nextAction := row], nextAction := t.nextAction + 1)
  }

  function SavePeopleNote(s: Progress, user: int, note: int, pn: ParsedPeopleNote, now: Instant): Option<Progress> {
    var name := TrimSpace(pn.person);
    if name == "" then Some(s)
    else
      match Upsert(s.t, user, name, now)
      case (_, None) => None
      case (t1, Some(pid)) =>
        if !PeopleNoteStorable(pn) then None
        else Some(Progress(InsertPeopleNote(t1, ToPeopleNote(user, note)(pn, Some(pid))), s.ids[NormalizePersonName(name) := pid]))
  }

  function SavePeopleNotes(t: Tables, user: int, note: int, items: seq<ParsedPeopleNote>,
                          now: Instant): Option<Progress> {
    if items == [] then Some(Progress(t, map[]))
    else
      match SavePeopleNotes(t, user, note, items[..|items| - 1], now)
      case None => None
      case Some(s) => SavePeopleNote(s, user, note, items[|items| - 1], now)
  }

  // The id for a linked name: none for "", a name met before, or an upserted person.
  function Link(t: Tables, ids: map<string, int>, user: int, name: string,
                now: Instant): Option<(Tables, Option<int>)> {
    if name == "" then Some((t, None))
    else if NormalizePersonName(name) in ids then Some((t, Some(ids[NormalizePersonName(name)])))
    else
      match Upsert(t, user, name, now)
      case (_, None) => None
      case (t1, Some(pid)) => Some((t1, Some(pid)))
  }

  function SaveDecision(t: Tables, ids: map<string, int>, user: int, note: int, d: Entities.Decision,
                        now: Instant): Option<Tables> {
    match Entities.NormalizeDecision(d)
    case None => Some(t)
    case Some(n) =>
      match Link(t, ids, user, n.linkedPerson, now)
      case None => None
      case Some((t1, pid)) =>
        if !DecisionStorable(n) then None else Some(InsertDecision(t1, ToDecisionRow(user, note)(n, pid)))
  }

  function SaveDecisions(t: Tables, ids: map<string, int>, user: int, note: int, ds: seq<Entities.Decision>,
                         now: Instant): Option<Tables> {
    if ds == [] then Some(t)
    else
      match SaveDecisions(t, ids, user, note, ds[..|ds| - 1], now)
      case None => None
      case Some(t1) => SaveDecision(t1, ids, user, note, ds[|ds| - 1], now)
  }

  // INSERT ... ON CONFLICT (note_id, entity_type, normalized_value) DO UPDATE.
  function SaveMention(t: Tables, user: int, note: int, r: Entities.Record): Option<Tables> {
    var k := MentionKey(note, r.typ, r.normalized);
    if !MentionStorable(r) then None
    else Some(t.(mentions := t.mentions[k := ToMentionRow(if k in t.mentions then t.mentions[k].user else user, r)]))
  }

  function SaveMentions(t: Tables, user: int, note: int, rs: seq<Entities.Record>): Option<Tables> {
    if rs == [] then Some(t)
    else
      match SaveMentions(t, user, note, rs[..|rs| - 1])
      case None => None
      case Some(t1) => SaveMention(t1, user, note, rs[|rs| - 1])
  }

  function SaveAction(t: Tables, ids: map<string, int>, user: int, note: int, a: ParsedAction,
                      now: Instant): Option<Tables> {
    if TrimSpace(a.title) == "" then Some(t)
    else
      match Link(t, ids, user, a.linked, now)
      case None => None
      case Some((t1, pid)) =>
        if !ActionStorable(a) then None else Some(InsertAction(t1, ToAction(user, note)(a, pid)))
  }

  function SaveActions(t: Tables, ids: map<string, int>, user: int, note: int, items: seq<ParsedAction>,
                       now: Instant): Option<Tables> {
    if items == [] then Some(t)
    else
      match SaveActions(t, ids, user, note, items[..|items| - 1], now)
      case None => None
      case Some(t1) => SaveAction(t1, ids, user, note, items[|items| - 1], now)
  }

  // None is an error, on which the caller rolls the transaction back.
  function SaveStructured(t: Tables, user: int, note: int, p: Parsed, now: Instant): Option<Tables> {
    match SavePeopleNotes(t, user, note, p.peopleNotes, now)
    case None => None
    case Some(s) =>
      match SaveDecisions(s.t, s.ids, user, note, p.decisions, now)
      case None => None
      case Some(t2) =>
        match SaveMentions(t2, user, note, Entities.NormalizeMentions(p.mentions).out)
        case None => None
        case Some(t3) => SaveActions(t3, s.ids, user, note, p.actions, now)
  }

  // ---- What the loops leave ----

  function KeptPeopleNotes(items: seq<ParsedPeopleNote>): seq<ParsedPeopleNote> {
    if items == [] then []
    else
      var pn := items[|items| - 1];
      KeptPeopleNotes(items[..|items| - 1]) + if TrimSpace(pn.person) == "" then [] else [pn]
  }

  function KeptDecisions(ds: seq<Entities.Decision>): seq<Entities.Decision> {
    if ds == [] then []
    else
      KeptDecisions(ds[..|ds| - 1])
      + match Entities.NormalizeDecision(ds[|ds| - 1]) case None => [] case Some(d) => [d]
  }

  function KeptActions(items: seq<ParsedAction>): seq<ParsedAction> {
    if items == [] then []
    else
      var a := items[|items| - 1];
      KeptActions(items[..|items| - 1]) + if TrimSpace(a.title) == "" then [] else [a]
  }

  function PersonOf(pn: ParsedPeopleNote): string { pn.person }
  function DecisionLink(d: Entities.Decision): string { d.linkedPerson }
  function ActionLink(a: ParsedAction): string { a.linked }

  function KeyOf(user: int, name: string): AliasKey { (user, NormalizePersonName(name)) }

  // The person that a name leads to in an alias index.
  function OwnerOf(index: map<AliasKey, Alias>, user: int, name: string): Option<int> {
    if name != "" && KeyOf(user, name) in index then Some(index[KeyOf(user, name)].person) else None
  }

  // The rows of a list of items, with names read in an alias index.
  function Rows<K, R>(index: map<AliasKey, Alias>, user: int, link: K -> string, row: (K, Option<int>) -> R,
                      ks: seq<K>): (rows: seq<R>)
    ensures |rows| == |ks|
    ensures forall i :: 0 <= i < |ks| ==> rows[i] == row(ks[i], OwnerOf(index, user, link(ks[i])))
  {
    seq(|ks|, i requires 0 <= i < |ks| => row(ks[i], OwnerOf(index, user, link(ks[i]))))
  }

  function NamesIn<K>(link: K -> string, ks: seq<K>): (names: seq<string>)
    ensures |names| == |ks| && forall i :: 0 <= i < |ks| ==> names[i] == link(ks[i])
  {
    seq(|ks|, i requires 0 <= i < |ks| => link(ks[i]))
  }

  function PeopleNoteRows(index: map<AliasKey, Alias>, user: int, note: int, ks: seq<ParsedPeopleNote>): (rows: seq<PeopleNote>)
    ensures |rows| == |ks|
  {
    Rows(index, user, PersonOf, ToPeopleNote(user, note), ks)
  }

  function DecisionRows(index: map<AliasKey, Alias>, user: int, note: int, ks: seq<Entities.Decision>): (rows: seq<DecisionRow>)
    ensures |rows| == |ks|
  {
    Rows(index, user, DecisionLink, ToDecisionRow(user, note), ks)
  }

  function ActionRows(index: map<AliasKey, Alias>, user: int, note: int, ks: seq<ParsedAction>): (rows: seq<Action>)
    ensures |rows| == |ks|
  {
    Rows(index, user, ActionLink, ToAction(user, note), ks)
  }

  // m1 is m with the rows added under consecutive new serial numbers.
  ghost predicate Added<R>(m: map<int, R>, m1: map<int, R>, start: int, rows: seq<R>) {
    && (forall r :: r in m1 <==> r in m || start <= r < start + |rows|)
    && (forall r :: r in m ==> r < start && m1[r] == m[r])
    && (forall i :: 0 <= i < |rows| ==> m1[start + i] == rows[i])
  }

  ghost predicate Extends(index: map<AliasKey, Alias>, later: map<AliasKey, Alias>) {
    forall k :: k in index ==> k in later && later[k] == index[k]
  }

  // No person is changed or removed.
  ghost predicate Grows(people: map<int, Person>, later: map<int, Person>) {
    forall id :: id in people ==> id in later && later[id] == people[id]
  }

  ghost predicate NewAreActive(people: map<int, Person>, later: map<int, Person>) {
    forall id :: id in later && id !in people ==> Active(later, id)
  }

  // t1 differs from t by new active persons and new aliases only.
  ghost predicate OnlyPeople(t: Tables, t1: Tables) {
    && Extends(t.aliases, t1.aliases) && Grows(t.people, t1.people) && NewAreActive(t.people, t1.people)
    && t1 == t.(people := t1.people, aliases := t1.aliases, nextPerson := t1.nextPerson)
  }

  // The personIDs map agrees with the alias index.
  ghost predicate IdsOk(index: map<AliasKey, Alias>, user: int, ids: map<string, int>) {
    forall n :: n in ids ==> Storable(n) && (user, n) in index && index[(user, n)].person == ids[n]
  }

  // ---- One name ----

  predicate Usable(name: string) {
    !Blank(name) && Storable(NormalizePersonName(name))
  }

  // t1 is t after one name, or no name, was turned into a person.
  ghost predicate Meets(t: Tables, t1: Tables, user: int, name: string) {
    && Inv(t1) && OnlyPeople(t, t1)
    && t1.aliases.Keys == t.aliases.Keys + (if name == "" then {} else {KeyOf(user, name)})
    && (name != "" ==> Usable(name))
  }

  lemma OwnersAreActive(t: Tables, user: int, norm: string)
    requires Inv(t) && (user, norm) in t.aliases
    ensures ActiveFor(t.people, user, t.aliases[(user, norm)].person) && norm != ""
  {
  }

  lemma InvHasIdentity(t: Tables)
    requires Inv(t)
    ensures IdentityInv(t)
  {
  }

  lemma UpsertGrows(t: Tables, user: int, name: string, now: Instant)
    requires IdentityInv(t)
    ensures OnlyPeople(t, Upsert(t, user, name, now).0)
  {
    hide Upsert, NormalizePersonName, TrimSpace, Forest, NamesIndexed, RowNamesUnique, AliasesOwned, Refused;
    UpsertInReachableState(t, user, name, now);
  }

  lemma UpsertLeadsToOwner(t: Tables, user: int, name: string, now: Instant)
    requires Inv(t) && name != "" && !Refused(t, user, name)
    ensures var (t1, id) := Upsert(t, user, name, now);
            && Meets(t, t1, user, name)
            && id.Some? && id == OwnerOf(t1.aliases, user, name) && ActiveFor(t1.people, user, id.value)
  {
    hide Inv, Upsert, NormalizePersonName, TrimSpace, ActiveFor, Blank, Storable, NameTaken, OnlyPeople;
    InvHasIdentity(t);
    UpsertInReachableState(t, user, name, now);
    UpsertKeepsInv(t, user, name, now);
    UpsertGrows(t, user, name, now);
    OwnersAreActive(Upsert(t, user, name, now).0, user, NormalizePersonName(name));
  }

  lemma UpsertIgnoresTrim(t: Tables, user: int, name: string, now: Instant)
    ensures Upsert(t, user, TrimSpace(name), now) == Upsert(t, user, name, now)
    ensures NormalizePersonName(TrimSpace(name)) == NormalizePersonName(name)
  {
    TrimSpaceShape(name);
    KeyIgnoresTrim(name);
    hide NormalizePersonName, TrimSpace, Storable, NameTaken;
  }

  lemma Unlinked(t: Tables, user: int)
    requires Inv(t)
    ensures Meets(t, t, user, "")
  {
    hide Inv;
  }

  lemma KnownIsMet(t: Tables, user: int, name: string)
    requires Inv(t) && name != "" && KeyOf(user, name) in t.aliases && Storable(NormalizePersonName(name))
    ensures Meets(t, t, user, name) && !Refused(t, user, name)
  {
    KeyIsEmptyOnlyForBlank(name);
    OwnersAreActive(t, user, NormalizePersonName(name));
    hide Inv, NormalizePersonName, TrimSpace, Blank, Storable, NameTaken;
  }

  // A link fails exactly for a present name that upsertPerson refuses; otherwise it yields the
  // person that the name leads to from then on. A name met before is never refused.
  lemma LinkLeadsToOwner(t: Tables, ids: map<string, int>, user: int, name: string, now: Instant)
    requires Inv(t) && IdsOk(t.aliases, user, ids)
    ensures Link(t, ids, user, name, now).None? <==> name != "" && Refused(t, user, name)
    ensures Link(t, ids, user, name, now).Some? ==>
              var (t1, pid) := Link(t, ids, user, name, now).value;
              && Meets(t, t1, user, name) && IdsOk(t1.aliases, user, ids)
              && pid == OwnerOf(t1.aliases, user, name) && LinkOk(t1.people, user, pid)
  {
    hide Upsert, NormalizePersonName, Inv, Blank, Storable, Refused;
    InvHasIdentity(t);
    if name == "" {
      Unlinked(t, user);
    } else if NormalizePersonName(name) in ids {
      OwnersAreActive(t, user, NormalizePersonName(name));
      KnownIsMet(t, user, name);
    } else {
      UpsertFailsExactly(t, user, name, now);
      if !Refused(t, user, name) {
        UpsertLeadsToOwner(t, user, name, now);
        IdsStay(t.aliases, Upsert(t, user, name, now).0.aliases, user, ids);
      }
    }
  }

  lemma IdsStay(index: map<AliasKey, Alias>, later: map<AliasKey, Alias>, user: int, ids: map<string, int>)
    requires Extends(index, later) && IdsOk(index, user, ids)
    ensures IdsOk(later, user, ids)
  {
  }

  // ---- A list of names ----

  function KeysOf(user: int, names: seq<string>): set<AliasKey> {
    set i | 0 <= i < |names| && names[i] != "" :: KeyOf(user, names[i])
  }

  // The name at i makes the save fail: the database or upsertPerson refuses it in the tables as
  // they were, and no name before it has the same key.
  predicate FailsAt(t: Tables, user: int, names: seq<string>, i: nat)
    requires i < |names|
  {
    names[i] != "" && Refused(t, user, names[i]) && KeyOf(user, names[i]) !in KeysOf(user, names[..i])
  }

  predicate SomeNameFails(t: Tables, user: int, names: seq<string>) {
    exists i :: 0 <= i < |names| && FailsAt(t, user, names, i)
  }

  // t1 is t after the names were turned into persons one after the other.
  ghost predicate Met(t: Tables, t1: Tables, user: int, names: seq<string>) {
    && Inv(t1) && Extends(t.aliases, t1.aliases) && Grows(t.people, t1.people) && NewAreActive(t.people, t1.people)
    && t1.aliases.Keys == t.aliases.Keys + KeysOf(user, names)
    && (forall i :: 0 <= i < |names| && names[i] != "" ==> Usable(names[i]))
    && !SomeNameFails(t, user, names)
  }

  lemma OneMoreName(user: int, names: seq<string>, name: string)
    ensures KeysOf(user, names + [name]) == KeysOf(user, names) + (if name == "" then {} else {KeyOf(user, name)})
  {
    hide NormalizePersonName;
    var more := names + [name];
    assert more[|names|] == name;
    forall k | k in KeysOf(user, names) ensures k in KeysOf(user, more) {
      var i :| 0 <= i < |names| && names[i] != "" && k == KeyOf(user, names[i]);
      assert more[i] == names[i];
    }
    if name != "" { assert KeyOf(user, more[|names|]) in KeysOf(user, more); }
  }

  lemma NameFailureSplits(t: Tables, user: int, names: seq<string>, name: string)
    ensures SomeNameFails(t, user, names + [name])
         == (SomeNameFails(t, user, names)
             || (name != "" && Refused(t, user, name) && KeyOf(user, name) !in KeysOf(user, names)))
  {
    hide Refused, KeysOf, KeyOf;
    var more := names + [name];
    assert more[..|names|] == names;
    forall i | 0 <= i < |names| ensures FailsAt(t, user, more, i) == FailsAt(t, user, names, i) {
      assert more[..i] == names[..i];
    }
    if SomeNameFails(t, user, names) {
      var i :| 0 <= i < |names| && FailsAt(t, user, names, i);
      assert FailsAt(t, user, more, i);
    }
    assert FailsAt(t, user, more, |names|)
        == (name != "" && Refused(t, user, name) && KeyOf(user, name) !in KeysOf(user, names));
  }

  lemma {:induction false} FailureStays(t: Tables, user: int, names: seq<string>, more: seq<string>)
    requires SomeNameFails(t, user, names)
    ensures SomeNameFails(t, user, names + more)
    decreases |more|
  {
    hide SomeNameFails;
    if more == [] {
      assert names + more == names;
    } else {
      var n := |more| - 1;
      FailureStays(t, user, names, more[..n]);
      NameFailureSplits(t, user, names + more[..n], more[n]);
      assert names + more[..n] + [more[n]] == names + more;
    }
  }

  // Persons made by the names met so far stand in the way of no name whose key is new.
  lemma TakenLater(t: Tables, t1: Tables, user: int, names: seq<string>, name: string)
    requires Met(t, t1, user, names) && KeyOf(user, name) !in t1.aliases
    ensures NameTaken(t1.people, user, TrimSpace(name), {}) == NameTaken(t.people, user, TrimSpace(name), {})
  {
    KeyIgnoresTrim(name);
    hide NormalizePersonName, TrimSpace, KeysOf, SomeNameFails, Usable, RecordsInv, Forest, SerialsFresh, AliasesOwned;
    if id :| id in t1.people && t1.people[id].user == user && t1.people[id].name == TrimSpace(name) {
      assert Active(t1.people, id) ==> NameIndexed(t1, id);
      assert id in t.people && t.people[id].name == TrimSpace(name);
    }
    if id :| id in t.people && t.people[id].user == user && t.people[id].name == TrimSpace(name) {
      assert id in t1.people && t1.people[id].name == TrimSpace(name);
    }
  }

  // Whether a name is refused after others were met, told about the tables before them.
  lemma RefusedLater(t: Tables, t1: Tables, user: int, names: seq<string>, name: string)
    requires Met(t, t1, user, names) && name != ""
    ensures Refused(t1, user, name) == (Refused(t, user, name) && KeyOf(user, name) !in KeysOf(user, names))
  {
    hide NormalizePersonName, TrimSpace, SomeNameFails, Inv, NameTaken, Blank, Storable;
    if KeyOf(user, name) in KeysOf(user, names) {
      var i :| 0 <= i < |names| && names[i] != "" && KeyOf(user, name) == KeyOf(user, names[i]);
      KeyIsEmptyOnlyForBlank(name);
      KeyIsEmptyOnlyForBlank(names[i]);
      assert Usable(names[i]);
    } else {
      hide KeysOf;
      if KeyOf(user, name) !in t1.aliases {
        TakenLater(t, t1, user, names, name);
      }
    }
  }

  lemma NothingMet(t: Tables, user: int)
    requires Inv(t)
    ensures Met(t, t, user, [])
  {
    hide Inv;
  }

  lemma GrowthComposes(a: Tables, b: Tables, c: Tables)
    requires Extends(a.aliases, b.aliases) && Grows(a.people, b.people) && NewAreActive(a.people, b.people)
    requires Extends(b.aliases, c.aliases) && Grows(b.people, c.people) && NewAreActive(b.people, c.people)
    ensures Extends(a.aliases, c.aliases) && Grows(a.people, c.people) && NewAreActive(a.people, c.people)
  {
  }

  lemma MeetOneMore(t: Tables, t1: Tables, t2: Tables, user: int, names: seq<string>, name: string)
    requires Met(t, t1, user, names) && Meets(t1, t2, user, name)
    requires name != "" ==> !(Refused(t, user, name) && KeyOf(user, name) !in KeysOf(user, names))
    ensures Met(t, t2, user, names + [name])
  {
    hide Inv, Extends, Grows, NewAreActive, KeysOf, KeyOf, Refused, SomeNameFails, Usable;
    GrowthComposes(t, t1, t2);
    OneMoreName(user, names, name);
    NameFailureSplits(t, user, names, name);
  }

  // Inserting a record changes nothing that Met speaks of.
  lemma MetIgnoresRecords(t: Tables, t1: Tables, t2: Tables, user: int, names: seq<string>)
    requires Met(t, t1, user, names) && Inv(t2) && t2.people == t1.people && t2.aliases == t1.aliases
    ensures Met(t, t2, user, names)
  {
    hide Inv, Extends, Grows, NewAreActive, KeysOf, SomeNameFails, Usable;
  }

  // Turning a link into a person, after other names.
  lemma LinkMeets(t: Tables, t1: Tables, ids: map<string, int>, user: int, names: seq<string>, name: string, now: Instant)
    requires Met(t, t1, user, names) && IdsOk(t1.aliases, user, ids)
    ensures Link(t1, ids, user, name, now).None?
        <==> SomeNameFails(t, user, names + [name])
    ensures Link(t1, ids, user, name, now).Some? ==>
              var (t2, pid) := Link(t1, ids, user, name, now).value;
              && Met(t, t2, user, names + [name]) && OnlyPeople(t1, t2) && IdsOk(t2.aliases, user, ids)
              && pid == OwnerOf(t2.aliases, user, name) && LinkOk(t2.people, user, pid)
  {
    MetHas(t, t1, user, names);
    hide Met, Link, Inv, KeysOf, KeyOf, OwnerOf, Refused, SomeNameFails, IdsOk, OnlyPeople;
    LinkLeadsToOwner(t1, ids, user, name, now);
    NameFailureSplits(t, user, names, name);
    if name != "" {
      RefusedLater(t, t1, user, names, name);
    }
    if Link(t1, ids, user, name, now).Some? {
      MeetOneMore(t, t1, Link(t1, ids, user, name, now).value.0, user, names, name);
    }
  }

  lemma MetHas(t: Tables, t1: Tables, user: int, names: seq<string>)
    requires Met(t, t1, user, names)
    ensures Inv(t1) && !SomeNameFails(t, user, names)
  {
    hide Inv, SomeNameFails;
  }

  // The same for upsertPerson itself.
  lemma UpsertMeets(t: Tables, t1: Tables, user: int, names: seq<string>, name: string, now: Instant)
    requires Met(t, t1, user, names) && name != ""
    ensures Upsert(t1, user, name, now).1.None? <==> SomeNameFails(t, user, names + [name])
    ensures Upsert(t1, user, name, now).1.Some? ==>
              var (t2, id) := Upsert(t1, user, name, now);
              && Met(t, t2, user, names + [name]) && OnlyPeople(t1, t2) && Usable(name)
              && id == OwnerOf(t2.aliases, user, name) && ActiveFor(t2.people, user, id.value)
  {
    MetHas(t, t1, user, names);
    InvHasIdentity(t1);
    hide Met, Upsert, Inv, KeysOf, KeyOf, OwnerOf, Refused, SomeNameFails, OnlyPeople, Usable;
    UpsertFailsExactly(t1, user, name, now);
    NameFailureSplits(t, user, names, name);
    RefusedLater(t, t1, user, names, name);
    if Upsert(t1, user, name, now).1.Some? {
      UpsertLeadsToOwner(t1, user, name, now);
      MeetOneMore(t, t1, Upsert(t1, user, name, now).0, user, names, name);
    }
  }

  // ---- Rows in serial order ----

  ghost predicate AllKnown(index: map<AliasKey, Alias>, user: int, names: seq<string>) {
    forall i :: 0 <= i < |names| && names[i] != "" ==> KeyOf(user, names[i]) in index
  }

  lemma MetAreKnown(t: Tables, t1: Tables, user: int, before: seq<string>, names: seq<string>)
    requires Met(t, t1, user, before + names)
    ensures AllKnown(t1.aliases, user, names)
  {
    hide Inv, Extends, Grows, NewAreActive, SomeNameFails, Usable, NormalizePersonName;
    var all := before + names;
    forall i | 0 <= i < |names| && names[i] != "" ensures KeyOf(user, names[i]) in t1.aliases {
      assert all[|before| + i] == names[i];
      assert KeyOf(user, names[i]) in KeysOf(user, all);
    }
  }

  // Rows written earlier read the same after more persons are added.
  lemma RowsStay<K, R>(index: map<AliasKey, Alias>, later: map<AliasKey, Alias>, user: int, link: K -> string,
                       row: (K, Option<int>) -> R, ks: seq<K>)
    requires Extends(index, later) && AllKnown(index, user, NamesIn(link, ks))
    ensures Rows(later, user, link, row, ks) == Rows(index, user, link, row, ks)
  {
    hide KeyOf;
    forall i | 0 <= i < |ks| ensures OwnerOf(later, user, link(ks[i])) == OwnerOf(index, user, link(ks[i])) {
      assert NamesIn(link, ks)[i] == link(ks[i]);
    }
  }

  lemma AddedNothing<R>(m: map<int, R>, start: int)
    requires forall r :: r in m ==> r < start
    ensures Added(m, m, start, [])
  {
  }

  // One more row under the next serial number, after its name was turned into a person.
  lemma AddRow<K, R>(index: map<AliasKey, Alias>, later: map<AliasKey, Alias>, user: int, link: K -> string,
                     row: (K, Option<int>) -> R, ks: seq<K>, k: K, m: map<int, R>, m1: map<int, R>, start: int)
    requires Extends(index, later) && AllKnown(index, user, NamesIn(link, ks))
    requires Added(m, m1, start, Rows(index, user, link, row, ks))
    ensures Added(m, m1[start + |ks| := row(k, OwnerOf(later, user, link(k)))], start, Rows(later, user, link, row, ks + [k]))
    ensures NamesIn(link, ks + [k]) == NamesIn(link, ks) + [link(k)]
  {
    RowsStay(index, later, user, link, row, ks);
    hide OwnerOf, AllKnown, Extends;
    assert Rows(later, user, link, row, ks + [k])
        == Rows(later, user, link, row, ks) + [row(k, OwnerOf(later, user, link(k)))];
  }

  lemma SameIndexing(t: Tables, t1: Tables)
    requires NamesIndexed(t) && t1.people == t.people && t1.aliases == t.aliases
    ensures NamesIndexed(t1)
  {
    hide NormalizePersonName;
    forall id | Active(t1.people, id) ensures NameIndexed(t1, id) {
      assert NameIndexed(t, id);
    }
  }

  lemma IdentityIgnoresRecords(t: Tables, t1: Tables)
    requires IdentityInv(t) && SerialsFresh(t1) && t1.people == t.people && t1.aliases == t.aliases
    ensures IdentityInv(t1)
  {
    hide Forest, SerialsFresh, NormalizePersonName, RowNamesUnique;
    SameIndexing(t, t1);
    hide NamesIndexed;
  }

  lemma InsertPeopleNoteKeepsInv(t: Tables, row: PeopleNote)
    requires Inv(t) && ActiveFor(t.people, row.user, row.person)
    ensures Inv(InsertPeopleNote(t, row))
  {
    IdentityIgnoresRecords(t, InsertPeopleNote(t, row));
    hide IdentityInv, ActiveFor;
  }

  lemma InsertDecisionKeepsInv(t: Tables, row: DecisionRow)
    requires Inv(t) && LinkOk(t.people, row.user, row.person)
    ensures Inv(InsertDecision(t, row))
  {
    IdentityIgnoresRecords(t, InsertDecision(t, row));
    hide IdentityInv, ActiveFor;
  }

  lemma InsertActionKeepsInv(t: Tables, row: Action)
    requires Inv(t) && LinkOk(t.people, row.user, row.person)
    ensures Inv(InsertAction(t, row))
  {
    IdentityIgnoresRecords(t, InsertAction(t, row));
    hide IdentityInv, ActiveFor;
  }

  // ---- People notes ----

  predicate PeopleNotesStorable(ks: seq<ParsedPeopleNote>) {
    forall k :: k in ks ==> PeopleNoteStorable(k)
  }

  ghost predicate NotesSaved(t: Tables, s: Progress, user: int, note: int, ks: seq<ParsedPeopleNote>) {
    && Met(t, s.t, user, NamesIn(PersonOf, ks)) && IdsOk(s.t.aliases, user, s.ids)
    && s.t == t.(people := s.t.people, aliases := s.t.aliases, nextPerson := s.t.nextPerson,
                 peopleNotes := s.t.peopleNotes, nextPeopleNote := t.nextPeopleNote + |ks|)
    && Added(t.peopleNotes, s.t.peopleNotes, t.nextPeopleNote, PeopleNoteRows(s.t.aliases, user, note, ks))
  }

  lemma NamesOfOneMore<K>(link: K -> string, ks: seq<K>, k: K)
    ensures NamesIn(link, ks + [k]) == NamesIn(link, ks) + [link(k)]
  {
  }

  lemma NamesRegroup<K>(link: K -> string, names: seq<string>, ks: seq<K>, k: K)
    ensures names + NamesIn(link, ks + [k]) == names + NamesIn(link, ks) + [link(k)]
  {
    NamesOfOneMore(link, ks, k);
  }

  lemma OneMoreId(index: map<AliasKey, Alias>, user: int, ids: map<string, int>, name: string, id: int)
    requires IdsOk(index, user, ids) && name != "" && Usable(name)
    requires OwnerOf(index, user, name) == Some(id)
    ensures IdsOk(index, user, ids[NormalizePersonName(name) := id])
  {
    hide NormalizePersonName;
  }

  lemma PeopleNoteRowIs(user: int, note: int, pn: ParsedPeopleNote, id: int)
    ensures ToPeopleNote(user, note)(pn, Some(id)).user == user && ToPeopleNote(user, note)(pn, Some(id)).person == id
  {
  }

  // The row and the ids entry of one kept item, after its person was upserted.
  lemma PeopleNoteAdded(t: Tables, s: Progress, t1: Tables, user: int, note: int, ks: seq<ParsedPeopleNote>,
                        pn: ParsedPeopleNote, id: int)
    requires NotesSaved(t, s, user, note, ks) && OnlyPeople(s.t, t1) && Met(t, t1, user, NamesIn(PersonOf, ks) + [pn.person])
    requires pn.person != "" && Usable(pn.person)
    requires OwnerOf(t1.aliases, user, pn.person) == Some(id) && ActiveFor(t1.people, user, id)
    ensures NotesSaved(t, Progress(InsertPeopleNote(t1, ToPeopleNote(user, note)(pn, Some(id))),
                                   s.ids[NormalizePersonName(pn.person) := id]), user, note, ks + [pn])
  {
    var names, row := NamesIn(PersonOf, ks), ToPeopleNote(user, note)(pn, Some(id));
    PeopleNoteRowIs(user, note, pn, id);
    hide NormalizePersonName, ToPeopleNote, Inv, Added, ActiveFor, OwnerOf, Usable, IdsOk, Met, Extends, Grows, NewAreActive;
    assert [] + names == names;
    MetAreKnown(t, s.t, user, [], names);
    AddRow(s.t.aliases, t1.aliases, user, PersonOf, ToPeopleNote(user, note), ks, pn, t.peopleNotes, s.t.peopleNotes,
           t.nextPeopleNote);
    MetHas(t, t1, user, names + [pn.person]);
    InsertPeopleNoteKeepsInv(t1, row);
    MetIgnoresRecords(t, t1, InsertPeopleNote(t1, row), user, names + [pn.person]);
    IdsStay(s.t.aliases, t1.aliases, user, s.ids);
    OneMoreId(t1.aliases, user, s.ids, pn.person, id);
  }

  lemma SaveKeptPeopleNote(t: Tables, s: Progress, user: int, note: int, ks: seq<ParsedPeopleNote>,
                           pn: ParsedPeopleNote, now: Instant)
    requires NotesSaved(t, s, user, note, ks) && TrimSpace(pn.person) != ""
    ensures SavePeopleNote(s, user, note, pn, now).None?
        <==> SomeNameFails(t, user, NamesIn(PersonOf, ks + [pn])) || !PeopleNoteStorable(pn)
    ensures SavePeopleNote(s, user, note, pn, now).Some? ==>
              NotesSaved(t, SavePeopleNote(s, user, note, pn, now).value, user, note, ks + [pn])
  {
    var name := pn.person;
    TrimSpaceShape(name);
    assert name != "";
    NotesSavedMet(t, s, user, note, ks);
    hide NormalizePersonName, TrimSpace, Upsert, OwnerOf, Usable, Met, Blank, PeopleNoteStorable, SomeNameFails, OnlyPeople,
      NotesSaved, ToPeopleNote, InsertPeopleNote, ActiveFor;
    NamesOfOneMore(PersonOf, ks, pn);
    UpsertIgnoresTrim(s.t, user, name, now);
    UpsertMeets(t, s.t, user, NamesIn(PersonOf, ks), name, now);
    var (t1, id) := Upsert(s.t, user, name, now);
    if id.Some? {
      PeopleNoteAdded(t, s, t1, user, note, ks, pn, id.value);
    }
  }

  lemma NotesSavedMet(t: Tables, s: Progress, user: int, note: int, ks: seq<ParsedPeopleNote>)
    requires NotesSaved(t, s, user, note, ks)
    ensures Met(t, s.t, user, NamesIn(PersonOf, ks)) && IdsOk(s.t.aliases, user, s.ids)
    ensures !SomeNameFails(t, user, NamesIn(PersonOf, ks))
  {
    hide Added, Inv, SomeNameFails, IdsOk;
  }

  lemma NoNotesSaved(t: Tables, user: int, note: int)
    requires Inv(t)
    ensures NotesSaved(t, Progress(t, map[]), user, note, []) && !SomeNameFails(t, user, [])
  {
    NothingMet(t, user);
    SerialsAreFresh(t);
    hide Inv, Met;
  }

  lemma SerialsAreFresh(t: Tables)
    requires Inv(t)
    ensures SerialsFresh(t)
  {
  }

  lemma {:induction false} SavePeopleNotesLeaves(t: Tables, user: int, note: int, items: seq<ParsedPeopleNote>, now: Instant)
    requires Inv(t)
    ensures var saved, ks := SavePeopleNotes(t, user, note, items, now), KeptPeopleNotes(items);
            && (saved.None? <==> SomeNameFails(t, user, NamesIn(PersonOf, ks)) || !PeopleNotesStorable(ks))
            && (saved.Some? ==> NotesSaved(t, saved.value, user, note, ks))
  {
    hide Inv, SomeNameFails, NotesSaved, SavePeopleNote, PeopleNoteStorable, TrimSpace;
    if items == [] {
      NoNotesSaved(t, user, note);
    } else {
      var n := |items| - 1;
      var ks, pn := KeptPeopleNotes(items[..n]), items[n];
      SavePeopleNotesLeaves(t, user, note, items[..n], now);
      NamesOfOneMore(PersonOf, ks, pn);
      var before := SavePeopleNotes(t, user, note, items[..n], now);
      if TrimSpace(pn.person) == "" {
        assert KeptPeopleNotes(items) == ks;
        SkipPeopleNote(t, user, note, before, pn, now);
      } else {
        if before.Some? {
          SaveKeptPeopleNote(t, before.value, user, note, ks, pn, now);
        } else if SomeNameFails(t, user, NamesIn(PersonOf, ks)) {
          FailureStays(t, user, NamesIn(PersonOf, ks), [pn.person]);
        }
      }
    }
  }

  lemma SkipPeopleNote(t: Tables, user: int, note: int, s: Option<Progress>, pn: ParsedPeopleNote, now: Instant)
    requires TrimSpace(pn.person) == ""
    ensures s.Some? ==> SavePeopleNote(s.value, user, note, pn, now) == s
  {
  }

  // ---- Decisions ----

  predicate DecisionsStorable(ks: seq<Entities.Decision>) {
    forall k :: k in ks ==> DecisionStorable(k)
  }

  // t1 is t0, in which the names were met already, with the decisions' persons and rows.
  ghost predicate DecisionsSaved(t: Tables, names: seq<string>, t0: Tables, t1: Tables, ids: map<string, int>, user: int,
                                 note: int, ks: seq<Entities.Decision>) {
    && Met(t, t1, user, names + NamesIn(DecisionLink, ks)) && IdsOk(t1.aliases, user, ids) && Extends(t0.aliases, t1.aliases)
    && t1 == t0.(people := t1.people, aliases := t1.aliases, nextPerson := t1.nextPerson,
                 decisions := t1.decisions, nextDecision := t0.nextDecision + |ks|)
    && Added(t0.decisions, t1.decisions, t0.nextDecision, DecisionRows(t1.aliases, user, note, ks))
  }

  lemma DecisionRowIs(user: int, note: int, d: Entities.Decision, owner: Option<int>)
    ensures ToDecisionRow(user, note)(d, owner).user == user && ToDecisionRow(user, note)(d, owner).person == owner
  {
  }

  lemma DecisionInsertKeepsMet(t: Tables, t1: Tables, user: int, names: seq<string>, row: DecisionRow)
    requires Met(t, t1, user, names) && LinkOk(t1.people, row.user, row.person)
    ensures Met(t, InsertDecision(t1, row), user, names)
  {
    MetHas(t, t1, user, names);
    hide Inv, Met;
    InsertDecisionKeepsInv(t1, row);
    MetIgnoresRecords(t, t1, InsertDecision(t1, row), user, names);
  }

  lemma DecisionAdded(t: Tables, names: seq<string>, t0: Tables, t1: Tables, t2: Tables, ids: map<string, int>, user: int,
                      note: int, ks: seq<Entities.Decision>, d: Entities.Decision, owner: Option<int>)
    requires DecisionsSaved(t, names, t0, t1, ids, user, note, ks) && OnlyPeople(t1, t2)
    requires Met(t, t2, user, names + NamesIn(DecisionLink, ks) + [d.linkedPerson]) && IdsOk(t2.aliases, user, ids)
    requires owner == OwnerOf(t2.aliases, user, d.linkedPerson) && LinkOk(t2.people, user, owner)
    ensures DecisionsSaved(t, names, t0, InsertDecision(t2, ToDecisionRow(user, note)(d, owner)), ids, user, note, ks + [d])
  {
    var links, row := NamesIn(DecisionLink, ks), ToDecisionRow(user, note)(d, owner);
    DecisionRowIs(user, note, d, owner);
    hide NormalizePersonName, ToDecisionRow, Inv, Added, LinkOk, Rows, NamesIn, OwnerOf, IdsOk, Met, Extends, Grows, NewAreActive;
    ExtendsTransitive(t0.aliases, t1.aliases, t2.aliases);
    MetAreKnown(t, t1, user, names, links);
    AddRow(t1.aliases, t2.aliases, user, DecisionLink, ToDecisionRow(user, note), ks, d, t0.decisions, t1.decisions,
           t0.nextDecision);
    NamesRegroup(DecisionLink, names, ks, d);
    DecisionInsertKeepsMet(t, t2, user, names + links + [d.linkedPerson], row);
  }

  lemma ExtendsTransitive(a: map<AliasKey, Alias>, b: map<AliasKey, Alias>, c: map<AliasKey, Alias>)
    requires Extends(a, b) && Extends(b, c)
    ensures Extends(a, c)
  {
  }

  lemma DecisionsSavedMet(t: Tables, names: seq<string>, t0: Tables, t1: Tables, ids: map<string, int>, user: int,
                          note: int, ks: seq<Entities.Decision>)
    requires DecisionsSaved(t, names, t0, t1, ids, user, note, ks)
    ensures Met(t, t1, user, names + NamesIn(DecisionLink, ks)) && IdsOk(t1.aliases, user, ids)
    ensures !SomeNameFails(t, user, names + NamesIn(DecisionLink, ks))
  {
    hide Added, Inv, SomeNameFails, IdsOk, Extends;
  }

  lemma SaveKeptDecision(t: Tables, names: seq<string>, t0: Tables, t1: Tables, ids: map<string, int>, user: int,
                         note: int, ks: seq<Entities.Decision>, raw: Entities.Decision, now: Instant)
    requires DecisionsSaved(t, names, t0, t1, ids, user, note, ks) && Entities.NormalizeDecision(raw).Some?
    ensures var d, saved := Entities.NormalizeDecision(raw).value, SaveDecision(t1, ids, user, note, raw, now);
            && (saved.None? <==> SomeNameFails(t, user, names + NamesIn(DecisionLink, ks + [d])) || !DecisionStorable(d))
            && (saved.Some? ==> DecisionsSaved(t, names, t0, saved.value, ids, user, note, ks + [d]))
  {
    DecisionsSavedMet(t, names, t0, t1, ids, user, note, ks);
    hide Link, Met, OwnerOf, SomeNameFails, OnlyPeople, DecisionsSaved, ToDecisionRow, InsertDecision, LinkOk, IdsOk,
      DecisionStorable, Entities.NormalizeDecision;
    var d := Entities.NormalizeDecision(raw).value;
    var links := NamesIn(DecisionLink, ks);
    NamesRegroup(DecisionLink, names, ks, d);
    LinkMeets(t, t1, ids, user, names + links, d.linkedPerson, now);
    var linked := Link(t1, ids, user, d.linkedPerson, now);
    if linked.Some? {
      DecisionAdded(t, names, t0, t1, linked.value.0, ids, user, note, ks, d, linked.value.1);
    }
  }

  lemma NoDecisionsSaved(t: Tables, names: seq<string>, t0: Tables, ids: map<string, int>, user: int, note: int)
    requires Met(t, t0, user, names) && IdsOk(t0.aliases, user, ids)
    ensures DecisionsSaved(t, names, t0, t0, ids, user, note, []) && !SomeNameFails(t, user, names + NamesIn(DecisionLink, []))
  {
    MetHas(t, t0, user, names);
    SerialsAreFresh(t0);
    AddedNothing(t0.decisions, t0.nextDecision);
    assert DecisionRows(t0.aliases, user, note, []) == [];
    assert names + NamesIn(DecisionLink, []) == names;
    hide Met, Inv, IdsOk, SomeNameFails, Added, SerialsFresh;
  }

  lemma {:induction false} SaveDecisionsLeaves(t: Tables, names: seq<string>, t0: Tables, ids: map<string, int>, user: int,
                                               note: int, ds: seq<Entities.Decision>, now: Instant)
    requires Met(t, t0, user, names) && IdsOk(t0.aliases, user, ids)
    ensures var saved, ks := SaveDecisions(t0, ids, user, note, ds, now), KeptDecisions(ds);
            && (saved.None? <==> SomeNameFails(t, user, names + NamesIn(DecisionLink, ks)) || !DecisionsStorable(ks))
            && (saved.Some? ==> DecisionsSaved(t, names, t0, saved.value, ids, user, note, ks))
  {
    hide Met, IdsOk, SomeNameFails, DecisionsSaved, SaveDecision, DecisionStorable, Entities.NormalizeDecision;
    if ds == [] {
      NoDecisionsSaved(t, names, t0, ids, user, note);
    } else {
      var n := |ds| - 1;
      var ks := KeptDecisions(ds[..n]);
      SaveDecisionsLeaves(t, names, t0, ids, user, note, ds[..n], now);
      var before := SaveDecisions(t0, ids, user, note, ds[..n], now);
      match Entities.NormalizeDecision(ds[n])
      case None =>
        assert KeptDecisions(ds) == ks;
        SkipDecision(before, ids, user, note, ds[n], now);
      case Some(d) =>
        var links := names + NamesIn(DecisionLink, ks);
        NamesRegroup(DecisionLink, names, ks, d);
        if before.Some? {
          SaveKeptDecision(t, names, t0, before.value, ids, user, note, ks, ds[n], now);
        } else if SomeNameFails(t, user, links) {
          FailureStays(t, user, links, [d.linkedPerson]);
        }
    }
  }

  lemma SkipDecision(t: Option<Tables>, ids: map<string, int>, user: int, note: int, d: Entities.Decision, now: Instant)
    requires Entities.NormalizeDecision(d).None?
    ensures t.Some? ==> SaveDecision(t.value, ids, user, note, d, now) == t
  {
  }

  // ---- Actions ----

  predicate ActionsStorable(ks: seq<ParsedAction>) {
    forall k :: k in ks ==> ActionStorable(k)
  }

  ghost predicate ActionsSaved(t: Tables, names: seq<string>, t0: Tables, t1: Tables, ids: map<string, int>, user: int,
                               note: int, ks: seq<ParsedAction>) {
    && Met(t, t1, user, names + NamesIn(ActionLink, ks)) && IdsOk(t1.aliases, user, ids) && Extends(t0.aliases, t1.aliases)
    && t1 == t0.(people := t1.people, aliases := t1.aliases, nextPerson := t1.nextPerson,
                 actions := t1.actions, nextAction := t0.nextAction + |ks|)
    && Added(t0.actions, t1.actions, t0.nextAction, ActionRows(t1.aliases, user, note, ks))
  }

  lemma ActionRowIs(user: int, note: int, a: ParsedAction, owner: Option<int>)
    ensures ToAction(user, note)(a, owner).user == user && ToAction(user, note)(a, owner).person == owner
  {
  }

  lemma ActionInsertKeepsMet(t: Tables, t1: Tables, user: int, names: seq<string>, row: Action)
    requires Met(t, t1, user, names) && LinkOk(t1.people, row.user, row.person)
    ensures Met(t, InsertAction(t1, row), user, names)
  {
    MetHas(t, t1, user, names);
    hide Inv, Met;
    InsertActionKeepsInv(t1, row);
    MetIgnoresRecords(t, t1, InsertAction(t1, row), user, names);
  }

  lemma ActionAdded(t: Tables, names: seq<string>, t0: Tables, t1: Tables, t2: Tables, ids: map<string, int>, user: int,
                    note: int, ks: seq<ParsedAction>, a: ParsedAction, owner: Option<int>)
    requires ActionsSaved(t, names, t0, t1, ids, user, note, ks) && OnlyPeople(t1, t2)
    requires Met(t, t2, user, names + NamesIn(ActionLink, ks) + [a.linked]) && IdsOk(t2.aliases, user, ids)
    requires owner == OwnerOf(t2.aliases, user, a.linked) && LinkOk(t2.people, user, owner)
    ensures ActionsSaved(t, names, t0, InsertAction(t2, ToAction(user, note)(a, owner)), ids, user, note, ks + [a])
  {
    var links, row := NamesIn(ActionLink, ks), ToAction(user, note)(a, owner);
    ActionRowIs(user, note, a, owner);
    hide NormalizePersonName, ToAction, Inv, Added, LinkOk, Rows, NamesIn, OwnerOf, IdsOk, Met, Extends, Grows, NewAreActive;
    ExtendsTransitive(t0.aliases, t1.aliases, t2.aliases);
    MetAreKnown(t, t1, user, names, links);
    AddRow(t1.aliases, t2.aliases, user, ActionLink, ToAction(user, note), ks, a, t0.actions, t1.actions, t0.nextAction);
    NamesRegroup(ActionLink, names, ks, a);
    ActionInsertKeepsMet(t, t2, user, names + links + [a.linked], row);
  }

  lemma ActionsSavedMet(t: Tables, names: seq<string>, t0: Tables, t1: Tables, ids: map<string, int>, user: int,
                        note: int, ks: seq<ParsedAction>)
    requires ActionsSaved(t, names, t0, t1, ids, user, note, ks)
    ensures Met(t, t1, user, names + NamesIn(ActionLink, ks)) && IdsOk(t1.aliases, user, ids)
    ensures !SomeNameFails(t, user, names + NamesIn(ActionLink, ks))
  {
    hide Added, Inv, SomeNameFails, IdsOk, Extends;
  }

  lemma SaveKeptAction(t: Tables, names: seq<string>, t0: Tables, t1: Tables, ids: map<string, int>, user: int,
                       note: int, ks: seq<ParsedAction>, a: ParsedAction, now: Instant)
    requires ActionsSaved(t, names, t0, t1, ids, user, note, ks) && TrimSpace(a.title) != ""
    ensures var saved := SaveAction(t1, ids, user, note, a, now);
            && (saved.None? <==> SomeNameFails(t, user, names + NamesIn(ActionLink, ks + [a])) || !ActionStorable(a))
            && (saved.Some? ==> ActionsSaved(t, names, t0, saved.value, ids, user, note, ks + [a]))
  {
    ActionsSavedMet(t, names, t0, t1, ids, user, note, ks);
    hide Link, Met, OwnerOf, SomeNameFails, OnlyPeople, ActionsSaved, ToAction, InsertAction, LinkOk, IdsOk,
      ActionStorable, TrimSpace;
    var links := NamesIn(ActionLink, ks);
    NamesRegroup(ActionLink, names, ks, a);
    LinkMeets(t, t1, ids, user, names + links, a.linked, now);
    var linked := Link(t1, ids, user, a.linked, now);
    if linked.Some? {
      ActionAdded(t, names, t0, t1, linked.value.0, ids, user, note, ks, a, linked.value.1);
    }
  }

  lemma NoActionsSaved(t: Tables, names: seq<string>, t0: Tables, ids: map<string, int>, user: int, note: int)
    requires Met(t, t0, user, names) && IdsOk(t0.aliases, user, ids)
    ensures ActionsSaved(t, names, t0, t0, ids, user, note, []) && !SomeNameFails(t, user, names + NamesIn(ActionLink, []))
  {
    MetHas(t, t0, user, names);
    SerialsAreFresh(t0);
    AddedNothing(t0.actions, t0.nextAction);
    assert ActionRows(t0.aliases, user, note, []) == [];
    assert names + NamesIn(ActionLink, []) == names;
    hide Met, Inv, IdsOk, SomeNameFails, Added, SerialsFresh;
  }

  lemma {:induction false} SaveActionsLeaves(t: Tables, names: seq<string>, t0: Tables, ids: map<string, int>, user: int,
                                             note: int, items: seq<ParsedAction>, now: Instant)
    requires Met(t, t0, user, names) && IdsOk(t0.aliases, user, ids)
    ensures var saved, ks := SaveActions(t0, ids, user, note, items, now), KeptActions(items);
            && (saved.None? <==> SomeNameFails(t, user, names + NamesIn(ActionLink, ks)) || !ActionsStorable(ks))
            && (saved.Some? ==> ActionsSaved(t, names, t0, saved.value, ids, user, note, ks))
  {
    hide Met, IdsOk, SomeNameFails, ActionsSaved, SaveAction, ActionStorable, TrimSpace;
    if items == [] {
      NoActionsSaved(t, names, t0, ids, user, note);
    } else {
      var n := |items| - 1;
      var ks, a := KeptActions(items[..n]), items[n];
      SaveActionsLeaves(t, names, t0, ids, user, note, items[..n], now);
      var before := SaveActions(t0, ids, user, note, items[..n], now);
      if TrimSpace(a.title) == "" {
        assert KeptActions(items) == ks;
        SkipAction(before, ids, user, note, a, now);
      } else {
        var links := names + NamesIn(ActionLink, ks);
        NamesRegroup(ActionLink, names, ks, a);
        if before.Some? {
          SaveKeptAction(t, names, t0, before.value, ids, user, note, ks, a, now);
        } else if SomeNameFails(t, user, links) {
          FailureStays(t, user, links, [a.linked]);
        }
      }
    }
  }

  lemma SkipAction(t: Option<Tables>, ids: map<string, int>, user: int, note: int, a: ParsedAction, now: Instant)
    requires TrimSpace(a.title) == ""
    ensures t.Some? ==> SaveAction(t.value, ids, user, note, a, now) == t
  {
  }

  // ---- Mentions ----

  predicate MentionsStorable(rs: seq<Entities.Record>) {
    forall r :: r in rs ==> MentionStorable(r)
  }

  // The mention rows that a list of records with distinct keys turns into.
  function MentionRows(user: int, note: int, rs: seq<Entities.Record>): map<MentionKey, MentionRow> {
    if rs == [] then map[]
    else
      var r := rs[|rs| - 1];
      MentionRows(user, note, rs[..|rs| - 1])[MentionKey(note, r.typ, r.normalized) := ToMentionRow(user, r)]
  }

  lemma {:induction false} MentionRowsShape(user: int, note: int, rs: seq<Entities.Record>)
    ensures forall k :: k in MentionRows(user, note, rs) ==> k.note == note && (k.typ, k.value) in Entities.Keys(rs)
    ensures forall k :: k in MentionRows(user, note, rs) ==> MentionRows(user, note, rs)[k].user == user
  {
    if rs != [] {
      var n := |rs| - 1;
      MentionRowsShape(user, note, rs[..n]);
      assert Entities.Keys(rs) == Entities.Keys(rs[..n]) + [Entities.Key(rs[n])];
    }
  }

  // Whatever mentions there are, the loop fails exactly on a text that the database refuses.
  lemma {:induction false} SaveMentionsFails(t: Tables, user: int, note: int, rs: seq<Entities.Record>)
    ensures SaveMentions(t, user, note, rs).None? <==> !MentionsStorable(rs)
    ensures SaveMentions(t, user, note, rs).Some? ==>
              SaveMentions(t, user, note, rs).value == t.(mentions := SaveMentions(t, user, note, rs).value.mentions)
  {
    hide MentionStorable, ToMentionRow;
    if rs != [] {
      var n := |rs| - 1;
      SaveMentionsFails(t, user, note, rs[..n]);
      assert rs == rs[..n] + [rs[n]];
    }
  }

  // With distinct keys and no older rows of the note, no insert meets its ON CONFLICT clause.
  lemma {:induction false} SaveMentionsLeaves(t: Tables, user: int, note: int, rs: seq<Entities.Record>)
    requires Entities.Distinct(Entities.Keys(rs)) && SaveMentions(t, user, note, rs).Some?
    requires forall k :: k in t.mentions ==> k.note != note
    ensures SaveMentions(t, user, note, rs).value == t.(mentions := t.mentions + MentionRows(user, note, rs))
  {
    if rs == [] {
      assert t.mentions + map[] == t.mentions;
    } else {
      var n := |rs| - 1;
      hide Entities.Distinct, Entities.Keys, SaveMention;
      LastKeyIsNew(user, note, rs);
      SaveMentionsLeaves(t, user, note, rs[..n]);
      SaveNewMention(t, user, note, MentionRows(user, note, rs[..n]), rs[n]);
    }
  }

  lemma SaveNewMention(t: Tables, user: int, note: int, ms: map<MentionKey, MentionRow>, r: Entities.Record)
    requires MentionKey(note, r.typ, r.normalized) !in t.mentions + ms
    requires SaveMention(t.(mentions := t.mentions + ms), user, note, r).Some?
    ensures SaveMention(t.(mentions := t.mentions + ms), user, note, r).value
         == t.(mentions := t.mentions + ms[MentionKey(note, r.typ, r.normalized) := ToMentionRow(user, r)])
  {
    var k := MentionKey(note, r.typ, r.normalized);
    var row := ToMentionRow(user, r);
    assert (t.mentions + ms)[k := row] == t.mentions + ms[k := row];
  }

  lemma LastKeyIsNew(user: int, note: int, rs: seq<Entities.Record>)
    requires rs != [] && Entities.Distinct(Entities.Keys(rs))
    ensures Entities.Distinct(Entities.Keys(rs[..|rs| - 1]))
    ensures MentionKey(note, rs[|rs| - 1].typ, rs[|rs| - 1].normalized) !in MentionRows(user, note, rs[..|rs| - 1])
  {
    var n := |rs| - 1;
    MentionRowsShape(user, note, rs[..n]);
    hide MentionRows;
    assert Entities.Keys(rs[..n]) == Entities.Keys(rs)[..n];
    assert forall i :: 0 <= i < n ==> Entities.Keys(rs)[i] != Entities.Keys(rs)[n];
  }

  // ---- The rows of one note ----

  datatype NoteRows = NoteRows(peopleNotes: map<int, PeopleNote>, decisions: map<int, DecisionRow>,
                               actions: map<int, Action>, mentions: map<MentionKey, MentionRow>)

  const NO_ROWS := NoteRows(map[], map[], map[], map[])

  function PeopleNoteAbout(note: int): PeopleNote -> bool { (n: PeopleNote) => n.note == Some(note) }
  function DecisionAbout(note: int): DecisionRow -> bool { (d: DecisionRow) => d.note == note }
  function ActionAbout(note: int): Action -> bool { (a: Action) => a.note == Some(note) }

  // The rows of a table that meet a condition.
  function Of<R>(m: map<int, R>, mine: R -> bool): map<int, R> {
    map r | r in m && mine(m[r]) :: m[r]
  }

  function MentionsFor(m: map<MentionKey, MentionRow>, note: int): map<MentionKey, MentionRow> {
    map k | k in m && k.note == note :: m[k]
  }

  function RowsFor(t: Tables, note: int): NoteRows {
    NoteRows(Of(t.peopleNotes, PeopleNoteAbout(note)), Of(t.decisions, DecisionAbout(note)),
             Of(t.actions, ActionAbout(note)), MentionsFor(t.mentions, note))
  }

  // m holds exactly the rows, in serial order.
  ghost predicate Holds<R>(m: map<int, R>, rows: seq<R>) {
    exists start: int :: IsBlock(m, start, rows)
  }

  ghost predicate IsBlock<R>(m: map<int, R>, start: int, rows: seq<R>) {
    && (forall r :: r in m <==> start <= r < start + |rows|)
    && forall i :: 0 <= i < |rows| ==> start + i in m && m[start + i] == rows[i]
  }

  // Each name is there and leads to a person.
  ghost predicate AllLead(index: map<AliasKey, Alias>, user: int, names: seq<string>) {
    forall i :: 0 <= i < |names| && names[i] != "" ==> !Blank(names[i]) && KeyOf(user, names[i]) in index
  }

  // rows are exactly what the parsed note p gives, with names read in the alias index.
  ghost predicate Derived(rows: NoteRows, index: map<AliasKey, Alias>, user: int, note: int, p: Parsed) {
    && AllLead(index, user, NamesOf(p))
    && Holds(rows.peopleNotes, PeopleNoteRows(index, user, note, KeptPeopleNotes(p.peopleNotes)))
    && Holds(rows.decisions, DecisionRows(index, user, note, KeptDecisions(p.decisions)))
    && Holds(rows.actions, ActionRows(index, user, note, KeptActions(p.actions)))
    && rows.mentions == MentionRows(user, note, Entities.NormalizeMentions(p.mentions).out)
  }

  // DELETE ... WHERE user_id=$1 AND note_id=$2, per table.
  function DeletePeopleNotes(m: map<int, PeopleNote>, user: int, note: int): map<int, PeopleNote> {
    map r | r in m && !(m[r].user == user && m[r].note == Some(note)) :: m[r]
  }

  function DeleteDecisions(m: map<int, DecisionRow>, user: int, note: int): map<int, DecisionRow> {
    map r | r in m && !(m[r].user == user && m[r].note == note) :: m[r]
  }

  function DeleteActions(m: map<int, Action>, user: int, note: int): map<int, Action> {
    map r | r in m && !(m[r].user == user && m[r].note == Some(note)) :: m[r]
  }

  function DeleteMentions(m: map<MentionKey, MentionRow>, user: int, note: int): map<MentionKey, MentionRow> {
    map k | k in m && !(m[k].user == user && k.note == note) :: m[k]
  }

  function DeleteForNote(t: Tables, user: int, note: int): Tables {
    t.(actions := DeleteActions(t.actions, user, note),
       peopleNotes := DeletePeopleNotes(t.peopleNotes, user, note),
       decisions := DeleteDecisions(t.decisions, user, note),
       mentions := DeleteMentions(t.mentions, user, note))
  }

  // Every row of the note belongs to the user.
  ghost predicate RowsOwned(rows: NoteRows, user: int) {
    && (forall r :: r in rows.peopleNotes ==> rows.peopleNotes[r].user == user)
    && (forall r :: r in rows.decisions ==> rows.decisions[r].user == user)
    && (forall r :: r in rows.actions ==> rows.actions[r].user == user)
    && (forall k :: k in rows.mentions ==> rows.mentions[k].user == user)
  }

  // The deletes empty the note's own rows.
  lemma DeleteClears(t: Tables, user: int, note: int)
    requires RowsOwned(RowsFor(t, note), user)
    ensures RowsFor(DeleteForNote(t, user, note), note) == NO_ROWS
  {
    DeleteEmpties(t.peopleNotes, DeletePeopleNotes(t.peopleNotes, user, note), PeopleNoteAbout(note),
                  (n: PeopleNote) => n.user == user);
    DeleteEmpties(t.decisions, DeleteDecisions(t.decisions, user, note), DecisionAbout(note), (d: DecisionRow) => d.user == user);
    DeleteEmpties(t.actions, DeleteActions(t.actions, user, note), ActionAbout(note), (a: Action) => a.user == user);
    hide Of, DeletePeopleNotes, DeleteDecisions, DeleteActions;
    forall k | k in t.mentions && k.note == note ensures t.mentions[k].user == user {
      assert k in RowsFor(t, note).mentions;
    }
    assert MentionsFor(DeleteMentions(t.mentions, user, note), note) == map[];
  }

  lemma DeleteEmpties<R>(m: map<int, R>, m1: map<int, R>, mine: R -> bool, owned: R -> bool)
    requires forall r :: r in Of(m, mine) ==> owned(m[r])
    requires forall r :: r in m1 ==> r in m && m1[r] == m[r] && !(owned(m[r]) && mine(m[r]))
    ensures Of(m1, mine) == map[]
  {
    forall r | r in m1 ensures !mine(m1[r]) {
      assert mine(m[r]) ==> r in Of(m, mine);
    }
  }

  // The deletes leave every other note's rows alone.
  lemma DeleteSparesOthers(t: Tables, user: int, note: int, other: int)
    requires other != note
    ensures RowsFor(DeleteForNote(t, user, note), other) == RowsFor(t, other)
  {
    assert Some(other) != Some(note);
    DeleteKeeps(t.peopleNotes, DeletePeopleNotes(t.peopleNotes, user, note), PeopleNoteAbout(other));
    DeleteKeeps(t.decisions, DeleteDecisions(t.decisions, user, note), DecisionAbout(other));
    DeleteKeeps(t.actions, DeleteActions(t.actions, user, note), ActionAbout(other));
    assert MentionsFor(DeleteMentions(t.mentions, user, note), other) == MentionsFor(t.mentions, other);
    hide Of, DeletePeopleNotes, DeleteDecisions, DeleteActions;
  }

  lemma DeleteKeeps<R>(m: map<int, R>, m1: map<int, R>, mine: R -> bool)
    requires forall r :: r in m1 ==> r in m && m1[r] == m[r]
    requires forall r :: r in m && mine(m[r]) ==> r in m1
    ensures Of(m1, mine) == Of(m, mine)
  {
    var before, after := Of(m, mine), Of(m1, mine);
    forall r ensures (r in before <==> r in after) && (r in before ==> before[r] == after[r]) {
    }
    assert before == after;
  }

  lemma DeleteKeepsInv(t: Tables, user: int, note: int)
    requires Inv(t)
    ensures Inv(DeleteForNote(t, user, note))
  {
    IdentityIgnoresRecords(t, DeleteForNote(t, user, note));
    hide IdentityInv, ActiveFor;
  }

  ghost predicate NoRowsYet(t: Tables, note: int) {
    RowsFor(t, note) == NO_ROWS
  }

  lemma NoneAreMine<R>(m: map<int, R>, mine: R -> bool)
    requires Of(m, mine) == map[]
    ensures forall r :: r in m ==> !mine(m[r])
  {
    forall r | r in m ensures !mine(m[r]) {
      assert r !in Of(m, mine);
    }
  }

  // If only the added rows meet the condition, they are the rows that do.
  lemma AddedAreMine<R>(m: map<int, R>, m1: map<int, R>, start: int, rows: seq<R>, mine: R -> bool)
    requires Added(m, m1, start, rows) && Of(m, mine) == map[]
    requires forall i :: 0 <= i < |rows| ==> mine(rows[i])
    ensures Holds(Of(m1, mine), rows)
  {
    NoneAreMine(m, mine);
    forall r | r in m1 && r !in m ensures mine(m1[r]) {
      assert m1[start + (r - start)] == rows[r - start];
    }
    assert IsBlock(Of(m1, mine), start, rows);
  }

  // If no added row meets the condition, the rows that do are the old ones.
  lemma AddedAreOthers<R>(m: map<int, R>, m1: map<int, R>, start: int, rows: seq<R>, mine: R -> bool)
    requires Added(m, m1, start, rows)
    requires forall i :: 0 <= i < |rows| ==> !mine(rows[i])
    ensures Of(m1, mine) == Of(m, mine)
  {
    forall r | r in m1 && r !in m ensures !mine(m1[r]) {
      assert m1[start + (r - start)] == rows[r - start];
    }
    var before, after := Of(m, mine), Of(m1, mine);
    forall r ensures (r in before <==> r in after) && (r in before ==> before[r] == after[r]) {
    }
    assert before == after;
  }

  lemma HeldRowsMeet<R>(m: map<int, R>, rows: seq<R>, mine: R -> bool)
    requires Holds(m, rows) && forall i :: 0 <= i < |rows| ==> mine(rows[i])
    ensures forall r :: r in m ==> mine(m[r])
  {
    var start: int :| IsBlock(m, start, rows);
    forall r | r in m ensures mine(m[r]) {
      assert m[start + (r - start)] == rows[r - start];
    }
  }

  lemma PeopleNoteRowsAre(index: map<AliasKey, Alias>, user: int, note: int, ks: seq<ParsedPeopleNote>)
    ensures forall row :: row in PeopleNoteRows(index, user, note, ks) ==> row.user == user
    ensures forall i :: 0 <= i < |ks| ==> PeopleNoteAbout(note)(PeopleNoteRows(index, user, note, ks)[i])
    ensures forall other, i :: other != note && 0 <= i < |ks| ==> !PeopleNoteAbout(other)(PeopleNoteRows(index, user, note, ks)[i])
  {
    hide OwnerOf, EmptyTo;
  }

  lemma DecisionRowsAre(index: map<AliasKey, Alias>, user: int, note: int, ks: seq<Entities.Decision>)
    ensures forall row :: row in DecisionRows(index, user, note, ks) ==> row.user == user
    ensures forall i :: 0 <= i < |ks| ==> DecisionAbout(note)(DecisionRows(index, user, note, ks)[i])
    ensures forall other, i :: other != note && 0 <= i < |ks| ==> !DecisionAbout(other)(DecisionRows(index, user, note, ks)[i])
  {
    hide OwnerOf;
  }

  lemma ActionRowsAre(index: map<AliasKey, Alias>, user: int, note: int, ks: seq<ParsedAction>)
    ensures forall row :: row in ActionRows(index, user, note, ks) ==> row.user == user
    ensures forall i :: 0 <= i < |ks| ==> ActionAbout(note)(ActionRows(index, user, note, ks)[i])
    ensures forall other, i :: other != note && 0 <= i < |ks| ==> !ActionAbout(other)(ActionRows(index, user, note, ks)[i])
  {
    hide OwnerOf, TrimSpace;
  }

  // ---- The whole save ----

  // The names that the save turns into persons, in its order; "" is no name.
  function NamesOf(p: Parsed): seq<string> {
    NamesIn(PersonOf, KeptPeopleNotes(p.peopleNotes)) + NamesIn(DecisionLink, KeptDecisions(p.decisions))
    + NamesIn(ActionLink, KeptActions(p.actions))
  }

  predicate TextsStorable(p: Parsed) {
    && PeopleNotesStorable(KeptPeopleNotes(p.peopleNotes))
    && DecisionsStorable(KeptDecisions(p.decisions))
    && MentionsStorable(Entities.NormalizeMentions(p.mentions).out)
    && ActionsStorable(KeptActions(p.actions))
  }

  // What the loops leave, before it is read off per note.
  ghost predicate Saved(t: Tables, t1: Tables, user: int, note: int, p: Parsed) {
    && Met(t, t1, user, NamesOf(p))
    && Added(t.peopleNotes, t1.peopleNotes, t.nextPeopleNote, PeopleNoteRows(t1.aliases, user, note, KeptPeopleNotes(p.peopleNotes)))
    && Added(t.decisions, t1.decisions, t.nextDecision, DecisionRows(t1.aliases, user, note, KeptDecisions(p.decisions)))
    && Added(t.actions, t1.actions, t.nextAction, ActionRows(t1.aliases, user, note, KeptActions(p.actions)))
    && (NoRowsYet(t, note) ==> t1.mentions == t.mentions + MentionRows(user, note, Entities.NormalizeMentions(p.mentions).out))
  }

  lemma MentionsKeepInv(t: Tables, ms: map<MentionKey, MentionRow>)
    requires Inv(t)
    ensures Inv(t.(mentions := ms))
  {
    IdentityIgnoresRecords(t, t.(mentions := ms));
    hide IdentityInv, ActiveFor;
  }

  // The mention inserts, between the decisions and the actions.
  lemma MentionsMeet(t: Tables, t2: Tables, user: int, note: int, names: seq<string>, ms: seq<Entities.Mention>)
    requires Met(t, t2, user, names) && t2.mentions == t.mentions
    ensures var rs := Entities.NormalizeMentions(ms).out;
            var saved := SaveMentions(t2, user, note, rs);
            && (saved.None? <==> !MentionsStorable(rs))
            && (saved.Some? ==>
                  && saved.value == t2.(mentions := saved.value.mentions) && Met(t, saved.value, user, names)
                  && (NoRowsYet(t, note) ==> saved.value.mentions == t.mentions + MentionRows(user, note, rs)))
  {
    var rs := Entities.NormalizeMentions(ms).out;
    Entities.BatchIsWellFormed(ms);
    MetHas(t, t2, user, names);
    SaveMentionsFails(t2, user, note, rs);
    NoMentionsYet(t, note);
    hide Entities.NormalizeMentions, SaveMentions, MentionsStorable, Inv, Met, MentionRows, NoRowsYet;
    if SaveMentions(t2, user, note, rs).Some? {
      var t3 := SaveMentions(t2, user, note, rs).value;
      MentionsKeepInv(t2, t3.mentions);
      MetIgnoresRecords(t, t2, t3, user, names);
      if NoRowsYet(t, note) {
        SaveMentionsLeaves(t2, user, note, rs);
      }
    }
  }

  lemma NoMentionsYet(t: Tables, note: int)
    ensures NoRowsYet(t, note) ==> forall k :: k in t.mentions ==> k.note != note
  {
    if NoRowsYet(t, note) {
      forall k | k in t.mentions ensures k.note != note {
        assert k !in RowsFor(t, note).mentions;
      }
    }
  }

  // Saving a parsed note fails exactly if one of the names is refused - it is blank, has text
  // that the database cannot store, or leads nowhere although some row, in a reachable state a
  // tombstone, has it - or if some text to be inserted cannot be stored; otherwise it adds exactly
  // the rows that the note yields.
  lemma SaveStructuredLeaves(t: Tables, user: int, note: int, p: Parsed, now: Instant)
    requires Inv(t)
    ensures SaveStructured(t, user, note, p, now).None? <==> SomeNameFails(t, user, NamesOf(p)) || !TextsStorable(p)
    ensures SaveStructured(t, user, note, p, now).Some? ==>
              Saved(t, SaveStructured(t, user, note, p, now).value, user, note, p)
  {
    hide Inv, SavePeopleNotes, SaveDecisions, SaveMentions, SaveActions, Met, Extends, Added, IdsOk, SomeNameFails, NoRowsYet;
    hide KeptPeopleNotes, KeptDecisions, KeptActions, Entities.NormalizeMentions, MentionRows, NamesIn, PeopleNotesStorable,
      DecisionsStorable, MentionsStorable, ActionsStorable, NotesSaved, DecisionsSaved, ActionsSaved;
    var names1 := NamesIn(PersonOf, KeptPeopleNotes(p.peopleNotes));
    var names2 := names1 + NamesIn(DecisionLink, KeptDecisions(p.decisions));
    var rest := NamesIn(ActionLink, KeptActions(p.actions));
    SavePeopleNotesLeaves(t, user, note, p.peopleNotes, now);
    if SomeNameFails(t, user, names1) {
      FailureStays(t, user, names1, NamesIn(DecisionLink, KeptDecisions(p.decisions)));
    }
    if SomeNameFails(t, user, names2) {
      FailureStays(t, user, names2, rest);
    }
    var saved1 := SavePeopleNotes(t, user, note, p.peopleNotes, now);
    if saved1.Some? {
      var s := saved1.value;
      NotesSavedMet(t, s, user, note, KeptPeopleNotes(p.peopleNotes));
      SaveDecisionsLeaves(t, names1, s.t, s.ids, user, note, p.decisions, now);
      var saved2 := SaveDecisions(s.t, s.ids, user, note, p.decisions, now);
      if saved2.Some? {
        SaveTheRest(t, s, saved2.value, user, note, p, now);
      }
    }
  }

  lemma SaveTheRest(t: Tables, s: Progress, t2: Tables, user: int, note: int, p: Parsed, now: Instant)
    requires NotesSaved(t, s, user, note, KeptPeopleNotes(p.peopleNotes))
    requires DecisionsSaved(t, NamesIn(PersonOf, KeptPeopleNotes(p.peopleNotes)), s.t, t2, s.ids, user, note,
                            KeptDecisions(p.decisions))
    ensures var rs := Entities.NormalizeMentions(p.mentions).out;
            var saved3 := SaveMentions(t2, user, note, rs);
            && (saved3.None? <==> !MentionsStorable(rs))
            && (saved3.Some? ==>
                  var saved4 := SaveActions(saved3.value, s.ids, user, note, p.actions, now);
                  && (saved4.None? <==> SomeNameFails(t, user, NamesOf(p)) || !ActionsStorable(KeptActions(p.actions)))
                  && (saved4.Some? ==> Saved(t, saved4.value, user, note, p)))
  {
    var names2 := NamesIn(PersonOf, KeptPeopleNotes(p.peopleNotes)) + NamesIn(DecisionLink, KeptDecisions(p.decisions));
    DecisionsSavedMet(t, NamesIn(PersonOf, KeptPeopleNotes(p.peopleNotes)), s.t, t2, s.ids, user, note, KeptDecisions(p.decisions));
    hide Inv, SaveMentions, SaveActions, Met, Extends, Added, IdsOk, SomeNameFails, NoRowsYet, PeopleNoteRows, DecisionRows, ActionRows;
    hide KeptPeopleNotes, KeptDecisions, KeptActions, Entities.NormalizeMentions, MentionRows, NamesIn, MentionsStorable,
      ActionsStorable, ActionsSaved;
    MentionsMeet(t, t2, user, note, names2, p.mentions);
    var saved3 := SaveMentions(t2, user, note, Entities.NormalizeMentions(p.mentions).out);
    if saved3.Some? {
      SaveActionsLeaves(t, names2, saved3.value, s.ids, user, note, p.actions, now);
      var saved4 := SaveActions(saved3.value, s.ids, user, note, p.actions, now);
      if saved4.Some? {
        RowsSaved(t, s, t2, saved3.value, saved4.value, user, note, p);
      }
    }
  }

  // Rows of the earlier loops read the same in the end.
  lemma RowsSaved(t: Tables, s: Progress, t2: Tables, t3: Tables, t4: Tables, user: int, note: int, p: Parsed)
    requires NotesSaved(t, s, user, note, KeptPeopleNotes(p.peopleNotes))
    requires DecisionsSaved(t, NamesIn(PersonOf, KeptPeopleNotes(p.peopleNotes)), s.t, t2, s.ids, user, note,
                            KeptDecisions(p.decisions))
    requires t3 == t2.(mentions := t3.mentions)
    requires NoRowsYet(t, note) ==> t3.mentions == t.mentions + MentionRows(user, note, Entities.NormalizeMentions(p.mentions).out)
    requires ActionsSaved(t, NamesIn(PersonOf, KeptPeopleNotes(p.peopleNotes)) + NamesIn(DecisionLink, KeptDecisions(p.decisions)),
                          t3, t4, s.ids, user, note, KeptActions(p.actions))
    ensures Saved(t, t4, user, note, p)
  {
    hide Inv, Met, Extends, Added, IdsOk, SomeNameFails, NoRowsYet, Rows;
    hide KeptPeopleNotes, KeptDecisions, KeptActions, Entities.NormalizeMentions, MentionRows, NamesIn;
    var pns, ds := KeptPeopleNotes(p.peopleNotes), KeptDecisions(p.decisions);
    ExtendsTransitive(s.t.aliases, t2.aliases, t4.aliases);
    assert [] + NamesIn(PersonOf, pns) == NamesIn(PersonOf, pns);
    MetAreKnown(t, s.t, user, [], NamesIn(PersonOf, pns));
    MetAreKnown(t, t2, user, NamesIn(PersonOf, pns), NamesIn(DecisionLink, ds));
    RowsStay(s.t.aliases, t4.aliases, user, PersonOf, ToPeopleNote(user, note), pns);
    RowsStay(t2.aliases, t4.aliases, user, DecisionLink, ToDecisionRow(user, note), ds);
  }

  // After a save that committed, the note's rows are exactly those derived from the parsed note.
  lemma SaveReplacesRows(t: Tables, t1: Tables, user: int, note: int, p: Parsed)
    requires NoRowsYet(t, note) && Saved(t, t1, user, note, p)
    ensures Derived(RowsFor(t1, note), t1.aliases, user, note, p)
  {
    hide PeopleNoteAbout, DecisionAbout, ActionAbout;
    hide Met, KeptPeopleNotes, KeptDecisions, KeptActions, Entities.NormalizeMentions, MentionRows, PeopleNoteRows, DecisionRows,
      ActionRows, Added, Holds, Of;
    var pns := PeopleNoteRows(t1.aliases, user, note, KeptPeopleNotes(p.peopleNotes));
    var ds := DecisionRows(t1.aliases, user, note, KeptDecisions(p.decisions));
    var acts := ActionRows(t1.aliases, user, note, KeptActions(p.actions));
    PeopleNoteRowsAre(t1.aliases, user, note, KeptPeopleNotes(p.peopleNotes));
    AddedAreMine(t.peopleNotes, t1.peopleNotes, t.nextPeopleNote, pns, PeopleNoteAbout(note));
    DecisionRowsAre(t1.aliases, user, note, KeptDecisions(p.decisions));
    AddedAreMine(t.decisions, t1.decisions, t.nextDecision, ds, DecisionAbout(note));
    ActionRowsAre(t1.aliases, user, note, KeptActions(p.actions));
    AddedAreMine(t.actions, t1.actions, t.nextAction, acts, ActionAbout(note));
    MentionRowsShape(user, note, Entities.NormalizeMentions(p.mentions).out);
    NoMentionsYet(t, note);
    MetNamesLead(t, t1, user, NamesOf(p));
    assert RowsFor(t1, note).mentions == MentionRows(user, note, Entities.NormalizeMentions(p.mentions).out);
  }

  lemma MetNamesLead(t: Tables, t1: Tables, user: int, names: seq<string>)
    requires Met(t, t1, user, names)
    ensures AllLead(t1.aliases, user, names)
  {
    hide Inv, Extends, Grows, NewAreActive, SomeNameFails, NormalizePersonName;
    forall i | 0 <= i < |names| && names[i] != "" ensures !Blank(names[i]) && KeyOf(user, names[i]) in t1.aliases {
      assert Usable(names[i]) && KeyOf(user, names[i]) in KeysOf(user, names);
    }
  }

  // No other note's rows change.
  lemma SaveSparesOthers(t: Tables, t1: Tables, user: int, note: int, p: Parsed, other: int)
    requires NoRowsYet(t, note) && Saved(t, t1, user, note, p) && other != note
    ensures RowsFor(t1, other) == RowsFor(t, other)
  {
    hide PeopleNoteAbout, DecisionAbout, ActionAbout;
    hide Met, KeptPeopleNotes, KeptDecisions, KeptActions, Entities.NormalizeMentions, MentionRows, PeopleNoteRows, DecisionRows,
      ActionRows, Added, Of;
    var pns := PeopleNoteRows(t1.aliases, user, note, KeptPeopleNotes(p.peopleNotes));
    var ds := DecisionRows(t1.aliases, user, note, KeptDecisions(p.decisions));
    var acts := ActionRows(t1.aliases, user, note, KeptActions(p.actions));
    PeopleNoteRowsAre(t1.aliases, user, note, KeptPeopleNotes(p.peopleNotes));
    AddedAreOthers(t.peopleNotes, t1.peopleNotes, t.nextPeopleNote, pns, PeopleNoteAbout(other));
    DecisionRowsAre(t1.aliases, user, note, KeptDecisions(p.decisions));
    AddedAreOthers(t.decisions, t1.decisions, t.nextDecision, ds, DecisionAbout(other));
    ActionRowsAre(t1.aliases, user, note, KeptActions(p.actions));
    AddedAreOthers(t.actions, t1.actions, t.nextAction, acts, ActionAbout(other));
    MentionRowsShape(user, note, Entities.NormalizeMentions(p.mentions).out);
    assert MentionsFor(t1.mentions, other) == MentionsFor(t.mentions, other);
  }

  // Derived rows belong to the user that the save was for.
  lemma DerivedRowsOwned(rows: NoteRows, index: map<AliasKey, Alias>, user: int, note: int, p: Parsed)
    requires Derived(rows, index, user, note, p)
    ensures RowsOwned(rows, user)
  {
    hide KeptPeopleNotes, KeptDecisions, KeptActions, Entities.NormalizeMentions, MentionRows, PeopleNoteRows, DecisionRows,
      ActionRows, Holds;
    PeopleNoteRowsAre(index, user, note, KeptPeopleNotes(p.peopleNotes));
    HeldRowsMeet(rows.peopleNotes, PeopleNoteRows(index, user, note, KeptPeopleNotes(p.peopleNotes)), (n: PeopleNote) => n.user == user);
    DecisionRowsAre(index, user, note, KeptDecisions(p.decisions));
    HeldRowsMeet(rows.decisions, DecisionRows(index, user, note, KeptDecisions(p.decisions)), (d: DecisionRow) => d.user == user);
    ActionRowsAre(index, user, note, KeptActions(p.actions));
    HeldRowsMeet(rows.actions, ActionRows(index, user, note, KeptActions(p.actions)), (a: Action) => a.user == user);
    MentionRowsShape(user, note, Entities.NormalizeMentions(p.mentions).out);
  }

  // A save keeps the invariant and touches no existing person, whatever rows the note has.
  lemma SaveStructuredKeepsInv(t: Tables, user: int, note: int, p: Parsed, now: Instant)
    requires Inv(t) && SaveStructured(t, user, note, p, now).Some?
    ensures var t1 := SaveStructured(t, user, note, p, now).value; Inv(t1) && Grows(t.people, t1.people)
  {
    hide Inv, SaveStructured, Extends, Grows, Added, NamesOf, SomeNameFails, NewAreActive, KeysOf, Usable;
    SaveStructuredLeaves(t, user, note, p, now);
  }

  // ---- What the columns say ----

  predicate NamesSomeone(pn: ParsedPeopleNote) { !Blank(pn.person) }
  predicate Decides(d: Entities.Decision) { !Blank(d.text) }
  predicate HasTitle(a: ParsedAction) { !Blank(a.title) }

  // The columns of a people note, apart from its person.
  predicate PeopleNoteSays(user: int, note: int, pn: ParsedPeopleNote, row: PeopleNote) {
    && row.user == user && row.note == Some(note) && row.review == pn.review
    && row.typ == (if Blank(pn.typ) then "context" else pn.typ)
    && row.theme == Some(pn.theme) && row.text == pn.text
  }

  // The columns of a decision, apart from its person: both texts with single spaces, cut to 1000
  // and 120 bytes.
  predicate DecisionSays(user: int, note: int, d: Entities.Decision, row: DecisionRow) {
    && row.user == user && row.note == note
    && row.text == Cut(NormalizeSpace(d.text), 1000) && row.topic == Cut(NormalizeSpace(d.topic), 120)
  }

  // The columns of an action, apart from its person and its status.
  predicate ActionSays(user: int, note: int, a: ParsedAction, row: Action) {
    && row.user == user && row.note == Some(note) && row.title == TrimSpace(a.title) && row.output == a.output
  }

  // A blank name links to nobody, and any other to the person that it leads to.
  predicate LinkedTo(index: map<AliasKey, Alias>, user: int, name: string, link: Option<int>) {
    if Blank(name) then link.None?
    else (user, NormalizePersonName(name)) in index && link == Some(index[(user, NormalizePersonName(name))].person)
  }

  function PeopleNoteFits(index: map<AliasKey, Alias>, user: int, note: int): (ParsedPeopleNote, PeopleNote) -> bool {
    (pn: ParsedPeopleNote, row: PeopleNote) => PeopleNoteSays(user, note, pn, row) && LinkedTo(index, user, pn.person, Some(row.person))
  }

  function DecisionFits(index: map<AliasKey, Alias>, user: int, note: int): (Entities.Decision, DecisionRow) -> bool {
    (d: Entities.Decision, row: DecisionRow) => DecisionSays(user, note, d, row) && LinkedTo(index, user, d.linkedPerson, row.person)
  }

  function ActionFits(index: map<AliasKey, Alias>, user: int, note: int): (ParsedAction, Action) -> bool {
    (a: ParsedAction, row: Action) => ActionSays(user, note, a, row) && row.open && LinkedTo(index, user, a.linked, row.person)
  }

  // The places of the items that are kept, in order.
  ghost predicate Places<K>(ks: seq<K>, kept: K -> bool, at: seq<nat>) {
    && (forall j :: 0 <= j < |at| ==> at[j] < |ks| && kept(ks[at[j]]))
    && (forall i, j :: 0 <= i < j < |at| ==> at[i] < at[j])
    && (forall i :: 0 <= i < |ks| && kept(ks[i]) ==> i in at)
  }

  ghost predicate Tabulates<K, R>(m: map<int, R>, ks: seq<K>, fits: (K, R) -> bool, start: int, at: seq<nat>) {
    && (forall r :: r in m <==> start <= r < start + |at|)
    && (forall j :: 0 <= j < |at| ==> at[j] < |ks| && start + j in m && fits(ks[at[j]], m[start + j]))
  }

  // m holds one fitting row for each item that is kept, in the order of the items, and no other row.
  ghost predicate RowPerItem<K, R>(m: map<int, R>, ks: seq<K>, kept: K -> bool, fits: (K, R) -> bool) {
    exists start: int, at: seq<nat> :: Places(ks, kept, at) && Tabulates(m, ks, fits, start, at)
  }

  // Each row belongs to the first mention that says its key, and holds what that mention says; below
  // 40 rows every mention that says something has its row.
  ghost predicate MentionsTell(rows: map<MentionKey, MentionRow>, user: int, note: int, ms: seq<Entities.Mention>) {
    && |rows| <= 40
    && (forall k :: k in rows ==>
          k.note == note && rows[k].user == user
          && Entities.FirstSaying(ms, Entities.Record(k.typ, rows[k].rawValue, k.value, rows[k].display, rows[k].context)))
    && (|rows| < 40 ==> forall i, r :: 0 <= i < |ms| && Entities.Says(ms[i], r) ==> MentionKey(note, r.typ, r.normalized) in rows)
  }

  // The rows say what the parsed note says, column by column.
  ghost predicate Tells(rows: NoteRows, index: map<AliasKey, Alias>, user: int, note: int, p: Parsed) {
    && RowPerItem(rows.peopleNotes, p.peopleNotes, NamesSomeone, PeopleNoteFits(index, user, note))
    && RowPerItem(rows.decisions, p.decisions, Decides, DecisionFits(index, user, note))
    && RowPerItem(rows.actions, p.actions, HasTitle, ActionFits(index, user, note))
    && MentionsTell(rows.mentions, user, note, p.mentions)
  }

  lemma PlacesStep<K>(ks: seq<K>, k: K, kept: K -> bool, at: seq<nat>)
    requires Places(ks, kept, at)
    ensures Places(ks + [k], kept, if kept(k) then at + [|ks|] else at)
  {
    var more := ks + [k];
    var at1: seq<nat> := if kept(k) then at + [|ks|] else at;
    forall j | 0 <= j < |at1| ensures at1[j] < |more| && kept(more[at1[j]]) {
      if j < |at| { assert at1[j] == at[j]; }
    }
    forall i | 0 <= i < |more| && kept(more[i]) ensures i in at1 {
      if i < |ks| {
        assert more[i] == ks[i];
        var j :| 0 <= j < |at| && at[j] == i;
        assert at1[j] == i;
      } else {
        assert at1[|at|] == i;
      }
    }
  }

  // xs is what the kept items yield, in order.
  ghost predicate Picks<K, X>(ks: seq<K>, kept: K -> bool, gives: (K, X) -> bool, at: seq<nat>, xs: seq<X>) {
    && Places(ks, kept, at) && |xs| == |at|
    && forall j :: 0 <= j < |at| ==> at[j] < |ks| && gives(ks[at[j]], xs[j])
  }

  lemma PicksStep<K, X>(ks: seq<K>, k: K, kept: K -> bool, gives: (K, X) -> bool, at: seq<nat>, xs: seq<X>, x: X)
    requires Picks(ks, kept, gives, at, xs) && (kept(k) ==> gives(k, x))
    ensures if kept(k) then Picks(ks + [k], kept, gives, at + [|ks|], xs + [x]) else Picks(ks + [k], kept, gives, at, xs)
  {
    hide Places;
    PlacesStep(ks, k, kept, at);
    var more := ks + [k];
    forall j | 0 <= j < |at| ensures at[j] < |more| && gives(more[at[j]], xs[j]) {
      assert more[at[j]] == ks[at[j]];
    }
    if kept(k) {
      forall j | 0 <= j < |at| + 1 ensures (at + [|ks|])[j] < |more| && gives(more[(at + [|ks|])[j]], (xs + [x])[j]) {
      }
    }
  }

  function Itself<K(==)>(): (K, K) -> bool { (k: K, x: K) => x == k }
  function Normalizes(): (Entities.Decision, Entities.Decision) -> bool {
    (d: Entities.Decision, n: Entities.Decision) => Entities.NormalizeDecision(d) == Some(n)
  }

  lemma NothingPicked<K, X>(kept: K -> bool, gives: (K, X) -> bool)
    ensures Picks([], kept, gives, [], [])
  {
  }

  lemma PicksAsMany<K, X>(ks: seq<K>, kept: K -> bool, gives: (K, X) -> bool, at: seq<nat>, xs: seq<X>)
    requires Picks(ks, kept, gives, at, xs)
    ensures |xs| == |at|
  {
  }

  lemma NothingKept()
    ensures KeptPeopleNotes([]) == [] && KeptDecisions([]) == [] && KeptActions([]) == []
  {
  }

  lemma GivesItself<K>(k: K)
    ensures Itself()(k, k)
  {
  }

  lemma KeptPeopleNotesStep(items: seq<ParsedPeopleNote>)
    requires items != []
    ensures var n := |items| - 1;
            KeptPeopleNotes(items)
            == if NamesSomeone(items[n]) then KeptPeopleNotes(items[..n]) + [items[n]] else KeptPeopleNotes(items[..n])
  {
    TrimSpaceShape(items[|items| - 1].person);
    hide Blank, TrimSpace;
  }

  lemma {:induction false} KeptPeopleNotesArePicked(items: seq<ParsedPeopleNote>) returns (at: seq<nat>)
    ensures Picks(items, NamesSomeone, Itself(), at, KeptPeopleNotes(items))
  {
    hide *;
    if items == [] {
      at := [];
      NothingKept();
      NothingPicked(NamesSomeone, Itself());
    } else {
      var n := |items| - 1;
      var before := KeptPeopleNotesArePicked(items[..n]);
      KeptPeopleNotesStep(items);
      assert items == items[..n] + [items[n]];
      GivesItself(items[n]);
      PicksStep(items[..n], items[n], NamesSomeone, Itself(), before, KeptPeopleNotes(items[..n]), items[n]);
      at := if NamesSomeone(items[n]) then before + [n] else before;
    }
  }

  lemma GivesNormalized(d: Entities.Decision, n: Entities.Decision)
    requires Entities.NormalizeDecision(d) == Some(n)
    ensures Normalizes()(d, n)
  {
  }

  lemma KeptDecisionsStep(ds: seq<Entities.Decision>)
    requires ds != []
    ensures var n := |ds| - 1; Decides(ds[n]) <==> Entities.NormalizeDecision(ds[n]).Some?
    ensures var n := |ds| - 1;
            KeptDecisions(ds)
            == if Decides(ds[n]) then KeptDecisions(ds[..n]) + [Entities.NormalizeDecision(ds[n]).value] else KeptDecisions(ds[..n])
  {
    NormalizeSpaceShape(ds[|ds| - 1].text);
    hide Blank, NormalizeSpace, Cut;
  }

  lemma {:induction false} KeptDecisionsArePicked(ds: seq<Entities.Decision>) returns (at: seq<nat>)
    ensures Picks(ds, Decides, Normalizes(), at, KeptDecisions(ds))
  {
    hide *;
    if ds == [] {
      at := [];
      NothingKept();
      NothingPicked(Decides, Normalizes());
    } else {
      var n := |ds| - 1;
      var before := KeptDecisionsArePicked(ds[..n]);
      KeptDecisionsStep(ds);
      assert ds == ds[..n] + [ds[n]];
      if Decides(ds[n]) { GivesNormalized(ds[n], Entities.NormalizeDecision(ds[n]).value); }
      PicksStep(ds[..n], ds[n], Decides, Normalizes(), before, KeptDecisions(ds[..n]),
                if Decides(ds[n]) then Entities.NormalizeDecision(ds[n]).value else ds[n]);
      at := if Decides(ds[n]) then before + [n] else before;
    }
  }

  lemma KeptActionsStep(items: seq<ParsedAction>)
    requires items != []
    ensures var n := |items| - 1;
            KeptActions(items)
            == if HasTitle(items[n]) then KeptActions(items[..n]) + [items[n]] else KeptActions(items[..n])
  {
    TrimSpaceShape(items[|items| - 1].title);
    hide Blank, TrimSpace;
  }

  lemma {:induction false} KeptActionsArePicked(items: seq<ParsedAction>) returns (at: seq<nat>)
    ensures Picks(items, HasTitle, Itself(), at, KeptActions(items))
  {
    hide *;
    if items == [] {
      at := [];
      NothingKept();
      NothingPicked(HasTitle, Itself());
    } else {
      var n := |items| - 1;
      var before := KeptActionsArePicked(items[..n]);
      KeptActionsStep(items);
      assert items == items[..n] + [items[n]];
      GivesItself(items[n]);
      PicksStep(items[..n], items[n], HasTitle, Itself(), before, KeptActions(items[..n]), items[n]);
      at := if HasTitle(items[n]) then before + [n] else before;
    }
  }

  lemma RowsTabulate<K, R>(m: map<int, R>, ks: seq<K>, kept: K -> bool, fits: (K, R) -> bool, at: seq<nat>, rows: seq<R>)
    requires Picks(ks, kept, fits, at, rows) && Holds(m, rows)
    ensures RowPerItem(m, ks, kept, fits)
  {
    var start: int :| IsBlock(m, start, rows);
    assert Places(ks, kept, at);
    assert Tabulates(m, ks, fits, start, at) by { hide Holds; }
  }

  // From what the items give to the rows that are made of it.
  lemma PicksThrough<K, X, R>(ks: seq<K>, kept: K -> bool, gives: (K, X) -> bool, at: seq<nat>, xs: seq<X>, rows: seq<R>,
                              fits: (K, R) -> bool)
    requires Picks(ks, kept, gives, at, xs) && |rows| == |xs|
    requires forall j :: 0 <= j < |at| && at[j] < |ks| && kept(ks[at[j]]) && gives(ks[at[j]], xs[j]) ==> fits(ks[at[j]], rows[j])
    ensures Picks(ks, kept, fits, at, rows)
  {
  }

  lemma PeopleNoteRowFits(index: map<AliasKey, Alias>, user: int, note: int, pn: ParsedPeopleNote)
    requires NamesSomeone(pn) && KeyOf(user, pn.person) in index
    ensures PeopleNoteFits(index, user, note)(pn, ToPeopleNote(user, note)(pn, OwnerOf(index, user, PersonOf(pn))))
  {
    TrimSpaceShape(pn.typ);
    hide TrimSpace, NormalizePersonName;
  }

  lemma DecisionRowFits(index: map<AliasKey, Alias>, user: int, note: int, d: Entities.Decision, n: Entities.Decision)
    requires Entities.NormalizeDecision(d) == Some(n) && (n.linkedPerson != "" ==> KeyOf(user, n.linkedPerson) in index)
    ensures DecisionFits(index, user, note)(d, ToDecisionRow(user, note)(n, OwnerOf(index, user, DecisionLink(n))))
  {
    NormalizeSpaceShape(d.linkedPerson);
    NormalizeSpaceIsStable(d.linkedPerson);
    KeyOfWords(d.linkedPerson);
    KeyOfWords(NormalizeSpace(d.linkedPerson));
    hide NormalizeSpace, NormalizePersonName, Cut, Blank, Fields, Join, KeyChar;
  }

  lemma ActionRowFits(index: map<AliasKey, Alias>, user: int, note: int, a: ParsedAction)
    requires a.linked != "" ==> !Blank(a.linked) && KeyOf(user, a.linked) in index
    ensures ActionFits(index, user, note)(a, ToAction(user, note)(a, OwnerOf(index, user, ActionLink(a))))
  {
    hide TrimSpace, NormalizePersonName;
  }

  // The names of a parsed note, list by list.
  lemma NamesSplit(index: map<AliasKey, Alias>, user: int, p: Parsed)
    requires AllLead(index, user, NamesOf(p))
    ensures AllLead(index, user, NamesIn(PersonOf, KeptPeopleNotes(p.peopleNotes)))
    ensures AllLead(index, user, NamesIn(DecisionLink, KeptDecisions(p.decisions)))
    ensures AllLead(index, user, NamesIn(ActionLink, KeptActions(p.actions)))
  {
    hide KeyOf, Blank, KeptPeopleNotes, KeptDecisions, KeptActions;
    var a, b, c := NamesIn(PersonOf, KeptPeopleNotes(p.peopleNotes)), NamesIn(DecisionLink, KeptDecisions(p.decisions)),
                   NamesIn(ActionLink, KeptActions(p.actions));
    var all := NamesOf(p);
    assert all == a + b + c;
    assert forall i :: 0 <= i < |a| ==> all[i] == a[i];
    assert forall i :: 0 <= i < |b| ==> all[|a| + i] == b[i];
    assert forall i :: 0 <= i < |c| ==> all[|a| + |b| + i] == c[i];
  }

  lemma PeopleNoteRowsFit(index: map<AliasKey, Alias>, user: int, note: int, items: seq<ParsedPeopleNote>) returns (at: seq<nat>)
    requires AllLead(index, user, NamesIn(PersonOf, KeptPeopleNotes(items)))
    ensures Picks(items, NamesSomeone, PeopleNoteFits(index, user, note), at, PeopleNoteRows(index, user, note, KeptPeopleNotes(items)))
  {
    hide Picks, KeptPeopleNotes, PeopleNoteFits, ToPeopleNote, OwnerOf, KeyOf;
    var ks := KeptPeopleNotes(items);
    at := KeptPeopleNotesArePicked(items);
    PicksAsMany(items, NamesSomeone, Itself(), at, ks);
    var rows := PeopleNoteRows(index, user, note, ks);
    forall j | 0 <= j < |at| && at[j] < |items| && NamesSomeone(items[at[j]]) && Itself()(items[at[j]], ks[j])
      ensures PeopleNoteFits(index, user, note)(items[at[j]], rows[j])
    {
      assert NamesIn(PersonOf, ks)[j] == PersonOf(ks[j]);
      PeopleNoteRowFits(index, user, note, items[at[j]]);
    }
    PicksThrough(items, NamesSomeone, Itself(), at, ks, rows, PeopleNoteFits(index, user, note));
  }

  lemma DecisionRowsFit(index: map<AliasKey, Alias>, user: int, note: int, ds: seq<Entities.Decision>) returns (at: seq<nat>)
    requires AllLead(index, user, NamesIn(DecisionLink, KeptDecisions(ds)))
    ensures Picks(ds, Decides, DecisionFits(index, user, note), at, DecisionRows(index, user, note, KeptDecisions(ds)))
  {
    hide Picks, KeptDecisions, DecisionFits, ToDecisionRow, OwnerOf, KeyOf;
    var ks := KeptDecisions(ds);
    at := KeptDecisionsArePicked(ds);
    PicksAsMany(ds, Decides, Normalizes(), at, ks);
    var rows := DecisionRows(index, user, note, ks);
    forall j | 0 <= j < |at| && at[j] < |ds| && Decides(ds[at[j]]) && Normalizes()(ds[at[j]], ks[j])
      ensures DecisionFits(index, user, note)(ds[at[j]], rows[j])
    {
      assert NamesIn(DecisionLink, ks)[j] == DecisionLink(ks[j]);
      DecisionRowFits(index, user, note, ds[at[j]], ks[j]);
    }
    PicksThrough(ds, Decides, Normalizes(), at, ks, rows, DecisionFits(index, user, note));
  }

  lemma ActionRowsFit(index: map<AliasKey, Alias>, user: int, note: int, items: seq<ParsedAction>) returns (at: seq<nat>)
    requires AllLead(index, user, NamesIn(ActionLink, KeptActions(items)))
    ensures Picks(items, HasTitle, ActionFits(index, user, note), at, ActionRows(index, user, note, KeptActions(items)))
  {
    hide Picks, KeptActions, ActionFits, ToAction, OwnerOf, KeyOf;
    var ks := KeptActions(items);
    at := KeptActionsArePicked(items);
    PicksAsMany(items, HasTitle, Itself(), at, ks);
    var rows := ActionRows(index, user, note, ks);
    forall j | 0 <= j < |at| && at[j] < |items| && HasTitle(items[at[j]]) && Itself()(items[at[j]], ks[j])
      ensures ActionFits(index, user, note)(items[at[j]], rows[j])
    {
      assert NamesIn(ActionLink, ks)[j] == ActionLink(ks[j]);
      ActionRowFits(index, user, note, items[at[j]]);
    }
    PicksThrough(items, HasTitle, Itself(), at, ks, rows, ActionFits(index, user, note));
  }

  function RecordKey(note: int, r: Entities.Record): MentionKey { MentionKey(note, r.typ, r.normalized) }

  // Each record has its row, and each row its record.
  ghost predicate RowPerRecord(rows: map<MentionKey, MentionRow>, user: int, note: int, rs: seq<Entities.Record>) {
    && |rows| == |rs|
    && (forall i :: 0 <= i < |rs| ==>
          RecordKey(note, rs[i]) in rows
          && rows[RecordKey(note, rs[i])] == MentionRow(user, rs[i].rawValue, rs[i].display, rs[i].context))
    && (forall k :: k in rows ==> exists i :: 0 <= i < |rs| && k == RecordKey(note, rs[i]))
  }

  lemma OneMoreRecord(rows: map<MentionKey, MentionRow>, user: int, note: int, rs: seq<Entities.Record>, r: Entities.Record)
    requires RowPerRecord(rows, user, note, rs) && RecordKey(note, r) !in rows
    ensures RowPerRecord(rows[RecordKey(note, r) := MentionRow(user, r.rawValue, r.display, r.context)], user, note, rs + [r])
  {
    hide RecordKey;
    var k := RecordKey(note, r);
    var more := rs + [r];
    var rows1 := rows[k := MentionRow(user, r.rawValue, r.display, r.context)];
    assert |rows1| == |rows| + 1 by { assert rows1.Keys == rows.Keys + {k}; }
    forall i | 0 <= i < |more|
      ensures RecordKey(note, more[i]) in rows1
              && rows1[RecordKey(note, more[i])] == MentionRow(user, more[i].rawValue, more[i].display, more[i].context)
    {
      if i < |rs| { assert more[i] == rs[i] && RecordKey(note, rs[i]) in rows; }
    }
    forall x | x in rows1 ensures exists i :: 0 <= i < |more| && x == RecordKey(note, more[i]) {
      if x == k {
        assert more[|rs|] == r;
      } else {
        var i :| 0 <= i < |rs| && x == RecordKey(note, rs[i]);
        assert more[i] == rs[i];
      }
    }
  }

  lemma {:induction false} MentionRowsAre(user: int, note: int, rs: seq<Entities.Record>)
    requires Entities.Distinct(Entities.Keys(rs))
    ensures RowPerRecord(MentionRows(user, note, rs), user, note, rs)
  {
    if rs != [] {
      var n := |rs| - 1;
      LastKeyIsNew(user, note, rs);
      MentionRowsAre(user, note, rs[..n]);
      MentionRowsStep(user, note, rs);
      hide MentionRows, RowPerRecord, Entities.Distinct, Entities.Keys;
      OneMoreRecord(MentionRows(user, note, rs[..n]), user, note, rs[..n], rs[n]);
      assert rs == rs[..n] + [rs[n]];
    }
  }

  lemma MentionRowsStep(user: int, note: int, rs: seq<Entities.Record>)
    requires rs != []
    ensures var n := |rs| - 1;
            MentionRows(user, note, rs)
            == MentionRows(user, note, rs[..n])[MentionKey(note, rs[n].typ, rs[n].normalized) :=
                                                MentionRow(user, rs[n].rawValue, rs[n].display, rs[n].context)]
  {
  }

  lemma MentionsAreTold(user: int, note: int, ms: seq<Entities.Mention>)
    ensures MentionsTell(MentionRows(user, note, Entities.NormalizeMentions(ms).out), user, note, ms)
  {
    hide Entities.NormalizeMentions, Entities.Says, Entities.FirstSaying, Entities.NormalizeEntityMention, MentionRows, RowPerRecord,
      Entities.Normalized, MentionsTell;
    var rs := Entities.NormalizeMentions(ms).out;
    Entities.BatchIsWellFormed(ms);
    Entities.BatchKeepsFirst(ms);
    MentionRowsAre(user, note, rs);
    if |rs| < 40 {
      Entities.BatchLosesNothingBelowCap(ms);
    }
    RecordsTell(MentionRows(user, note, rs), user, note, ms, rs);
  }

  lemma RecordsTell(rows: map<MentionKey, MentionRow>, user: int, note: int, ms: seq<Entities.Mention>, rs: seq<Entities.Record>)
    requires RowPerRecord(rows, user, note, rs) && |rs| <= 40
    requires forall r :: r in rs ==> Entities.FirstSaying(ms, r)
    requires |rs| < 40 ==> forall i :: 0 <= i < |ms| ==> Entities.Represented(ms[i], rs)
    ensures MentionsTell(rows, user, note, ms)
  {
    hide Entities.Says, Entities.FirstSaying, Entities.NormalizeEntityMention;
    forall k | k in rows
      ensures k.note == note && rows[k].user == user
      ensures Entities.FirstSaying(ms, Entities.Record(k.typ, rows[k].rawValue, k.value, rows[k].display, rows[k].context))
    {
      var i :| 0 <= i < |rs| && k == MentionKey(note, rs[i].typ, rs[i].normalized);
      assert rs[i] == Entities.Record(k.typ, rows[k].rawValue, k.value, rows[k].display, rows[k].context);
    }
    if |rs| < 40 {
      forall i, r | 0 <= i < |ms| && Entities.Says(ms[i], r) ensures MentionKey(note, r.typ, r.normalized) in rows {
        SaidIsThere(ms[i], r, rs);
      }
    }
  }

  lemma SaidIsThere(m: Entities.Mention, r: Entities.Record, rs: seq<Entities.Record>)
    requires Entities.Says(m, r) && Entities.Represented(m, rs)
    ensures exists j :: 0 <= j < |rs| && rs[j].typ == r.typ && rs[j].normalized == r.normalized
  {
    hide Entities.Says, Entities.NormalizeEntityMention;
    Entities.MentionSaysItsRecord(m, r);
    var j :| 0 <= j < |rs| && Entities.Keys(rs)[j] == Entities.Key(r);
  }

  // Rows that are derived from a parsed note say what it says.
  lemma DerivedTells(rows: NoteRows, index: map<AliasKey, Alias>, user: int, note: int, p: Parsed)
    requires Derived(rows, index, user, note, p)
    ensures Tells(rows, index, user, note, p)
  {
    hide *;
    DerivedIs(rows, index, user, note, p);
    NamesSplit(index, user, p);
    var at := PeopleNoteRowsFit(index, user, note, p.peopleNotes);
    RowsTabulate(rows.peopleNotes, p.peopleNotes, NamesSomeone, PeopleNoteFits(index, user, note), at,
                 PeopleNoteRows(index, user, note, KeptPeopleNotes(p.peopleNotes)));
    at := DecisionRowsFit(index, user, note, p.decisions);
    RowsTabulate(rows.decisions, p.decisions, Decides, DecisionFits(index, user, note), at,
                 DecisionRows(index, user, note, KeptDecisions(p.decisions)));
    at := ActionRowsFit(index, user, note, p.actions);
    RowsTabulate(rows.actions, p.actions, HasTitle, ActionFits(index, user, note), at,
                 ActionRows(index, user, note, KeptActions(p.actions)));
    MentionsAreTold(user, note, p.mentions);
    TellsIs(rows, index, user, note, p);
  }

  lemma DerivedIs(rows: NoteRows, index: map<AliasKey, Alias>, user: int, note: int, p: Parsed)
    requires Derived(rows, index, user, note, p)
    ensures AllLead(index, user, NamesOf(p))
    ensures Holds(rows.peopleNotes, PeopleNoteRows(index, user, note, KeptPeopleNotes(p.peopleNotes)))
    ensures Holds(rows.decisions, DecisionRows(index, user, note, KeptDecisions(p.decisions)))
    ensures Holds(rows.actions, ActionRows(index, user, note, KeptActions(p.actions)))
    ensures rows.mentions == MentionRows(user, note, Entities.NormalizeMentions(p.mentions).out)
  {
    hide AllLead, Holds, PeopleNoteRows, DecisionRows, ActionRows, MentionRows;
  }

  lemma TellsIs(rows: NoteRows, index: map<AliasKey, Alias>, user: int, note: int, p: Parsed)
    requires RowPerItem(rows.peopleNotes, p.peopleNotes, NamesSomeone, PeopleNoteFits(index, user, note))
    requires RowPerItem(rows.decisions, p.decisions, Decides, DecisionFits(index, user, note))
    requires RowPerItem(rows.actions, p.actions, HasTitle, ActionFits(index, user, note))
    requires MentionsTell(rows.mentions, user, note, p.mentions)
    ensures Tells(rows, index, user, note, p)
  {
    hide RowPerItem, MentionsTell;
  }

  // From the parsed note to the columns: after a save that committed, on a note without rows, each
  // item that is kept has its row, with its texts, its link and its flags, and there is no other.
  lemma SaveWritesColumns(t: Tables, user: int, note: int, p: Parsed, now: Instant)
    requires Inv(t) && NoRowsYet(t, note) && SaveStructured(t, user, note, p, now).Some?
    ensures var t1 := SaveStructured(t, user, note, p, now).value; Tells(RowsFor(t1, note), t1.aliases, user, note, p)
  {
    hide Inv, NoRowsYet, SaveStructured, Saved, Derived, Tells, RowsFor, SomeNameFails, TextsStorable;
    SaveStructuredLeaves(t, user, note, p, now);
    var t1 := SaveStructured(t, user, note, p, now).value;
    SaveReplacesRows(t, t1, user, note, p);
    DerivedTells(RowsFor(t1, note), t1.aliases, user, note, p);
  }

  // Every row of another note, or of none, stays, and so do all persons and aliases.
  ghost predicate Spares(t: Tables, t1: Tables, note: int) {
    && (forall r :: r in t.peopleNotes && t.peopleNotes[r].note != Some(note) ==>
          r in t1.peopleNotes && t1.peopleNotes[r] == t.peopleNotes[r])
    && (forall r :: r in t.decisions && t.decisions[r].note != note ==> r in t1.decisions && t1.decisions[r] == t.decisions[r])
    && (forall r :: r in t.actions && t.actions[r].note != Some(note) ==> r in t1.actions && t1.actions[r] == t.actions[r])
    && (forall k :: k in t.mentions && k.note != note ==> k in t1.mentions && t1.mentions[k] == t.mentions[k])
    && Extends(t.aliases, t1.aliases) && Grows(t.people, t1.people)
  }

  lemma DeleteSpares(t: Tables, user: int, note: int)
    ensures Spares(t, DeleteForNote(t, user, note), note)
  {
  }

  lemma SaveSpares(t: Tables, t1: Tables, user: int, note: int, p: Parsed)
    requires NoRowsYet(t, note) && Saved(t, t1, user, note, p)
    ensures Spares(t, t1, note)
  {
    hide Inv, SomeNameFails, NoRowsYet, PeopleNoteRows, DecisionRows, ActionRows, KeptPeopleNotes, KeptDecisions, KeptActions,
      MentionRows, Entities.NormalizeMentions, Extends, Grows, Usable, KeysOf, NamesOf;
    MentionRowsShape(user, note, Entities.NormalizeMentions(p.mentions).out);
  }

  lemma SparesTransitive(a: Tables, b: Tables, c: Tables, note: int)
    requires Spares(a, b, note) && Spares(b, c, note)
    ensures Spares(a, c, note)
  {
  }

  // ---- Which texts a save refuses ----

  // The texts of a parsed note, as they are handed to the database.
  predicate TextsFit(p: Parsed) {
    && (forall pn :: pn in p.peopleNotes && !Blank(pn.person) ==>
          Storable(pn.theme) && Storable(pn.text) && (Blank(pn.typ) || Storable(pn.typ)))
    && (forall d :: d in p.decisions && !Blank(d.text) ==>
          Storable(Cut(NormalizeSpace(d.text), 1000)) && Storable(Cut(NormalizeSpace(d.topic), 120)))
    && (forall r :: r in Entities.NormalizeMentions(p.mentions).out ==>
          Storable(r.rawValue) && Storable(r.normalized) && Storable(r.display) && Storable(r.context))
    && (forall a :: a in p.actions && !Blank(a.title) ==> Storable(TrimSpace(a.title)) && Storable(a.output))
  }

  lemma PeopleNoteFitsText(pn: ParsedPeopleNote)
    ensures PeopleNoteStorable(pn) <==> Storable(pn.theme) && Storable(pn.text) && (Blank(pn.typ) || Storable(pn.typ))
  {
    TrimSpaceShape(pn.typ);
    hide TrimSpace, Blank;
    assert Storable("context");
  }

  lemma DecisionFitsText(d: Entities.Decision)
    requires !Blank(d.text)
    ensures Entities.NormalizeDecision(d).Some?
    ensures DecisionStorable(Entities.NormalizeDecision(d).value)
        <==> Storable(Cut(NormalizeSpace(d.text), 1000)) && Storable(Cut(NormalizeSpace(d.topic), 120))
  {
    NormalizeSpaceShape(d.text);
    hide NormalizeSpace, Cut, Storable, Blank;
  }

  lemma TypesAreStorable(ms: seq<Entities.Mention>)
    ensures forall r :: r in Entities.NormalizeMentions(ms).out ==> Storable(r.typ)
  {
    hide Entities.NormalizeMentions, Storable, Entities.Says, Entities.FirstSaying;
    Entities.BatchKeepsFirst(ms);
    forall r | r in Entities.NormalizeMentions(ms).out ensures Storable(r.typ) {
      TypeIsStorable(ms, r);
    }
  }

  lemma TypeIsStorable(ms: seq<Entities.Mention>, r: Entities.Record)
    requires Entities.FirstSaying(ms, r)
    ensures Storable(r.typ)
  {
    hide Cut, NormalizeSpace, Blank, TrimSpace, ToLower, Entities.IsTicketKey, MapChars, Entities.FirstSaid;
    var i :| 0 <= i < |ms| && Entities.Says(ms[i], r) && Entities.NotSaidBefore(ms, i, Entities.Key(r));
    hide Entities.NotSaidBefore;
  }

  lemma PeopleNotesFitText(items: seq<ParsedPeopleNote>)
    ensures PeopleNotesStorable(KeptPeopleNotes(items)) <==>
              forall pn :: pn in items && !Blank(pn.person) ==>
                Storable(pn.theme) && Storable(pn.text) && (Blank(pn.typ) || Storable(pn.typ))
  {
    var ks := KeptPeopleNotes(items);
    var at := KeptPeopleNotesArePicked(items);
    KeptAreThere(items, NamesSomeone, Itself(), at, ks);
    hide KeptPeopleNotes, Picks, PeopleNoteStorable, Storable, Blank;
    forall pn ensures PeopleNoteStorable(pn) <==> Storable(pn.theme) && Storable(pn.text) && (Blank(pn.typ) || Storable(pn.typ)) {
      PeopleNoteFitsText(pn);
    }
  }

  // What is kept comes from an item, and each item to keep is there.
  lemma KeptAreThere<K, X>(ks: seq<K>, kept: K -> bool, gives: (K, X) -> bool, at: seq<nat>, xs: seq<X>)
    requires Picks(ks, kept, gives, at, xs)
    ensures forall x :: x in xs ==> exists k :: k in ks && kept(k) && gives(k, x)
    ensures forall k :: k in ks && kept(k) ==> exists x :: x in xs && gives(k, x)
  {
    forall x | x in xs ensures exists k :: k in ks && kept(k) && gives(k, x) {
      var j :| 0 <= j < |xs| && xs[j] == x;
      assert ks[at[j]] in ks;
    }
    forall k | k in ks && kept(k) ensures exists x :: x in xs && gives(k, x) {
      var i :| 0 <= i < |ks| && ks[i] == k;
      var j :| 0 <= j < |at| && at[j] == i;
      assert xs[j] in xs;
    }
  }

  lemma DecisionsFitText(ds: seq<Entities.Decision>)
    ensures DecisionsStorable(KeptDecisions(ds)) <==>
              forall d :: d in ds && !Blank(d.text) ==>
                Storable(Cut(NormalizeSpace(d.text), 1000)) && Storable(Cut(NormalizeSpace(d.topic), 120))
  {
    var ks := KeptDecisions(ds);
    var at := KeptDecisionsArePicked(ds);
    KeptAreThere(ds, Decides, Normalizes(), at, ks);
    hide KeptDecisions, Picks, DecisionStorable, Storable, Blank, NormalizeSpace, Cut, Entities.NormalizeDecision;
    forall d | d in ds && !Blank(d.text)
      ensures Entities.NormalizeDecision(d).Some?
      ensures DecisionStorable(Entities.NormalizeDecision(d).value)
          <==> Storable(Cut(NormalizeSpace(d.text), 1000)) && Storable(Cut(NormalizeSpace(d.topic), 120))
    {
      DecisionFitsText(d);
    }
  }

  lemma ActionsFitText(items: seq<ParsedAction>)
    ensures ActionsStorable(KeptActions(items)) <==>
              forall a :: a in items && !Blank(a.title) ==> Storable(TrimSpace(a.title)) && Storable(a.output)
  {
    var ks := KeptActions(items);
    var at := KeptActionsArePicked(items);
    KeptAreThere(items, HasTitle, Itself(), at, ks);
    hide KeptActions, Picks, Storable, Blank, TrimSpace;
  }

  // A save fails exactly if one of the names is refused or one of the texts does not fit.
  lemma SaveFailsExactly(t: Tables, user: int, note: int, p: Parsed, now: Instant)
    requires Inv(t)
    ensures SaveStructured(t, user, note, p, now).None? <==> SomeNameFails(t, user, NamesOf(p)) || !TextsFit(p)
  {
    hide Inv, SaveStructured, SomeNameFails, Saved, PeopleNotesStorable, DecisionsStorable, ActionsStorable, KeptPeopleNotes,
      KeptDecisions, KeptActions, Entities.NormalizeMentions, NamesOf, Storable, Cut, NormalizeSpace, TrimSpace, Blank;
    SaveStructuredLeaves(t, user, note, p, now);
    PeopleNotesFitText(p.peopleNotes);
    DecisionsFitText(p.decisions);
    ActionsFitText(p.actions);
    TypesAreStorable(p.mentions);
  }

  // ---- Cuts inside a character ----

  // Of a decision whose texts came in storable, what is left is storable exactly if both cuts
  // fall between two characters.
  lemma DecisionCuts(d: Entities.Decision)
    requires Storable(d.text) && Storable(d.topic) && Entities.NormalizeDecision(d).Some?
    ensures DecisionStorable(Entities.NormalizeDecision(d).value)
        <==> && CutsCleanly(NormalizeSpace(d.text), Entities.MAX_DECISION_TEXT)
             && CutsCleanly(NormalizeSpace(d.topic), Entities.MAX_DECISION_TOPIC)
  {
    StorableIgnoresSpacing(d.text);
    StorableIgnoresSpacing(d.topic);
    CutIsStorable(NormalizeSpace(d.text), Entities.MAX_DECISION_TEXT);
    CutIsStorable(NormalizeSpace(d.topic), Entities.MAX_DECISION_TOPIC);
    hide Cut, CutsCleanly, NormalizeSpace, Storable;
  }

  // The store cuts again what the service cut before; that neither helps nor harms.
  lemma DecisionCutsOnce(d: Entities.Decision)
    requires Entities.NormalizeDecision(d).Some?
    ensures var n := Entities.NormalizeDecision(d).value;
            Entities.NormalizeDecision(n).Some?
            && (DecisionStorable(Entities.NormalizeDecision(n).value) <==> DecisionStorable(n))
  {
    NormalizeSpaceShape(d.text);
    CutStays(NormalizeSpace(d.text), Entities.MAX_DECISION_TEXT);
    CutStays(NormalizeSpace(d.topic), Entities.MAX_DECISION_TOPIC);
    hide Cut, NormalizeSpace, Storable, Blank, IsSpace;
  }

  lemma CutStays(s: string, max: nat)
    ensures Storable(Cut(NormalizeSpace(Cut(s, max)), max)) <==> Storable(Cut(s, max))
    ensures s != "" && !IsSpace(s[0]) && max >= 4 ==> NormalizeSpace(Cut(s, max)) != ""
  {
    var c := Cut(s, max);
    CutFits(s, max);
    NormalizeSpaceIsShort(c);
    CutFits(NormalizeSpace(c), max);
    StorableIgnoresSpacing(c);
    NormalizeSpaceShape(c);
    if s != "" && max >= 4 {
      assert c[0] == s[0];
    }
    hide NormalizeSpace, Storable, Cut;
  }

  // One ASCII letter before letters of two bytes puts every even cut inside a letter.
  function MixedWord(n: nat): (s: string)
    ensures |s| == n + 1 && s[0] == 'a' && forall i :: 1 <= i <= n ==> s[i] == '\U{044F}'
  {
    ['a'] + seq(n, _ => '\U{044F}')
  }

  lemma {:induction false} SizeOfTwoByteLetters(s: string)
    requires forall i :: 0 <= i < |s| ==> s[i] == '\U{044F}'
    ensures Size(s) == 2 * |s|
  {
    if s != "" { SizeOfTwoByteLetters(s[1..]); }
  }

  lemma MixedWordCutsBadly(n: nat, max: nat)
    requires max % 2 == 0 && 0 < max < 2 * n + 1
    ensures !CutsCleanly(MixedWord(n), max)
  {
    var s := MixedWord(n);
    forall k | 0 < k <= |s| ensures Size(s[..k]) == 2 * k - 1 {
      var rest := s[..k][1..];
      assert forall i :: 0 <= i < |rest| ==> rest[i] == s[i + 1];
      SizeOfTwoByteLetters(rest);
    }
    assert s[..|s|] == s && Size(s[..0]) == 0;
  }

  // A decision of one letter and 500 or more Cyrillic ones is never saved.
  lemma LongMixedDecisionFails(t: Tables, user: int, note: int, n: nat, now: Instant)
    requires Inv(t) && n >= 500
    ensures var d := Entities.Decision(MixedWord(n), "", "");
            SaveStructured(t, user, note, Parsed("", Some([]), [], [d], [], []), now).None?
  {
    var d := Entities.Decision(MixedWord(n), "", "");
    var p := Parsed("", Some([]), [], [d], [], []);
    assert IsWord(d.text);
    WordNormalizesToItself(d.text);
    assert Storable(d.text) && Storable(d.topic);
    MixedWordCutsBadly(n, Entities.MAX_DECISION_TEXT);
    hide MixedWord, CutsCleanly, NormalizeSpace, Storable, Inv, SaveStructured, SomeNameFails;
    DecisionCuts(d);
    assert KeptDecisions([d][..0]) == [];
    assert KeptDecisions(p.decisions) == [Entities.NormalizeDecision(d).value];
    assert !DecisionsStorable(KeptDecisions(p.decisions)) by {
      assert Entities.NormalizeDecision(d).value in KeptDecisions(p.decisions);
    }
    SaveStructuredLeaves(t, user, note, p, now);
  }
}
