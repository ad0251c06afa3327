// MergePeople of internal/adapters/store/store.go: one person becomes a tombstone that points
// at another, and everything that named the first now names the second.
module Merging {
  import opened Options
  import opened Text
  import opened Names
  import opened People

  // DatabaseError is a violated unique index that the store passes on as it is.
  datatype MergeError = NoSuchPerson | MergeConflict | UpdateConflict | IdentityConflict | DatabaseError

  datatype MergeCounts = MergeCounts(notesDeduplicated: nat, notesReassigned: nat, actionsReassigned: nat,
                                     decisionsReassigned: nat, aliasesDeduplicated: nat, aliasesMoved: nat)

  datatype MergeOutcome = Merged(counts: MergeCounts) | AlreadyMerged | Rejected(error: MergeError)

  datatype MergeInput = MergeInput(expectedPrimary: Option<Instant>, expectedSource: Option<Instant>,
                                   resolution: map<string, string>)

  // A merge request with its two persons, as read under the row locks.
  datatype Pair = Pair(user: int, primary: int, source: int)

  const PROFILE_FIELDS := {"display_name", "first_name", "last_name", "job_title", "team", "company", "notes"}
  const RESOLUTIONS := {"", "primary", "source", "append"}

  predicate ResolutionValid(resolution: map<string, string>) {
    forall k :: k in resolution ==> k in PROFILE_FIELDS && resolution[k] in RESOLUTIONS
  }

  predicate PicksSource(resolution: map<string, string>, field: string) {
    field in resolution && resolution[field] == "source"
  }

  // ---- Choosing profile values ----

  function PickName(resolution: map<string, string>, pv: string, sv: string): string {
    if TrimSpace(pv) == "" then sv
    else if TrimSpace(sv) == "" || pv == sv then pv
    else if PicksSource(resolution, "display_name") then sv
    else pv
  }

  predicate Missing(v: Option<string>) {
    v.None? || TrimSpace(v.value) == ""
  }

  function PickField(resolution: map<string, string>, field: string, pv: Option<string>,
                     sv: Option<string>): Option<string> {
    if Missing(pv) then sv
    else if Missing(sv) || pv == sv then pv
    else if PicksSource(resolution, field) then sv
    else pv
  }

  function PickNotes(resolution: map<string, string>, pv: Option<string>, sv: Option<string>): Option<string> {
    if Missing(pv) then sv
    else if Missing(sv) || pv == sv then pv
    else if PicksSource(resolution, "notes") then sv
    else if "notes" in resolution && resolution["notes"] == "append"
    then Some(pv.value + "\n\n--- merged notes ---\n\n" + sv.value)
    else pv
  }

  function PickProfile(resolution: map<string, string>, p: Profile, s: Profile): Profile {
    Profile(PickField(resolution, "first_name", p.first, s.first),
            PickField(resolution, "last_name", p.last, s.last),
            PickField(resolution, "job_title", p.title, s.title),
            PickField(resolution, "team", p.team, s.team),
            PickField(resolution, "company", p.company, s.company),
            PickNotes(resolution, p.notes, s.notes))
  }

  // ---- Aliases of the merged person ----

  function AddAlias(aliases: map<string, string>, name: string): map<string, string> {
    var a := TrimSpace(name);
    var n := NormalizePersonName(a);
    if n != "" && n !in aliases then aliases[n := a] else aliases
  }

  // The alias map as the loop over the two persons' alias rows leaves it.
  function AddRows(aliases: map<string, string>, t: Tables, user: int, owners: set<int>): map<string, string> {
    aliases + map n | n in OwnedNorms(t, user, owners) && n != "" && n !in aliases && (user, n) in t.aliases
                    :: t.aliases[(user, n)].alias
  }

  function MergedAliases(t: Tables, q: Pair, newName: string): map<string, string>
    requires q.primary in t.people && q.source in t.people
  {
    var named := AddAlias(AddAlias(map[], t.people[q.primary].name), t.people[q.source].name);
    AddAlias(AddRows(named, t, q.user, {q.primary, q.source}), newName)
  }

  // ---- The transaction ----

  // The checks before any write: None means that the merge goes ahead.
  function MergeCheck(t: Tables, q: Pair, input: MergeInput): (r: Option<MergeOutcome>)
    ensures r.Some? ==> !r.value.Merged?
  {
    if q.primary == q.source then Some(Rejected(MergeConflict))
    else if q.primary !in t.people || t.people[q.primary].user != q.user
         || q.source !in t.people || t.people[q.source].user != q.user then Some(Rejected(NoSuchPerson))
    else
      var p, s := t.people[q.primary], t.people[q.source];
      if s.merged == Some(q.primary) then Some(AlreadyMerged)
      else if p.merged.Some? || s.merged.Some? then Some(Rejected(MergeConflict))
      else if input.expectedPrimary.Some? && p.updated != input.expectedPrimary.value then Some(Rejected(UpdateConflict))
      else if input.expectedSource.Some? && s.updated != input.expectedSource.value then Some(Rejected(UpdateConflict))
      else if !ResolutionValid(input.resolution) then Some(Rejected(MergeConflict))
      else
        var newName := PickName(input.resolution, p.name, s.name);
        if AliasConflict(t, q.user, MergedAliases(t, q, newName).Keys, {q.primary, q.source})
        then Some(Rejected(IdentityConflict))
        else None
  }

  predicate IsSourceNote(t: Tables, q: Pair, r: int) {
    r in t.peopleNotes && t.peopleNotes[r].user == q.user && t.peopleNotes[r].person == q.source
  }

  // Same note, type, theme and text, where an absent theme or note equals an absent one.
  predicate SameFact(a: PeopleNote, b: PeopleNote) {
    a.user == b.user && a.note == b.note && a.typ == b.typ && a.theme == b.theme && a.text == b.text
  }

  // A source row that the primary already has.
  predicate IsDuplicate(t: Tables, q: Pair, r: int) {
    IsSourceNote(t, q, r)
    && exists p :: p in t.peopleNotes && t.peopleNotes[p].person == q.primary
                   && SameFact(t.peopleNotes[p], t.peopleNotes[r])
  }

  function MovePeopleNotes(t: Tables, q: Pair): map<int, PeopleNote> {
    map r | r in t.peopleNotes && !IsDuplicate(t, q, r)
      :: if IsSourceNote(t, q, r) then t.peopleNotes[r].(person := q.primary) else t.peopleNotes[r]
  }

  predicate LinksToSource(q: Pair, user: int, link: Option<int>) {
    user == q.user && link == Some(q.source)
  }

  function MoveActions(t: Tables, q: Pair): map<int, Action> {
    map r | r in t.actions
      :: if LinksToSource(q, t.actions[r].user, t.actions[r].person)
         then t.actions[r].(person := Some(q.primary)) else t.actions[r]
  }

  function MoveDecisions(t: Tables, q: Pair): map<int, DecisionRow> {
    map r | r in t.decisions
      :: if LinksToSource(q, t.decisions[r].user, t.decisions[r].person)
         then t.decisions[r].(person := Some(q.primary)) else t.decisions[r]
  }

  // An alias key that the merge writes: a new one, or one of the two persons' own.
  predicate WritesAlias(t: Tables, q: Pair, norms: set<string>, k: AliasKey) {
    k.0 == q.user && k.1 in norms
    && (k in t.aliases ==> t.aliases[k].person in {q.primary, q.source})
  }

  function Written(t: Tables, q: Pair, aliases: map<string, string>): map<string, string> {
    map n | n in aliases && WritesAlias(t, q, aliases.Keys, (q.user, n)) :: aliases[n]
  }

  function MoveAliases(t: Tables, q: Pair, aliases: map<string, string>): map<AliasKey, Alias> {
    var kept := map k | k in t.aliases && !OwnedBy(t, q.user, {q.source}, k) :: t.aliases[k];
    kept + AliasRows(q.user, q.primary, Written(t, q, aliases))
  }

  function MoveAll(t: Tables, q: Pair, input: MergeInput, now: Instant): Tables
    requires q.primary in t.people && q.source in t.people
  {
    var p, s := t.people[q.primary], t.people[q.source];
    var newName := PickName(input.resolution, p.name, s.name);
    t.(people := t.people[q.primary := p.(name := newName, norm := NormalizePersonName(newName),
                                          profile := PickProfile(input.resolution, p.profile, s.profile), updated := now)]
                         [q.source := s.(merged := Some(q.primary), updated := now)],
       aliases := MoveAliases(t, q, MergedAliases(t, q, newName)),
       peopleNotes := MovePeopleNotes(t, q),
       actions := MoveActions(t, q),
       decisions := MoveDecisions(t, q))
  }

  function SourceNotes(t: Tables, q: Pair): set<int> {
    set r | r in t.peopleNotes && IsSourceNote(t, q, r)
  }

  function Duplicates(t: Tables, q: Pair): set<int> {
    set r | r in t.peopleNotes && IsDuplicate(t, q, r)
  }

  function SourceActions(t: Tables, q: Pair): set<int> {
    set r | r in t.actions && LinksToSource(q, t.actions[r].user, t.actions[r].person)
  }

  function SourceDecisions(t: Tables, q: Pair): set<int> {
    set r | r in t.decisions && LinksToSource(q, t.decisions[r].user, t.decisions[r].person)
  }

  function MergeCountsOf(t: Tables, q: Pair, aliases: map<string, string>): MergeCounts {
    MergeCounts(|Duplicates(t, q)|, |SourceNotes(t, q) - Duplicates(t, q)|,
                |SourceActions(t, q)|, |SourceDecisions(t, q)|,
                |set k | k in t.aliases && OwnedBy(t, q.user, {q.source}, k)|,
                |Written(t, q, aliases).Keys|)
  }

  // The picked display name is already in another row of the user.
  predicate NameCollides(t: Tables, q: Pair, input: MergeInput)
    requires q.primary in t.people && q.source in t.people
  {
    NameTaken(t.people, q.user, PickName(input.resolution, t.people[q.primary].name, t.people[q.source].name), {q.primary})
  }

  function MergePeople(t: Tables, q: Pair, input: MergeInput, now: Instant): (Tables, MergeOutcome) {
    var check := MergeCheck(t, q, input);
    if check.Some? then (t, check.value)
    else if NameCollides(t, q, input) then (t, Rejected(DatabaseError))
    else
      var newName := PickName(input.resolution, t.people[q.primary].name, t.people[q.source].name);
      (MoveAll(t, q, input, now), Merged(MergeCountsOf(t, q, MergedAliases(t, q, newName))))
  }

  // The pair of a merge that goes ahead.
  ghost predicate Mergeable(t: Tables, q: Pair) {
    q.primary != q.source && ActiveFor(t.people, q.user, q.primary) && ActiveFor(t.people, q.user, q.source)
  }

  lemma CheckedIsMergeable(t: Tables, q: Pair, input: MergeInput)
    requires MergeCheck(t, q, input).None?
    ensures Mergeable(t, q)
  {
  }

  lemma AddAliasKeys(aliases: map<string, string>, name: string)
    ensures AddAlias(aliases, name).Keys
         == if NormalizePersonName(name) == "" then aliases.Keys else aliases.Keys + {NormalizePersonName(name)}
  {
    KeyIgnoresTrim(name);
    hide NormalizePersonName, TrimSpace;
  }

  lemma AddRowsKeys(aliases: map<string, string>, t: Tables, user: int, owners: set<int>)
    requires aliases.Keys <= OwnedNorms(t, user, owners)
    requires AliasesOwned(t)
    ensures AddRows(aliases, t, user, owners).Keys == OwnedNorms(t, user, owners)
  {
    OwnedNormsAre(t, user, owners);
    hide OwnedNorms;
  }

  // In a reachable state the merged person's alias keys are exactly those the two already own.
  lemma AliasKeysAreOwned(t: Tables, q: Pair, newName: string)
    requires IdentityInv(t) && Mergeable(t, q)
    requires newName == t.people[q.primary].name || newName == t.people[q.source].name
    ensures MergedAliases(t, q, newName).Keys == OwnedNorms(t, q.user, {q.primary, q.source})
  {
    var p, s := t.people[q.primary], t.people[q.source];
    var owners := {q.primary, q.source};
    assert NameIndexed(t, q.primary) && NameIndexed(t, q.source);
    hide NormalizePersonName, AddAlias, AddRows, OwnedNorms;
    OwnedNormsAre(t, q.user, owners);
    var named := AddAlias(AddAlias(map[], p.name), s.name);
    AddAliasKeys(map[], p.name);
    AddAliasKeys(AddAlias(map[], p.name), s.name);
    AddRowsKeys(named, t, q.user, owners);
    AddAliasKeys(AddRows(named, t, q.user, owners), newName);
  }

  // A merge in a reachable state never reports an identity conflict.
  lemma MergeNeverMeetsAliasConflict(t: Tables, q: Pair, input: MergeInput, now: Instant)
    requires IdentityInv(t)
    ensures MergePeople(t, q, input, now).1 != Rejected(IdentityConflict)
  {
    hide IdentityInv, MergedAliases, AliasConflict, NormalizePersonName, TrimSpace, ResolutionValid, MoveAll, MergeCountsOf;
    if Mergeable(t, q) {
      AliasKeysAreOwned(t, q, PickName(input.resolution, t.people[q.primary].name, t.people[q.source].name));
      OwnedNormsNeverConflict(t, q.user, {q.primary, q.source});
    }
  }

  lemma MoveAliasesRedirects(t: Tables, q: Pair, aliases: map<string, string>)
    requires AliasesOwned(t) && Mergeable(t, q)
    requires aliases.Keys == OwnedNorms(t, q.user, {q.primary, q.source})
    ensures MoveAliases(t, q, aliases).Keys == t.aliases.Keys
    ensures forall k :: k in t.aliases ==>
              MoveAliases(t, q, aliases)[k].person
              == if t.aliases[k].person == q.source then q.primary else t.aliases[k].person
  {
    OwnedNormsAre(t, q.user, {q.primary, q.source});
    hide OwnedNorms;
    var moved := MoveAliases(t, q, aliases);
    forall k | k in t.aliases
      ensures k in moved
      ensures moved[k].person == if t.aliases[k].person == q.source then q.primary else t.aliases[k].person
    {
      assert ActiveFor(t.people, k.0, t.aliases[k].person);
      if k.0 == q.user {
        assert k == (q.user, k.1);
        assert WritesAlias(t, q, aliases.Keys, k) <==> k.1 in aliases;
      }
    }
  }

  // The alias index after a merge: the same keys, with the source's keys now the primary's.
  lemma MergeRedirectsAliases(t: Tables, q: Pair, input: MergeInput, now: Instant)
    requires IdentityInv(t) && Mergeable(t, q)
    ensures var t1 := MoveAll(t, q, input, now);
            && t1.aliases.Keys == t.aliases.Keys
            && forall k :: k in t.aliases ==>
                 t1.aliases[k].person == if t.aliases[k].person == q.source then q.primary else t.aliases[k].person
  {
    hide MergedAliases, NormalizePersonName, PickProfile, TrimSpace, MoveAliases, OwnedNorms, MovePeopleNotes, MoveActions, MoveDecisions;
    var newName := PickName(input.resolution, t.people[q.primary].name, t.people[q.source].name);
    AliasKeysAreOwned(t, q, newName);
    MoveAliasesRedirects(t, q, MergedAliases(t, q, newName));
  }

  lemma MoveAllRecords(t: Tables, q: Pair, input: MergeInput, now: Instant)
    requires q.primary in t.people && q.source in t.people
    ensures var t1 := MoveAll(t, q, input, now);
            && t1.peopleNotes == MovePeopleNotes(t, q)
            && t1.actions == MoveActions(t, q)
            && t1.decisions == MoveDecisions(t, q)
            && t1.nextPerson == t.nextPerson && t1.nextPeopleNote == t.nextPeopleNote
            && t1.nextAction == t.nextAction && t1.nextDecision == t.nextDecision
            && t1.people.Keys == t.people.Keys && t1.mentions == t.mentions
  {
    hide MovePeopleNotes, MoveActions, MoveDecisions, MoveAliases, MergedAliases, PickName, PickProfile, NormalizePersonName;
  }

  // ---- The invariant is kept ----

  // Redirecting one root's pointer to another root keeps every chain finite.
  lemma {:induction false} DepthAfterMerge(people: map<int, Person>, after: map<int, Person>, q: Pair, id: int, d: nat)
    requires AtDepth(people, id, d)
    requires after.Keys == people.Keys && q.primary in people && q.source in people && q.primary != q.source
    requires people[q.primary].user == people[q.source].user && people[q.primary].merged.None?
    requires forall x :: x in people ==> after[x].user == people[x].user
    requires forall x :: x in people ==> after[x].merged == if x == q.source then Some(q.primary) else people[x].merged
    ensures exists e: nat :: AtDepth(after, id, e)
    decreases d
  {
    if id == q.source {
      assert AtDepth(after, q.primary, 0);
      assert AtDepth(after, id, 1);
    } else if d == 0 {
      assert AtDepth(after, id, 0);
    } else {
      var next := people[id].merged.value;
      DepthAfterMerge(people, after, q, next, d - 1);
      var e: nat :| AtDepth(after, next, e);
      assert AtDepth(after, id, e + 1);
    }
  }

  lemma MergeKeepsForest(t: Tables, q: Pair, input: MergeInput, now: Instant)
    requires Forest(t.people) && Mergeable(t, q)
    ensures Forest(MoveAll(t, q, input, now).people)
  {
    hide PickName, NormalizePersonName, PickProfile, MoveAliases, MovePeopleNotes, MoveActions, MoveDecisions, MergedAliases;
    var after := MoveAll(t, q, input, now).people;
    forall id | id in after ensures exists e: nat :: AtDepth(after, id, e) {
      var d: nat :| AtDepth(t.people, id, d);
      DepthAfterMerge(t.people, after, q, id, d);
    }
  }

  // Who is active after a merge: everyone but the source.
  lemma ActiveAfterMerge(t: Tables, q: Pair, input: MergeInput, now: Instant)
    requires Mergeable(t, q)
    ensures var after := MoveAll(t, q, input, now).people;
            forall user, id :: ActiveFor(after, user, id) <==> ActiveFor(t.people, user, id) && id != q.source
  {
    hide PickName, NormalizePersonName, PickProfile, MoveAliases, MovePeopleNotes, MoveActions, MoveDecisions, MergedAliases;
  }

  lemma MergeKeepsAliasesOwned(t: Tables, q: Pair, input: MergeInput, now: Instant)
    requires IdentityInv(t) && Mergeable(t, q)
    ensures AliasesOwned(MoveAll(t, q, input, now))
  {
    MergeRedirectsAliases(t, q, input, now);
    ActiveAfterMerge(t, q, input, now);
    OwnersFollow(t, MoveAll(t, q, input, now), q);
  }

  lemma OwnersFollow(t: Tables, t1: Tables, q: Pair)
    requires AliasesOwned(t) && Mergeable(t, q)
    requires t1.aliases.Keys == t.aliases.Keys
    requires forall k :: k in t.aliases ==>
               t1.aliases[k].person == if t.aliases[k].person == q.source then q.primary else t.aliases[k].person
    requires forall user, id :: ActiveFor(t1.people, user, id) <==> ActiveFor(t.people, user, id) && id != q.source
    ensures AliasesOwned(t1)
  {
    assert ActiveFor(t1.people, q.user, q.primary);
    forall k | k in t1.aliases ensures k.1 != "" && ActiveFor(t1.people, k.0, t1.aliases[k].person) {
      assert ActiveFor(t.people, k.0, t.aliases[k].person);
    }
  }

  lemma MergeKeepsNames(t: Tables, q: Pair, input: MergeInput, now: Instant)
    requires IdentityInv(t) && Mergeable(t, q)
    ensures NamesIndexed(MoveAll(t, q, input, now))
  {
    MergeRedirectsAliases(t, q, input, now);
    ActiveAfterMerge(t, q, input, now);
    NamesAfterMerge(t, q, input, now);
    hide MoveAll, AliasesOwned, Forest, NormalizePersonName;
    var t1 := MoveAll(t, q, input, now);
    forall id | Active(t1.people, id) ensures NameIndexed(t1, id) {
      assert ActiveFor(t1.people, t1.people[id].user, id);
      assert NameIndexed(t, id);
      if id == q.primary { assert NameIndexed(t, q.source); }
    }
  }

  predicate SameName(a: Person, b: Person) {
    a.user == b.user && a.name == b.name && a.norm == b.norm
  }

  // Names change only on the primary, which has its own or the source's afterwards.
  lemma NamesAfterMerge(t: Tables, q: Pair, input: MergeInput, now: Instant)
    requires NamesIndexed(t) && Mergeable(t, q)
    ensures var after := MoveAll(t, q, input, now).people;
            forall id :: id in after ==>
              if id == q.primary then SameName(after[id], t.people[q.primary]) || SameName(after[id], t.people[q.source])
              else SameName(after[id], t.people[id])
  {
    hide NormalizePersonName, PickName, PickProfile, MoveAliases, MovePeopleNotes, MoveActions, MoveDecisions, MergedAliases;
    assert NameIndexed(t, q.primary) && NameIndexed(t, q.source);
    PickNameIsOne(input.resolution, t.people[q.primary].name, t.people[q.source].name);
    hide NamesIndexed;
  }

  lemma PickNameIsOne(resolution: map<string, string>, pv: string, sv: string)
    ensures PickName(resolution, pv, sv) == pv || PickName(resolution, pv, sv) == sv
  {
    hide TrimSpace;
  }

  lemma LinkFollows(t: Tables, people: map<int, Person>, q: Pair, user: int, link: Option<int>)
    requires LinkOk(t.people, user, link) && q.primary != q.source && ActiveFor(t.people, q.user, q.primary)
    requires ActiveFor(t.people, q.user, q.source)
    requires forall u, id :: ActiveFor(people, u, id) <==> ActiveFor(t.people, u, id) && id != q.source
    ensures LinkOk(people, user, if LinksToSource(q, user, link) then Some(q.primary) else link)
  {
  }

  lemma MergeKeepsRecords(t: Tables, q: Pair, input: MergeInput, now: Instant)
    requires RecordsInv(t) && Mergeable(t, q)
    ensures RecordsInv(MoveAll(t, q, input, now))
  {
    MoveAllRecords(t, q, input, now);
    ActiveAfterMerge(t, q, input, now);
    var t1 := MoveAll(t, q, input, now);
    hide MoveAll, ActiveFor, IsDuplicate, LinkOk, LinksToSource;
    forall r | r in t1.peopleNotes ensures ActiveFor(t1.people, t1.peopleNotes[r].user, t1.peopleNotes[r].person) {
      assert ActiveFor(t.people, t.peopleNotes[r].user, t.peopleNotes[r].person);
      assert ActiveFor(t.people, q.user, q.primary) && ActiveFor(t.people, q.user, q.source);
      SourceUser(t.people, q, t.peopleNotes[r].user);
    }
    forall r | r in t1.actions ensures LinkOk(t1.people, t1.actions[r].user, t1.actions[r].person) {
      LinkFollows(t, t1.people, q, t.actions[r].user, t.actions[r].person);
    }
    forall r | r in t1.decisions ensures LinkOk(t1.people, t1.decisions[r].user, t1.decisions[r].person) {
      LinkFollows(t, t1.people, q, t.decisions[r].user, t.decisions[r].person);
    }
  }

  lemma SourceUser(people: map<int, Person>, q: Pair, user: int)
    requires ActiveFor(people, q.user, q.source)
    ensures ActiveFor(people, user, q.source) ==> user == q.user
  {
  }

  lemma MergeKeepsSerials(t: Tables, q: Pair, input: MergeInput, now: Instant)
    requires SerialsFresh(t) && Mergeable(t, q)
    ensures SerialsFresh(MoveAll(t, q, input, now))
  {
    MoveAllRecords(t, q, input, now);
    hide MoveAll, IsDuplicate;
  }

  lemma MergeKeepsRowNames(t: Tables, q: Pair, input: MergeInput, now: Instant)
    requires RowNamesUnique(t.people) && Mergeable(t, q) && !NameCollides(t, q, input)
    ensures RowNamesUnique(MoveAll(t, q, input, now).people)
  {
    hide PickName, NormalizePersonName, PickProfile, MoveAliases, MovePeopleNotes, MoveActions, MoveDecisions, MergedAliases;
  }

  lemma MergeKeepsInv(t: Tables, q: Pair, input: MergeInput, now: Instant)
    requires Inv(t)
    ensures Inv(MergePeople(t, q, input, now).0)
  {
    hide Forest, AliasesOwned, NamesIndexed, RowNamesUnique, RecordsInv, SerialsFresh, MergeCheck, MoveAll, MergedAliases,
      MergeCountsOf, PickName, NameTaken;
    if MergePeople(t, q, input, now).1.Merged? {
      CheckedIsMergeable(t, q, input);
      MergeKeepsRowNames(t, q, input, now);
      MergeKeepsForest(t, q, input, now);
      MergeKeepsAliasesOwned(t, q, input, now);
      MergeKeepsNames(t, q, input, now);
      MergeKeepsRecords(t, q, input, now);
      MergeKeepsSerials(t, q, input, now);
    }
  }

  // ---- What a merge means ----

  function Redirect(r: Resolution, source: int, primary: int): Resolution {
    if r == Found(source) then Found(primary) else r
  }

  lemma PickedNameInReachableState(t: Tables, q: Pair, input: MergeInput)
    requires IdentityInv(t) && Mergeable(t, q)
    ensures var p, s := t.people[q.primary].name, t.people[q.source].name;
            p != s && PickName(input.resolution, p, s) == if PicksSource(input.resolution, "display_name") then s else p
  {
    assert NameIndexed(t, q.primary) && NameIndexed(t, q.source);
    KeyIsEmptyOnlyForBlank(t.people[q.primary].name);
    KeyIsEmptyOnlyForBlank(t.people[q.source].name);
    hide NormalizePersonName, TrimSpace, Forest, AliasesOwned, NamesIndexed, SerialsFresh;
  }

  // The source's row still holds its name when the primary is renamed, and row names are unique:
  // a merge that passes its checks commits exactly if it does not ask for the source's display
  // name, and otherwise fails with nothing changed. The primary always keeps its own name.
  lemma MergeCommitsExactly(t: Tables, q: Pair, input: MergeInput, now: Instant)
    requires IdentityInv(t) && MergeCheck(t, q, input).None?
    ensures var (t1, outcome) := MergePeople(t, q, input, now);
            if PicksSource(input.resolution, "display_name") then t1 == t && outcome == Rejected(DatabaseError)
            else outcome.Merged? && t1.people[q.primary].name == t.people[q.primary].name
  {
    hide MergeCheck, PickName, NormalizePersonName, PickProfile, MoveAliases, MovePeopleNotes, MoveActions, MoveDecisions,
      MergedAliases, MergeCountsOf, Forest, AliasesOwned, NamesIndexed, SerialsFresh, PicksSource, NameTaken;
    CheckedIsMergeable(t, q, input);
    PickedNameInReachableState(t, q, input);
    NamesOfPairAreTaken(t, q);
  }

  // The source's name is taken by the source, and the primary's by nobody else.
  lemma NamesOfPairAreTaken(t: Tables, q: Pair)
    requires RowNamesUnique(t.people) && Mergeable(t, q)
    ensures NameTaken(t.people, q.user, t.people[q.source].name, {q.primary})
    ensures !NameTaken(t.people, q.user, t.people[q.primary].name, {q.primary})
  {
    assert q.source !in {q.primary};
  }

  // Both persons are rows of the user, merged away or not.
  predicate Known(t: Tables, q: Pair) {
    q.primary in t.people && q.source in t.people && t.people[q.primary].user == q.user && t.people[q.source].user == q.user
  }

  // Each choice names one of the seven fields and one of the values.
  ghost predicate Answerable(resolution: map<string, string>) {
    forall item :: item in resolution.Items ==>
      && item.0 in {"display_name", "first_name", "last_name", "job_title", "team", "company", "notes"}
      && item.1 in {"primary", "source", "append", ""}
  }

  lemma AnswerableExactly(resolution: map<string, string>)
    ensures ResolutionValid(resolution) <==> Answerable(resolution)
  {
    if ResolutionValid(resolution) {
      forall item | item in resolution.Items ensures item.0 in PROFILE_FIELDS && item.1 in RESOLUTIONS {
        assert item.0 in resolution && resolution[item.0] == item.1;
      }
    }
    if Answerable(resolution) {
      forall k | k in resolution ensures k in PROFILE_FIELDS && resolution[k] in RESOLUTIONS {
        assert (k, resolution[k]) in resolution.Items;
      }
    }
  }

  lemma AsksForSource(resolution: map<string, string>, field: string)
    ensures PicksSource(resolution, field) <==> (field, "source") in resolution.Items
  {
  }

  // Neither row has changed since the caller read it.
  ghost predicate Current(t: Tables, q: Pair, input: MergeInput)
    requires Mergeable(t, q)
  {
    Expects(input.expectedPrimary, t.people[q.primary]) && Expects(input.expectedSource, t.people[q.source])
  }

  lemma CheckOutcomes(t: Tables, q: Pair, input: MergeInput)
    ensures var check := MergeCheck(t, q, input);
            && (check == Some(Rejected(UpdateConflict)) <==> Mergeable(t, q) && !Current(t, q, input))
            && (check == Some(Rejected(NoSuchPerson)) <==> q.primary != q.source && !Known(t, q))
            && (check == Some(AlreadyMerged) <==>
                  q.primary != q.source && Known(t, q) && t.people[q.source].merged == Some(q.primary))
            && (check.None? || check == Some(Rejected(IdentityConflict)) <==>
                  Mergeable(t, q) && Current(t, q, input) && ResolutionValid(input.resolution))
            && check != Some(Rejected(DatabaseError))
  {
    hide ResolutionValid, MergedAliases, AliasConflict, PickName;
  }

  // Which request ends how, from the request and the rows alone: two different active persons of
  // the user are merged exactly if neither row is newer than expected, the choices can be
  // answered and the source's display name is not asked for. A conflict is what is left: one id
  // twice, a person merged away before, or choices that cannot be answered.
  lemma MergeOutcomes(t: Tables, q: Pair, input: MergeInput, now: Instant)
    requires IdentityInv(t)
    ensures var (t1, outcome) := MergePeople(t, q, input, now);
            var current := Mergeable(t, q) && Current(t, q, input);
            var renames := ("display_name", "source") in input.resolution.Items;
            && (outcome.Merged? <==> current && Answerable(input.resolution) && !renames)
            && (outcome == Rejected(DatabaseError) <==> current && Answerable(input.resolution) && renames)
            && (outcome == Rejected(UpdateConflict) <==> Mergeable(t, q) && !current)
            && (outcome == Rejected(NoSuchPerson) <==> q.primary != q.source && !Known(t, q))
            && (outcome == AlreadyMerged <==>
                  q.primary != q.source && Known(t, q) && t.people[q.source].merged == Some(q.primary))
            && outcome != Rejected(IdentityConflict)
            && (!outcome.Merged? ==> t1 == t)
  {
    MergeNeverMeetsAliasConflict(t, q, input, now);
    AnswerableExactly(input.resolution);
    AsksForSource(input.resolution, "display_name");
    CheckOutcomes(t, q, input);
    hide IdentityInv, ResolutionValid, Answerable, PicksSource, PickName, MergedAliases, MergeCheck, MoveAll, MergeCountsOf,
      NameCollides, NormalizePersonName, Mergeable, Current, Known;
    if MergeCheck(t, q, input).None? {
      MergeCommitsExactly(t, q, input, now);
    }
  }

  // A successful merge is a quotient on name resolution: for every user and name, the old
  // answer with the source replaced by the primary.
  lemma MergeIsQuotient(t: Tables, q: Pair, input: MergeInput, now: Instant, user: int, name: string)
    requires Inv(t) && MergePeople(t, q, input, now).1.Merged?
    ensures ResolvePerson(MergePeople(t, q, input, now).0, user, name)
         == Redirect(ResolvePerson(t, user, name), q.source, q.primary)
  {
    hide MoveAll, MergeCheck, NormalizePersonName, IdentityInv, ResolveKey, MergedAliases, MergeCountsOf, PickName, RecordsInv,
      NameCollides;
    CheckedIsMergeable(t, q, input);
    MergeKeepsInv(t, q, input, now);
    MergeRedirectsAliases(t, q, input, now);
    ResolveIsAliasLookup(t, user, NormalizePersonName(name));
    ResolveIsAliasLookup(MoveAll(t, q, input, now), user, NormalizePersonName(name));
  }

  // A merge that is rejected, or was done before, changes nothing.
  lemma UnsuccessfulMergeChangesNothing(t: Tables, q: Pair, input: MergeInput, now: Instant)
    requires !MergePeople(t, q, input, now).1.Merged?
    ensures MergePeople(t, q, input, now).0 == t
  {
  }

  // A completed merge leaves the source pointing at the primary, and repeating it is a no-op
  // in every state where that pointer still stands.
  lemma RepeatedMergeIsIdempotent(t: Tables, q: Pair, input: MergeInput, now: Instant)
    requires q.primary != q.source
    requires q.primary in t.people && t.people[q.primary].user == q.user
    requires q.source in t.people && t.people[q.source].user == q.user
    requires t.people[q.source].merged == Some(q.primary)
    ensures MergePeople(t, q, input, now) == (t, AlreadyMerged)
  {
  }

  type Fact = (Option<int>, string, Option<string>, string)

  function FactOf(n: PeopleNote): Fact { (n.note, n.typ, n.theme, n.text) }

  // What is recorded about a person.
  function Facts(t: Tables, user: int, person: int): set<Fact> {
    set r | r in t.peopleNotes && t.peopleNotes[r].user == user && t.peopleNotes[r].person == person
      :: FactOf(t.peopleNotes[r])
  }

  // No fact about either person is lost by the merge and none is made up.
  lemma MergeUnitesFacts(t: Tables, q: Pair, input: MergeInput, now: Instant)
    requires RecordsInv(t) && Mergeable(t, q)
    ensures var t1 := MoveAll(t, q, input, now);
            && Facts(t1, q.user, q.primary) == Facts(t, q.user, q.primary) + Facts(t, q.user, q.source)
            && Facts(t1, q.user, q.source) == {}
  {
    hide MoveAll, RecordsInv;
    MoveAllRecords(t, q, input, now);
    var t1 := MoveAll(t, q, input, now);
    var pn, pn1 := t.peopleNotes, t1.peopleNotes;
    var united := Facts(t, q.user, q.primary) + Facts(t, q.user, q.source);
    forall f | f in united ensures f in Facts(t1, q.user, q.primary) {
      var r :| r in pn && pn[r].user == q.user && pn[r].person in {q.primary, q.source} && FactOf(pn[r]) == f;
      if IsDuplicate(t, q, r) {
        var p :| p in pn && pn[p].person == q.primary && SameFact(pn[p], pn[r]);
        assert p in pn1 && FactOf(pn1[p]) == f;
      } else {
        assert r in pn1 && FactOf(pn1[r]) == f;
      }
    }
    forall f | f in Facts(t1, q.user, q.primary) ensures f in united {
      var r :| r in pn1 && pn1[r].user == q.user && pn1[r].person == q.primary && FactOf(pn1[r]) == f;
      assert FactOf(pn[r]) == f && pn[r].person in {q.primary, q.source};
    }
  }

  function MovedLink(q: Pair, link: Option<int>): Option<int> {
    if link == Some(q.source) then Some(q.primary) else link
  }

  lemma LinkMoves(t: Tables, q: Pair, user: int, link: Option<int>)
    requires LinkOk(t.people, user, link) && Mergeable(t, q)
    ensures (if LinksToSource(q, user, link) then Some(q.primary) else link) == MovedLink(q, link)
  {
  }

  // Exactly the source's facts that the primary has too go away, every other record stays, and
  // nothing of a record changes but a link to the source.
  lemma MergeMovesRecords(t: Tables, q: Pair, input: MergeInput, now: Instant)
    requires Inv(t) && MergePeople(t, q, input, now).1.Merged?
    ensures var t1 := MergePeople(t, q, input, now).0;
            && (forall r :: r in t1.peopleNotes <==>
                  r in t.peopleNotes
                  && !(t.peopleNotes[r].person == q.source && FactOf(t.peopleNotes[r]) in Facts(t, q.user, q.primary)))
            && (forall r :: r in t1.peopleNotes ==>
                  t1.peopleNotes[r]
                  == t.peopleNotes[r].(person := if t.peopleNotes[r].person == q.source then q.primary else t.peopleNotes[r].person))
            && t1.actions.Keys == t.actions.Keys
            && (forall r :: r in t.actions ==> t1.actions[r] == t.actions[r].(person := MovedLink(q, t.actions[r].person)))
            && t1.decisions.Keys == t.decisions.Keys
            && (forall r :: r in t.decisions ==> t1.decisions[r] == t.decisions[r].(person := MovedLink(q, t.decisions[r].person)))
            && t1.mentions == t.mentions
  {
    hide MoveAll, MergeCheck, MergedAliases, PickName, MergeCountsOf, IdentityInv, NameCollides;
    CheckedIsMergeable(t, q, input);
    MoveAllRecords(t, q, input, now);
    assert RecordsInv(t);
    NotesGoExactly(t, q);
    hide MovePeopleNotes, LinkOk, ActiveFor, Mergeable, Facts;
    forall r | r in t.actions ensures MoveActions(t, q)[r] == t.actions[r].(person := MovedLink(q, t.actions[r].person)) {
      LinkMoves(t, q, t.actions[r].user, t.actions[r].person);
    }
    forall r | r in t.decisions ensures MoveDecisions(t, q)[r] == t.decisions[r].(person := MovedLink(q, t.decisions[r].person)) {
      LinkMoves(t, q, t.decisions[r].user, t.decisions[r].person);
    }
  }

  lemma NotesGoExactly(t: Tables, q: Pair)
    requires RecordsInv(t) && Mergeable(t, q)
    ensures var m, m1 := t.peopleNotes, MovePeopleNotes(t, q);
            && (forall r :: r in m1 <==> r in m && !(m[r].person == q.source && FactOf(m[r]) in Facts(t, q.user, q.primary)))
            && (forall r :: r in m1 ==> m1[r] == m[r].(person := if m[r].person == q.source then q.primary else m[r].person))
  {
    var m := t.peopleNotes;
    forall r | r in m
      ensures IsSourceNote(t, q, r) <==> m[r].person == q.source
      ensures IsDuplicate(t, q, r) <==> m[r].person == q.source && FactOf(m[r]) in Facts(t, q.user, q.primary)
    {
      assert ActiveFor(t.people, m[r].user, m[r].person);
      if IsDuplicate(t, q, r) {
        var p :| p in m && m[p].person == q.primary && SameFact(m[p], m[r]);
        assert FactOf(m[p]) in Facts(t, q.user, q.primary);
      }
      if m[r].person == q.source && FactOf(m[r]) in Facts(t, q.user, q.primary) {
        var p :| p in m && m[p].user == q.user && m[p].person == q.primary && FactOf(m[p]) == FactOf(m[r]);
        assert SameFact(m[p], m[r]);
      }
    }
    hide IsSourceNote, IsDuplicate, Facts, FactOf;
  }

  // ---- Alias rows ----

  // The keys of one of the persons.
  function KeysLedTo(t: Tables, owners: set<int>): set<AliasKey> {
    set k | k in t.aliases && t.aliases[k].person in owners
  }

  lemma {:induction false} NormsOfKeys(user: int, norms: set<string>, keys: set<AliasKey>)
    requires forall k :: k in keys <==> k.0 == user && k.1 in norms
    ensures |keys| == |norms|
    decreases |norms|
  {
    if norms == {} {
      assert keys == {};
    } else {
      var n :| n in norms;
      assert (user, n) in keys;
      forall k: AliasKey ensures k in keys - {(user, n)} <==> k.0 == user && k.1 in norms - {n} {
        assert k == (k.0, k.1);
      }
      NormsOfKeys(user, norms - {n}, keys - {(user, n)});
    }
  }

  lemma AddAliasMeans(aliases: map<string, string>, name: string)
    ensures AddAlias(aliases, name)
         == if NormalizePersonName(name) == "" || NormalizePersonName(name) in aliases then aliases
            else aliases[NormalizePersonName(name) := TrimSpace(name)]
  {
    KeyIgnoresTrim(name);
    hide NormalizePersonName, TrimSpace;
  }

  lemma AddRowsMeans(aliases: map<string, string>, t: Tables, user: int, owners: set<int>)
    ensures forall n :: n in AddRows(aliases, t, user, owners) ==>
              if n in aliases then AddRows(aliases, t, user, owners)[n] == aliases[n]
              else (user, n) in t.aliases && AddRows(aliases, t, user, owners)[n] == t.aliases[(user, n)].alias
    ensures forall n :: n in aliases ==> n in AddRows(aliases, t, user, owners)
  {
  }

  // The alias texts that the merge writes: the names of the two, trimmed, and the stored texts.
  lemma MergedTexts(t: Tables, q: Pair, newName: string)
    requires IdentityInv(t) && Mergeable(t, q)
    requires newName == t.people[q.primary].name || newName == t.people[q.source].name
    ensures var p, s, aliases := t.people[q.primary], t.people[q.source], MergedAliases(t, q, newName);
            forall n :: n in aliases ==>
              (q.user, n) in t.aliases
              && aliases[n] == if n == p.norm then TrimSpace(p.name) else if n == s.norm then TrimSpace(s.name)
                               else t.aliases[(q.user, n)].alias
  {
    var p, s := t.people[q.primary], t.people[q.source];
    assert NameIndexed(t, q.primary) && NameIndexed(t, q.source);
    hide NormalizePersonName, TrimSpace, IdentityInv, AddAlias, AddRows;
    var named := AddAlias(AddAlias(map[], p.name), s.name);
    AddAliasMeans(map[], p.name);
    AddAliasMeans(AddAlias(map[], p.name), s.name);
    AddRowsMeans(named, t, q.user, {q.primary, q.source});
    AddAliasMeans(AddRows(named, t, q.user, {q.primary, q.source}), newName);
    assert (q.user, p.norm) in t.aliases && (q.user, s.norm) in t.aliases;
  }

  // Every key of the two leads to the primary afterwards, under the trimmed name of the one whose
  // name it is the key of and otherwise under its old text; no other alias changes. The reported
  // counts are the source's keys and the keys of both.
  lemma MergeMovesAliases(t: Tables, q: Pair, input: MergeInput, now: Instant)
    requires Inv(t) && MergePeople(t, q, input, now).1.Merged?
    ensures var (t1, outcome) := MergePeople(t, q, input, now);
            var p, s := t.people[q.primary], t.people[q.source];
            && t1.aliases.Keys == t.aliases.Keys
            && (forall k :: k in t.aliases ==>
                  t1.aliases[k] ==
                  if t.aliases[k].person !in {q.primary, q.source} then t.aliases[k]
                  else Alias(q.primary, if k.1 == p.norm then TrimSpace(p.name) else if k.1 == s.norm then TrimSpace(s.name)
                                        else t.aliases[k].alias))
            && outcome.counts.aliasesDeduplicated == |KeysLedTo(t, {q.source})|
            && outcome.counts.aliasesMoved == |KeysLedTo(t, {q.primary, q.source})|
  {
    CheckedIsMergeable(t, q, input);
    hide MergeCheck, NormalizePersonName, PickProfile, TrimSpace, MovePeopleNotes, MoveActions, MoveDecisions, MergedAliases,
      RecordsInv, NameCollides, PickName, MoveAliases, Written, Duplicates, SourceNotes, SourceActions, SourceDecisions, KeysLedTo,
      IdentityInv;
    PickNameIsOne(input.resolution, t.people[q.primary].name, t.people[q.source].name);
    var newName := PickName(input.resolution, t.people[q.primary].name, t.people[q.source].name);
    AliasKeysAreOwned(t, q, newName);
    MergedTexts(t, q, newName);
    AliasRowsMove(t, q, MergedAliases(t, q, newName));
    AliasCountsAre(t, q, MergedAliases(t, q, newName));
  }

  // A row of one of the two becomes the primary's, and any other stays.
  ghost predicate RowJoins(t: Tables, q: Pair, aliases: map<string, string>, moved: map<AliasKey, Alias>, k: AliasKey)
    requires k in t.aliases
  {
    k in moved
    && if t.aliases[k].person !in {q.primary, q.source} then moved[k] == t.aliases[k]
       else k.1 in aliases && k.0 == q.user && moved[k] == Alias(q.primary, aliases[k.1])
  }

  ghost predicate RowsJoin(t: Tables, q: Pair, aliases: map<string, string>, moved: map<AliasKey, Alias>) {
    moved.Keys == t.aliases.Keys && forall k :: k in t.aliases ==> RowJoins(t, q, aliases, moved, k)
  }

  lemma AliasRowsMove(t: Tables, q: Pair, aliases: map<string, string>)
    requires AliasesOwned(t) && Mergeable(t, q) && aliases.Keys == OwnedNorms(t, q.user, {q.primary, q.source})
    ensures RowsJoin(t, q, aliases, MoveAliases(t, q, aliases))
  {
    MoveAliasesRedirects(t, q, aliases);
    hide OwnedNorms, AliasesOwned, MoveAliases, Mergeable;
    forall k | k in t.aliases ensures RowJoins(t, q, aliases, MoveAliases(t, q, aliases), k) {
      MovedAlias(t, q, aliases, k);
    }
  }

  lemma AliasCountsAre(t: Tables, q: Pair, aliases: map<string, string>)
    requires AliasesOwned(t) && Mergeable(t, q) && aliases.Keys == OwnedNorms(t, q.user, {q.primary, q.source})
    ensures |set k | k in t.aliases && OwnedBy(t, q.user, {q.source}, k)| == |KeysLedTo(t, {q.source})|
    ensures |Written(t, q, aliases).Keys| == |KeysLedTo(t, {q.primary, q.source})|
  {
    OwnedNormsAre(t, q.user, {q.primary, q.source});
    OwnersOfPair(t, q);
    hide OwnedNorms, OwnedBy, AliasesOwned, Mergeable, KeysLedTo, Written;
    SourceKeys(t, q);
    AllAreWritten(t, q, aliases);
    OwnedKeys(t, q);
    NormsOfKeys(q.user, aliases.Keys, KeysLedTo(t, {q.primary, q.source}));
  }

  lemma MovedAlias(t: Tables, q: Pair, aliases: map<string, string>, k: AliasKey)
    requires AliasesOwned(t) && Mergeable(t, q) && aliases.Keys == OwnedNorms(t, q.user, {q.primary, q.source}) && k in t.aliases
    ensures RowJoins(t, q, aliases, MoveAliases(t, q, aliases), k)
  {
    OwnedNormsAre(t, q.user, {q.primary, q.source});
    assert ActiveFor(t.people, k.0, t.aliases[k].person) && k == (k.0, k.1);
    hide OwnedNorms, AliasesOwned;
    if t.aliases[k].person in {q.primary, q.source} {
      assert k == (q.user, k.1) && k.1 in aliases && WritesAlias(t, q, aliases.Keys, k);
    } else {
      assert k.0 == q.user ==> !WritesAlias(t, q, aliases.Keys, k);
    }
  }

  lemma SourceKeys(t: Tables, q: Pair)
    requires forall k :: k in t.aliases && t.aliases[k].person in {q.primary, q.source} ==> k.0 == q.user
    ensures (set k | k in t.aliases && OwnedBy(t, q.user, {q.source}, k)) == KeysLedTo(t, {q.source})
  {
  }

  lemma AllAreWritten(t: Tables, q: Pair, aliases: map<string, string>)
    requires forall n :: n in aliases <==> OwnedBy(t, q.user, {q.primary, q.source}, (q.user, n))
    ensures Written(t, q, aliases).Keys == aliases.Keys
  {
  }

  lemma OwnedKeys(t: Tables, q: Pair)
    requires forall k :: k in t.aliases && t.aliases[k].person in {q.primary, q.source} ==> k.0 == q.user
    requires forall k: AliasKey :: k == (k.0, k.1)
    ensures forall k :: k in KeysLedTo(t, {q.primary, q.source}) <==>
              k.0 == q.user && OwnedBy(t, q.user, {q.primary, q.source}, (q.user, k.1))
  {
  }

  lemma OwnersOfPair(t: Tables, q: Pair)
    requires AliasesOwned(t) && Mergeable(t, q)
    ensures forall k :: k in t.aliases && t.aliases[k].person in {q.primary, q.source} ==> k.0 == q.user
    ensures forall k: AliasKey :: k == (k.0, k.1)
  {
  }

  function ActionsOf(t: Tables, q: Pair, person: int): set<int> {
    set r | r in t.actions && t.actions[r].user == q.user && t.actions[r].person == Some(person)
  }

  function DecisionsOf(t: Tables, q: Pair, person: int): set<int> {
    set r | r in t.decisions && t.decisions[r].user == q.user && t.decisions[r].person == Some(person)
  }

  function NotesOf(t: Tables, q: Pair, person: int): set<int> {
    set r | r in t.peopleNotes && t.peopleNotes[r].user == q.user && t.peopleNotes[r].person == person
  }

  lemma DisjointUnionSize<T>(a: set<T>, b: set<T>)
    requires a !! b
    ensures |a + b| == |a| + |b|
  {
  }

  // The reported counts are exact: every people note of the source was either removed as a
  // duplicate or now belongs to the primary, and no action or decision is lost.
  lemma MergeConservesRecords(t: Tables, q: Pair, input: MergeInput, now: Instant)
    requires RecordsInv(t) && MergePeople(t, q, input, now).1.Merged?
    ensures var (t1, outcome) := MergePeople(t, q, input, now);
            var c := outcome.counts;
            && c.notesReassigned + c.notesDeduplicated == |NotesOf(t, q, q.source)|
            && |NotesOf(t1, q, q.primary)| == |NotesOf(t, q, q.primary)| + c.notesReassigned
            && |NotesOf(t1, q, q.source)| == 0
            && |ActionsOf(t1, q, q.primary)| == |ActionsOf(t, q, q.primary)| + c.actionsReassigned
            && |ActionsOf(t1, q, q.source)| == 0
            && t1.actions.Keys == t.actions.Keys
            && |DecisionsOf(t1, q, q.primary)| == |DecisionsOf(t, q, q.primary)| + c.decisionsReassigned
            && |DecisionsOf(t1, q, q.source)| == 0
            && t1.decisions.Keys == t.decisions.Keys
  {
    hide MoveAll, MergeCheck, MergedAliases, PickName, MergeCountsOf, RecordsInv, NotesOf, ActionsOf, DecisionsOf;
    CheckedIsMergeable(t, q, input);
    MoveAllRecords(t, q, input, now);
    NotesMove(t, MoveAll(t, q, input, now), q);
    ActionsMove(t, MoveAll(t, q, input, now), q);
    DecisionsMove(t, MoveAll(t, q, input, now), q);
    CountsAre(t, q, input, now);
  }

  lemma CountsAre(t: Tables, q: Pair, input: MergeInput, now: Instant)
    requires MergePeople(t, q, input, now).1.Merged?
    ensures var c := MergePeople(t, q, input, now).1.counts;
            && c.notesDeduplicated == |Duplicates(t, q)|
            && c.notesReassigned == |SourceNotes(t, q) - Duplicates(t, q)|
            && c.actionsReassigned == |SourceActions(t, q)|
            && c.decisionsReassigned == |SourceDecisions(t, q)|
  {
    hide MoveAll, MergeCheck, MergedAliases, PickName, Duplicates, SourceNotes, SourceActions, SourceDecisions;
  }

  lemma NotesMove(t: Tables, t1: Tables, q: Pair)
    requires t1.peopleNotes == MovePeopleNotes(t, q) && q.primary != q.source
    ensures |Duplicates(t, q)| + |SourceNotes(t, q) - Duplicates(t, q)| == |NotesOf(t, q, q.source)|
    ensures |NotesOf(t1, q, q.primary)| == |NotesOf(t, q, q.primary)| + |SourceNotes(t, q) - Duplicates(t, q)|
    ensures NotesOf(t1, q, q.source) == {}
  {
    var before, moved, gone := NotesOf(t, q, q.primary), SourceNotes(t, q) - Duplicates(t, q), Duplicates(t, q);
    var after := NotesOf(t1, q, q.primary);
    DuplicatesAreSourceNotes(t, q);
    hide IsDuplicate;
    assert moved + gone == NotesOf(t, q, q.source);
    DisjointUnionSize(moved, gone);
    forall r | r in t.peopleNotes ensures (r in after <==> r in before || r in moved) && !(r in before && r in moved) {
    }
    assert after == before + moved;
    DisjointUnionSize(before, moved);
  }

  lemma DuplicatesAreSourceNotes(t: Tables, q: Pair)
    ensures Duplicates(t, q) <= SourceNotes(t, q)
    ensures forall r :: IsDuplicate(t, q, r) ==> IsSourceNote(t, q, r)
  {
  }

  lemma ActionsMove(t: Tables, t1: Tables, q: Pair)
    requires t1.actions == MoveActions(t, q) && q.primary != q.source
    ensures |ActionsOf(t1, q, q.primary)| == |ActionsOf(t, q, q.primary)| + |SourceActions(t, q)|
    ensures ActionsOf(t1, q, q.source) == {} && t1.actions.Keys == t.actions.Keys
  {
    assert Some(q.primary) != Some(q.source);
    var before, moved, after := ActionsOf(t, q, q.primary), SourceActions(t, q), ActionsOf(t1, q, q.primary);
    forall r | r in t.actions
      ensures (r in after <==> r in before || r in moved) && !(r in before && r in moved)
      ensures r !in ActionsOf(t1, q, q.source)
    {
    }
    assert after == before + moved && ActionsOf(t1, q, q.source) == {};
    DisjointUnionSize(before, moved);
  }

  lemma DecisionsMove(t: Tables, t1: Tables, q: Pair)
    requires t1.decisions == MoveDecisions(t, q) && q.primary != q.source
    ensures |DecisionsOf(t1, q, q.primary)| == |DecisionsOf(t, q, q.primary)| + |SourceDecisions(t, q)|
    ensures DecisionsOf(t1, q, q.source) == {} && t1.decisions.Keys == t.decisions.Keys
  {
    assert Some(q.primary) != Some(q.source);
    var before, moved, after := DecisionsOf(t, q, q.primary), SourceDecisions(t, q), DecisionsOf(t1, q, q.primary);
    forall r | r in t.decisions
      ensures (r in after <==> r in before || r in moved) && !(r in before && r in moved)
      ensures r !in DecisionsOf(t1, q, q.source)
    {
    }
    assert after == before + moved && DecisionsOf(t1, q, q.source) == {};
    DisjointUnionSize(before, moved);
  }

  predicate Absent(v: Option<string>) {
    v.None? || Blank(v.value)
  }

  lemma MissingMeansAbsent(v: Option<string>)
    ensures Missing(v) <==> Absent(v)
  {
    if v.Some? { TrimSpaceShape(v.value); }
    hide TrimSpace, Blank;
  }

  // r is a fair choice between the primary's value p and the source's value s: nothing present is
  // lost to something missing or made up, and the source's value wins only where it is asked for
  // or needed.
  predicate FairChoice(asksSource: bool, p: Option<string>, s: Option<string>, r: Option<string>) {
    && (Absent(r) <==> Absent(p) && Absent(s))
    && (!Absent(p) && !Absent(s) ==> r == if asksSource then s else p)
    && (Absent(p) != Absent(s) ==> r == if Absent(p) then s else p)
  }

  predicate FairNotes(resolution: map<string, string>, p: Option<string>, s: Option<string>, r: Option<string>) {
    if ("notes", "append") in resolution.Items && !Absent(p) && !Absent(s) && p != s
    then r == Some(p.value + "\n\n--- merged notes ---\n\n" + s.value)
    else FairChoice(("notes", "source") in resolution.Items, p, s, r)
  }

  predicate FairProfile(resolution: map<string, string>, p: Profile, s: Profile, r: Profile) {
    && FairChoice(("first_name", "source") in resolution.Items, p.first, s.first, r.first)
    && FairChoice(("last_name", "source") in resolution.Items, p.last, s.last, r.last)
    && FairChoice(("job_title", "source") in resolution.Items, p.title, s.title, r.title)
    && FairChoice(("team", "source") in resolution.Items, p.team, s.team, r.team)
    && FairChoice(("company", "source") in resolution.Items, p.company, s.company, r.company)
    && FairNotes(resolution, p.notes, s.notes, r.notes)
  }

  lemma PickedFieldIsFair(resolution: map<string, string>, field: string, p: Option<string>, s: Option<string>)
    ensures FairChoice((field, "source") in resolution.Items, p, s, PickField(resolution, field, p, s))
  {
    MissingMeansAbsent(p);
    MissingMeansAbsent(s);
    AsksForSource(resolution, field);
    hide Missing, Absent, PicksSource;
  }

  lemma PickedNotesAreFair(resolution: map<string, string>, p: Option<string>, s: Option<string>)
    ensures FairNotes(resolution, p, s, PickNotes(resolution, p, s))
  {
    MissingMeansAbsent(p);
    MissingMeansAbsent(s);
    AsksForSource(resolution, "notes");
    assert ("notes", "append") in resolution.Items <==> "notes" in resolution && resolution["notes"] == "append";
    hide Missing, PicksSource;
  }

  lemma PickedProfileIsFair(resolution: map<string, string>, p: Profile, s: Profile)
    ensures FairProfile(resolution, p, s, PickProfile(resolution, p, s))
  {
    PickedFieldIsFair(resolution, "first_name", p.first, s.first);
    PickedFieldIsFair(resolution, "last_name", p.last, s.last);
    PickedFieldIsFair(resolution, "job_title", p.title, s.title);
    PickedFieldIsFair(resolution, "team", p.team, s.team);
    PickedFieldIsFair(resolution, "company", p.company, s.company);
    PickedNotesAreFair(resolution, p.notes, s.notes);
    hide FairChoice, FairNotes, PickField, PickNotes;
  }

  lemma PersonsAfterMerge(t: Tables, q: Pair, input: MergeInput, now: Instant)
    requires q.primary in t.people && q.source in t.people && q.primary != q.source
    ensures var people := MoveAll(t, q, input, now).people;
            && people.Keys == t.people.Keys
            && (forall id :: id in t.people && id !in {q.primary, q.source} ==> people[id] == t.people[id])
            && people[q.source] == t.people[q.source].(merged := Some(q.primary), updated := now)
            && people[q.primary]
               == t.people[q.primary].(name := people[q.primary].name, norm := NormalizePersonName(people[q.primary].name),
                                       profile := people[q.primary].profile, updated := now)
            && people[q.primary].profile
               == PickProfile(input.resolution, t.people[q.primary].profile, t.people[q.source].profile)
  {
    hide PickName, PickProfile, NormalizePersonName, MoveAliases, MovePeopleNotes, MoveActions, MoveDecisions, MergedAliases;
  }

  // What a merge makes of the two persons: the primary keeps its name and gets a fair choice of
  // each profile field, with both texts of the notes where appending is asked for; the source
  // keeps its own row and points at the primary; no other person changes.
  lemma MergePicksProfile(t: Tables, q: Pair, input: MergeInput, now: Instant)
    requires IdentityInv(t) && MergePeople(t, q, input, now).1.Merged?
    ensures var people := MergePeople(t, q, input, now).0.people;
            && q.primary in t.people && q.source in t.people
            && people.Keys == t.people.Keys
            && (forall id :: id in t.people && id !in {q.primary, q.source} ==> people[id] == t.people[id])
            && people[q.source] == t.people[q.source].(merged := Some(q.primary), updated := now)
            && people[q.primary] == t.people[q.primary].(profile := people[q.primary].profile, updated := now)
            && FairProfile(input.resolution, t.people[q.primary].profile, t.people[q.source].profile, people[q.primary].profile)
  {
    CheckedIsMergeable(t, q, input);
    MergeCommitsExactly(t, q, input, now);
    PersonsAfterMerge(t, q, input, now);
    PickedProfileIsFair(input.resolution, t.people[q.primary].profile, t.people[q.source].profile);
    assert NameIndexed(t, q.primary);
    hide NormalizePersonName, MergeCheck, MoveAll, MergeCountsOf, PickProfile, FairProfile, NameCollides, IdentityInv;
  }

  lemma NotedMeansFacts(t: Tables, user: int, person: int)
    ensures HasNotes(t, user, person) <==> Facts(t, user, person) != {}
  {
    if HasNotes(t, user, person) {
      var r :| r in t.peopleNotes && t.peopleNotes[r].user == user && t.peopleNotes[r].person == person;
      assert FactOf(t.peopleNotes[r]) in Facts(t, user, person);
    }
    if Facts(t, user, person) != {} {
      var f :| f in Facts(t, user, person);
    }
  }

  // A merge answers with the primary's profile, which it looks up after the commit: it answers
  // "not found" although it has merged if neither person has people notes.
  lemma MergeAnswers(t: Tables, q: Pair, input: MergeInput, now: Instant)
    requires Inv(t) && MergePeople(t, q, input, now).1.Merged?
    ensures ProfileLookup(MergePeople(t, q, input, now).0, q.user, q.primary)
         == if HasNotes(t, q.user, q.primary) || HasNotes(t, q.user, q.source) then Some(q.primary) else None
  {
    hide MoveAll, MergeCheck, NameCollides, MergeCountsOf, MergedAliases, PickName, IdentityInv, RecordsInv, HasNotes, Facts, ProfileLookup;
    CheckedIsMergeable(t, q, input);
    MergeKeepsInv(t, q, input, now);
    var t1 := MoveAll(t, q, input, now);
    ActiveAfterMerge(t, q, input, now);
    LookupOfActive(t1, q.user, q.primary);
    MergeUnitesFacts(t, q, input, now);
    NotedMeansFacts(t, q.user, q.primary);
    NotedMeansFacts(t, q.user, q.source);
    NotedMeansFacts(t1, q.user, q.primary);
  }
}
