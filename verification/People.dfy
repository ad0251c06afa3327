// The tables of persons and of the records that point at them, their invariant, and upsertPerson,
// ResolvePerson and the profile lookup of internal/adapters/store as functions on the tables.
module People {
  import opened Options
  import opened Text
  import opened Names
  import opened Sets

  type Instant = int

  // The unique index (user_id, normalized_alias).
  type AliasKey = (int, string)

  datatype Profile = Profile(first: Option<string>, last: Option<string>, title: Option<string>,
                             team: Option<string>, company: Option<string>, notes: Option<string>)

  datatype Person = Person(user: int, name: string, norm: string, profile: Profile,
                           updated: Instant, merged: Option<int>)

  datatype Alias = Alias(person: int, alias: string)

  datatype PeopleNote = PeopleNote(user: int, person: int, note: Option<int>, typ: string,
                                   theme: Option<string>, text: string, review: bool)

  datatype Action = Action(user: int, note: Option<int>, person: Option<int>, title: string, output: string, open: bool)

  datatype DecisionRow = DecisionRow(user: int, note: int, person: Option<int>, text: string, topic: string)

  // The unique index (note_id, entity_type, normalized_value).
  datatype MentionKey = MentionKey(note: int, typ: string, value: string)
  datatype MentionRow = MentionRow(user: int, rawValue: string, display: string, context: string)

  // The tables, each keyed by its primary key or unique index, and the next serial numbers.
  datatype Tables = Tables(
    people: map<int, Person>, aliases: map<AliasKey, Alias>,
    peopleNotes: map<int, PeopleNote>, actions: map<int, Action>, decisions: map<int, DecisionRow>,
    mentions: map<MentionKey, MentionRow>,
    nextPerson: int, nextPeopleNote: int, nextAction: int, nextDecision: int)

  const NO_PROFILE := Profile(None, None, None, None, None, None)
  const EMPTY := Tables(map[], map[], map[], map[], map[], map[], 1, 1, 1, 1)
  const MAX_HOPS := 10

  // ---- Merge pointers ----

  datatype Hop = Hop(id: int, merged: Option<int>, depth: nat)

  // The rows of the recursive query that follows merge pointers from id, at most left more times.
  function ChainRows(people: map<int, Person>, user: int, id: int, depth: nat, path: set<int>,
                     left: nat): (rows: seq<Hop>)
    requires id in people
    ensures rows != []
    decreases left
  {
    var merged := people[id].merged;
    [Hop(id, merged, depth)] +
    if merged.Some? && left > 0 && merged.value in people && people[merged.value].user == user
       && merged.value !in path + {id}
    then ChainRows(people, user, merged.value, depth + 1, path + {id}, left - 1)
    else []
  }

  // Earlier in the order (merged_into_person_id IS NULL) DESC, depth DESC.
  predicate Precedes(a: Hop, b: Hop) {
    if a.merged.None? == b.merged.None? then a.depth > b.depth else a.merged.None?
  }

  function FirstRow(rows: seq<Hop>): (h: Hop)
    requires rows != []
    ensures h in rows
  {
    if |rows| == 1 then rows[0]
    else
      var r := FirstRow(rows[1..]);
      if Precedes(rows[0], r) then rows[0] else r
  }

  // The row that the recursive query selects, starting from id.
  function FollowMerges(people: map<int, Person>, user: int, id: int): (h: Hop)
    requires id in people
  {
    FirstRow(ChainRows(people, user, id, 0, {}, MAX_HOPS))
  }

  // id is d merge pointers below an active person of the same user.
  ghost predicate AtDepth(people: map<int, Person>, id: int, d: nat)
    decreases d
  {
    && id in people
    && match people[id].merged
       case None => d == 0
       case Some(q) => d > 0 && q in people && people[q].user == people[id].user && AtDepth(people, q, d - 1)
  }

  // Every merge pointer leads, within one user, to an active person: no cycles, no dangling pointers.
  ghost predicate Forest(people: map<int, Person>) {
    forall id :: id in people ==> exists d: nat :: AtDepth(people, id, d)
  }

  // The person n pointers above id.
  ghost function Up(people: map<int, Person>, id: int, n: nat): int
    decreases n
  {
    if n == 0 || id !in people || people[id].merged.None? then id
    else Up(people, people[id].merged.value, n - 1)
  }

  lemma {:induction false} DepthIsUnique(people: map<int, Person>, id: int, d: nat, e: nat)
    requires AtDepth(people, id, d) && AtDepth(people, id, e)
    ensures d == e
    decreases d
  {
    if people[id].merged.Some? {
      DepthIsUnique(people, people[id].merged.value, d - 1, e - 1);
    }
  }

  lemma {:induction false} RootIsAtTheTop(people: map<int, Person>, id: int, d: nat)
    requires AtDepth(people, id, d)
    ensures Up(people, id, d) in people && people[Up(people, id, d)].merged.None?
    ensures people[Up(people, id, d)].user == people[id].user
    decreases d
  {
    if d > 0 {
      RootIsAtTheTop(people, people[id].merged.value, d - 1);
    }
  }

  ghost predicate Below(people: map<int, Person>, x: int, d: nat) {
    exists e: nat :: e > d && AtDepth(people, x, e)
  }

  ghost predicate AllBelow(people: map<int, Person>, path: set<int>, d: nat) {
    forall x :: x in path ==> Below(people, x, d)
  }

  lemma PathStaysBelow(people: map<int, Person>, id: int, path: set<int>, d: nat)
    requires d > 0 && AtDepth(people, id, d) && AllBelow(people, path, d)
    ensures AllBelow(people, path + {id}, d - 1)
    ensures people[id].merged.value !in path + {id}
  {
    var q := people[id].merged.value;
    forall x | x in path + {id} ensures Below(people, x, d - 1) && x != q {
      var e: nat :| e >= d && AtDepth(people, x, e);
      if x == q { DepthIsUnique(people, q, d - 1, e); }
    }
  }

  lemma {:induction false} ChainClimbs(people: map<int, Person>, id: int, depth: nat, path: set<int>, left: nat, d: nat)
    requires AtDepth(people, id, d) && AllBelow(people, path, d)
    ensures var h := FirstRow(ChainRows(people, people[id].user, id, depth, path, left));
            && h.id == Up(people, id, Min(d, left))
            && h.depth == depth + Min(d, left)
            && (h.merged.None? <==> d <= left)
    decreases d
  {
    hide AllBelow, ChainRows, FirstRow;
    if d > 0 && left > 0 {
      PathStaysBelow(people, id, path, d);
      var q := people[id].merged.value;
      ChainClimbs(people, q, depth + 1, path + {id}, left - 1, d - 1);
      ChainStep(people, people[id].user, id, depth, path, left);
      FirstRowSkips(Hop(id, Some(q), depth), ChainRows(people, people[id].user, q, depth + 1, path + {id}, left - 1));
      assert Up(people, id, Min(d, left)) == Up(people, q, Min(d - 1, left - 1));
    } else {
      ChainStops(people, people[id].user, id, depth, path, left);
    }
  }

  lemma ChainStops(people: map<int, Person>, user: int, id: int, depth: nat, path: set<int>, left: nat)
    requires id in people
    requires people[id].merged.None? || left == 0
    ensures FirstRow(ChainRows(people, user, id, depth, path, left)) == Hop(id, people[id].merged, depth)
  {
  }

  lemma ChainStep(people: map<int, Person>, user: int, id: int, depth: nat, path: set<int>, left: nat)
    requires id in people && left > 0 && people[id].merged.Some?
    requires var q := people[id].merged.value; q in people && people[q].user == user && q !in path + {id}
    ensures ChainRows(people, user, id, depth, path, left)
         == [Hop(id, people[id].merged, depth)]
            + ChainRows(people, user, people[id].merged.value, depth + 1, path + {id}, left - 1)
  {
  }

  lemma FirstRowSkips(h: Hop, rest: seq<Hop>)
    requires rest != [] && h.merged.Some? && FirstRow(rest).depth > h.depth
    ensures FirstRow([h] + rest) == FirstRow(rest)
  {
    assert ([h] + rest)[1..] == rest;
  }

  function Min(a: nat, b: nat): nat { if a < b then a else b }

  // In a forest the bounded query finds the person min(distance to the root, 10) hops up:
  // the root if and only if the chain has at most 10 hops.
  lemma BoundedLookupAgreesWithRoot(people: map<int, Person>, id: int, d: nat)
    requires AtDepth(people, id, d)
    ensures var h := FollowMerges(people, people[id].user, id);
            && h.id == Up(people, id, Min(d, 10))
            && (h.id == Up(people, id, d) <==> d <= 10)
            && (h.merged.None? <==> d <= 10)
  {
    ChainClimbs(people, id, 0, {}, MAX_HOPS, d);
    RootIsAtTheTop(people, id, d);
    if d > MAX_HOPS {
      StillBelowRoot(people, id, d, Min(d, MAX_HOPS));
    }
  }

  lemma {:induction false} StillBelowRoot(people: map<int, Person>, id: int, d: nat, n: nat)
    requires AtDepth(people, id, d) && n < d
    decreases d
    ensures Up(people, id, n) in people && people[Up(people, id, n)].merged.Some?
  {
    if n > 0 {
      StillBelowRoot(people, people[id].merged.value, d - 1, n - 1);
    }
  }

  // ---- Unique names ----

  // A row of the user, tombstones included, has exactly this name: the unique index (user_id, name).
  predicate NameTaken(people: map<int, Person>, user: int, name: string, except: set<int>) {
    exists id :: id in people && id !in except && people[id].user == user && people[id].name == name
  }

  ghost predicate RowNamesUnique(people: map<int, Person>) {
    forall a, b :: a in people && b in people && people[a].user == people[b].user && people[a].name == people[b].name
                   ==> a == b
  }

  // ---- Invariant ----

  predicate Active(people: map<int, Person>, id: int) {
    id in people && people[id].merged.None?
  }

  predicate ActiveFor(people: map<int, Person>, user: int, id: int) {
    Active(people, id) && people[id].user == user
  }

  // The caller expects no other version of the row.
  predicate Expects(expected: Option<Instant>, p: Person) {
    expected.None? || expected.value == p.updated
  }

  // Every alias belongs to an active person of its user.
  ghost predicate AliasesOwned(t: Tables) {
    forall k :: k in t.aliases ==> k.1 != "" && ActiveFor(t.people, k.0, t.aliases[k].person)
  }

  predicate NameIndexed(t: Tables, id: int)
    requires id in t.people
  {
    var p := t.people[id];
    && p.norm == NormalizePersonName(p.name) && p.norm != ""
    && (p.user, p.norm) in t.aliases && t.aliases[(p.user, p.norm)].person == id
  }

  // Each active person's normalized name is one of its own aliases.
  ghost predicate NamesIndexed(t: Tables) {
    forall id :: Active(t.people, id) ==> NameIndexed(t, id)
  }

  ghost predicate SerialsFresh(t: Tables) {
    && (forall id :: id in t.people ==> id < t.nextPerson)
    && (forall id :: id in t.peopleNotes ==> id < t.nextPeopleNote)
    && (forall id :: id in t.actions ==> id < t.nextAction)
    && (forall id :: id in t.decisions ==> id < t.nextDecision)
  }

  ghost predicate IdentityInv(t: Tables) {
    Forest(t.people) && AliasesOwned(t) && NamesIndexed(t) && RowNamesUnique(t.people) && SerialsFresh(t)
  }

  predicate LinkOk(people: map<int, Person>, user: int, link: Option<int>) {
    link.Some? ==> ActiveFor(people, user, link.value)
  }

  // No people note, action or decision points at a tombstone or at another user's person.
  ghost predicate RecordsInv(t: Tables) {
    && (forall r :: r in t.peopleNotes ==> ActiveFor(t.people, t.peopleNotes[r].user, t.peopleNotes[r].person))
    && (forall r :: r in t.actions ==> LinkOk(t.people, t.actions[r].user, t.actions[r].person))
    && (forall r :: r in t.decisions ==> LinkOk(t.people, t.decisions[r].user, t.decisions[r].person))
  }

  ghost predicate Inv(t: Tables) {
    IdentityInv(t) && RecordsInv(t)
  }

  // Two active persons of one user never share a normalized name.
  lemma ActiveNamesAreUnique(t: Tables, a: int, b: int)
    requires IdentityInv(t)
    requires Active(t.people, a) && Active(t.people, b)
    requires t.people[a].user == t.people[b].user && t.people[a].norm == t.people[b].norm
    ensures a == b
  {
    hide NormalizePersonName;
    assert NameIndexed(t, a) && NameIndexed(t, b);
  }

  // ---- Resolving a name ----

  // QueryFails: the database refuses text with a NUL character.
  datatype Resolution = NotFound | Ambiguous | Found(id: int) | QueryFails

  function ActiveNamed(t: Tables, user: int, norm: string): set<int> {
    set id | id in t.people && ActiveFor(t.people, user, id) && t.people[id].norm == norm
  }

  // The join of the alias row with its owner, and the merge pointers followed from there.
  function AliasChain(t: Tables, user: int, norm: string): Option<Hop> {
    if (user, norm) in t.aliases && t.aliases[(user, norm)].person in t.people
       && t.people[t.aliases[(user, norm)].person].user == user
    then Some(FollowMerges(t.people, user, t.aliases[(user, norm)].person))
    else None
  }

  function ResolveKey(t: Tables, user: int, norm: string): Resolution {
    var chain := AliasChain(t, user, norm);
    if chain.Some? && chain.value.merged.None? then Found(chain.value.id)
    else
      var named := ActiveNamed(t, user, norm);
      if |named| == 0 then NotFound
      else if |named| == 1 then Found(SoleElement(named))
      else Ambiguous
  }

  function ResolvePerson(t: Tables, user: int, name: string): Resolution {
    var norm := NormalizePersonName(name);
    if user <= 0 || norm == "" then NotFound
    else if !Storable(norm) then QueryFails
    else ResolveKey(t, user, norm)
  }

  lemma UnindexedNameIsNobodys(t: Tables, user: int, norm: string)
    requires IdentityInv(t) && (user, norm) !in t.aliases
    ensures ActiveNamed(t, user, norm) == {}
  {
    hide NormalizePersonName;
    forall id | Active(t.people, id)
      ensures t.people[id].user == user ==> t.people[id].norm != norm
    {
      assert NameIndexed(t, id);
    }
  }

  // In a reachable state resolution is one look into the alias index: it never follows a
  // merge pointer, never falls back to names and is never ambiguous.
  lemma ResolveIsAliasLookup(t: Tables, user: int, norm: string)
    requires IdentityInv(t)
    ensures ResolveKey(t, user, norm)
         == if (user, norm) in t.aliases then Found(t.aliases[(user, norm)].person) else NotFound
    ensures (user, norm) in t.aliases ==>
              AliasChain(t, user, norm) == Some(Hop(t.aliases[(user, norm)].person, None, 0))
  {
    hide NormalizePersonName;
    if (user, norm) in t.aliases {
      var owner := t.aliases[(user, norm)].person;
      assert ActiveFor(t.people, user, owner);
      assert ChainRows(t.people, user, owner, 0, {}, MAX_HOPS) == [Hop(owner, None, 0)];
    } else {
      UnindexedNameIsNobodys(t, user, norm);
    }
  }

  lemma {:induction false} ChainStaysWithUser(people: map<int, Person>, user: int, id: int, depth: nat, path: set<int>, left: nat)
    requires id in people && people[id].user == user
    ensures forall h :: h in ChainRows(people, user, id, depth, path, left) ==>
              h.id in people && people[h.id].user == user && people[h.id].merged == h.merged
    decreases left
  {
    var merged := people[id].merged;
    if merged.Some? && left > 0 && merged.value in people && people[merged.value].user == user
       && merged.value !in path + {id} {
      ChainStaysWithUser(people, user, merged.value, depth + 1, path + {id}, left - 1);
    }
  }

  // Whatever the tables hold, reachable or not, a name leads to active persons of the user alone.
  lemma ResolveStaysWithUser(t: Tables, user: int, name: string)
    ensures ResolvePerson(t, user, name).Found? ==> ActiveFor(t.people, user, ResolvePerson(t, user, name).id)
  {
    var norm := NormalizePersonName(name);
    if AliasChain(t, user, norm).Some? {
      ChainStaysWithUser(t.people, user, t.aliases[(user, norm)].person, 0, {}, MAX_HOPS);
    }
    hide NormalizePersonName, ChainRows, FirstRow;
  }

  // The id is the only person who has that normalized name now.
  ghost predicate OnlyNamed(t: Tables, user: int, norm: string, id: int) {
    && ActiveFor(t.people, user, id) && t.people[id].norm == norm
    && forall other :: ActiveFor(t.people, user, other) && t.people[other].norm == norm ==> other == id
  }

  // Whatever the tables hold: without an alias row, a key leads to the one active person of the user
  // who has that normalized name, is ambiguous if there are several, and leads nowhere if none.
  lemma ResolveFallsBackToNames(t: Tables, user: int, norm: string)
    requires (user, norm) !in t.aliases
    ensures forall id :: ResolveKey(t, user, norm) == Found(id) <==> OnlyNamed(t, user, norm, id)
    ensures ResolveKey(t, user, norm) == NotFound
        <==> forall id :: ActiveFor(t.people, user, id) ==> t.people[id].norm != norm
    ensures ResolveKey(t, user, norm) != QueryFails
  {
    var named := ActiveNamed(t, user, norm);
    forall id ensures id in named <==> ActiveFor(t.people, user, id) && t.people[id].norm == norm {
    }
    if |named| == 1 {
      var id := SoleElement(named);
      assert named == {id};
    }
    forall id | OnlyNamed(t, user, norm, id) ensures named == {id} {
    }
    hide ActiveNamed;
  }

  lemma ResolveIsNeverAmbiguous(t: Tables, user: int, name: string)
    requires IdentityInv(t)
    ensures ResolvePerson(t, user, name) != Ambiguous
    ensures ResolvePerson(t, user, name).Found? ==> ActiveFor(t.people, user, ResolvePerson(t, user, name).id)
  {
    ResolveIsAliasLookup(t, user, NormalizePersonName(name));
  }

  // What resolution answers in a reachable state, from the name itself: nothing for a blank name,
  // an error for one with a NUL character, and the owner of its key otherwise.
  lemma ResolveMeans(t: Tables, user: int, name: string)
    requires IdentityInv(t)
    ensures ResolvePerson(t, user, name)
         == if user <= 0 || Blank(name) then NotFound
            else if '\0' in name then QueryFails
            else if (user, NormalizePersonName(name)) in t.aliases then Found(t.aliases[(user, NormalizePersonName(name))].person)
            else NotFound
  {
    KeyIsEmptyOnlyForBlank(name);
    KeyIsStorable(name);
    ResolveIsAliasLookup(t, user, NormalizePersonName(name));
    hide NormalizePersonName, IdentityInv, ResolveKey, Storable, Blank;
  }

  // ---- upsertPerson ----

  // INSERT ... ON CONFLICT DO UPDATE SET alias = the old alias RETURNING person_id.
  function InsertAlias(t: Tables, user: int, person: int, alias: string, norm: string): (Tables, int) {
    if (user, norm) in t.aliases then (t, t.aliases[(user, norm)].person)
    else (t.(aliases := t.aliases[(user, norm) := Alias(person, alias)]), person)
  }

  // None is an error: the name is empty, or the database refuses its text or the new row.
  function Upsert(t: Tables, user: int, rawName: string, now: Instant): (Tables, Option<int>) {
    var name := TrimSpace(rawName);
    var norm := NormalizePersonName(name);
    if norm == "" || !Storable(norm) then (t, None)
    else
      var chain := AliasChain(t, user, norm);
      if chain.Some? then (t, Some(chain.value.id))
      else
        var named := ActiveNamed(t, user, norm);
        if !Storable(name) then (t, None)
        else if named != {} then
          var (t1, owner) := InsertAlias(t, user, Least(named), name, norm);
          (t1, Some(owner))
        else if NameTaken(t.people, user, name, {}) then (t, None)
        else
          var id := t.nextPerson;
          var t0 := t.(people := t.people[id := Person(user, name, norm, NO_PROFILE, now, None)], nextPerson := id + 1);
          var (t1, owner) := InsertAlias(t0, user, id, name, norm);
          if owner != id then (t1.(people := t1.people - {id}), Some(owner)) else (t1, Some(id))
  }

  // The tables after a new person with its first alias.
  function AddPerson(t: Tables, user: int, name: string, norm: string, now: Instant): Tables {
    t.(people := t.people[t.nextPerson := Person(user, name, norm, NO_PROFILE, now, None)],
       aliases := t.aliases[(user, norm) := Alias(t.nextPerson, name)],
       nextPerson := t.nextPerson + 1)
  }

  // A name that leads nowhere, although some row already has it.
  predicate Shadowed(t: Tables, user: int, name: string) {
    (user, NormalizePersonName(name)) !in t.aliases && NameTaken(t.people, user, TrimSpace(name), {})
  }

  predicate Unstorable(t: Tables, user: int, name: string) {
    var norm := NormalizePersonName(name);
    !Storable(norm) || ((user, norm) !in t.aliases && !Storable(TrimSpace(name)))
  }

  // The names that upsertPerson refuses.
  predicate Refused(t: Tables, user: int, name: string) {
    Blank(name) || Unstorable(t, user, name) || Shadowed(t, user, name)
  }

  // What upsertPerson does in a reachable state: refuse the name, return the owner of the alias,
  // or make one new person.
  lemma UpsertInReachableState(t: Tables, user: int, name: string, now: Instant)
    requires IdentityInv(t)
    ensures var norm := NormalizePersonName(name);
            var (t1, id) := Upsert(t, user, name, now);
            if Refused(t, user, name) then t1 == t && id == None
            else if (user, norm) in t.aliases then t1 == t && id == Some(t.aliases[(user, norm)].person)
            else
              id == Some(t.nextPerson) && t1 == AddPerson(t, user, TrimSpace(name), norm, now)
  {
    KeyIgnoresTrim(name);
    KeyIsEmptyOnlyForBlank(name);
    hide NormalizePersonName, TrimSpace, Blank, Storable, NameTaken, IdentityInv, AliasChain, ActiveNamed;
    var norm := NormalizePersonName(name);
    ChainInReachableState(t, user, norm);
    if (user, norm) !in t.aliases {
      UnindexedNameIsNobodys(t, user, norm);
    }
  }

  // The new person is active and has the trimmed name, its key and no profile; its alias is the
  // name. Nothing else is written.
  lemma UpsertAddsOneRow(t: Tables, user: int, name: string, now: Instant)
    requires IdentityInv(t) && !Refused(t, user, name) && (user, NormalizePersonName(name)) !in t.aliases
    ensures var (t1, id) := Upsert(t, user, name, now);
            && id.Some? && id.value !in t.people
            && t1 == t.(people := t.people[id.value := Person(user, TrimSpace(name), NormalizePersonName(name),
                                                                      Profile(None, None, None, None, None, None), now, None)],
                        aliases := t.aliases[(user, NormalizePersonName(name)) := Alias(id.value, TrimSpace(name))],
                        nextPerson := id.value + 1)
  {
    UpsertInReachableState(t, user, name, now);
    hide Upsert, NormalizePersonName, TrimSpace, Refused, Forest, AliasesOwned, NamesIndexed, RowNamesUnique;
  }

  lemma ChainInReachableState(t: Tables, user: int, norm: string)
    requires IdentityInv(t)
    ensures AliasChain(t, user, norm)
         == if (user, norm) in t.aliases then Some(Hop(t.aliases[(user, norm)].person, None, 0)) else None
  {
    ResolveIsAliasLookup(t, user, norm);
  }

  // upsertPerson fails exactly for a blank name, a name that the database cannot store, and a
  // name that leads nowhere and that some row has already; in a reachable state that row is a
  // tombstone.
  lemma UpsertFailsExactly(t: Tables, user: int, name: string, now: Instant)
    requires IdentityInv(t)
    ensures Upsert(t, user, name, now).1.None? <==> Refused(t, user, name)
    ensures Upsert(t, user, name, now).1.None? ==> Upsert(t, user, name, now).0 == t
    ensures Shadowed(t, user, name) ==>
              exists id :: id in t.people && t.people[id].merged.Some? && t.people[id].user == user
                           && t.people[id].name == TrimSpace(name)
  {
    UpsertInReachableState(t, user, name, now);
    KeyIgnoresTrim(name);
    hide Upsert, NormalizePersonName, TrimSpace, Blank, Storable, Forest, AliasesOwned, SerialsFresh;
    if Shadowed(t, user, name) {
      var id :| id in t.people && t.people[id].user == user && t.people[id].name == TrimSpace(name);
      assert Active(t.people, id) ==> NameIndexed(t, id);
    }
  }

  lemma {:induction false} DepthSurvivesNewPerson(people: map<int, Person>, added: int, p: Person, id: int, d: nat)
    requires added !in people && AtDepth(people, id, d)
    ensures AtDepth(people[added := p], id, d)
    decreases d
  {
    if d > 0 {
      DepthSurvivesNewPerson(people, added, p, people[id].merged.value, d - 1);
    }
  }

  // Records stay well linked if no person they may point at goes away.
  lemma RecordsFollowPeople(t: Tables, t1: Tables)
    requires RecordsInv(t)
    requires t1.peopleNotes == t.peopleNotes && t1.actions == t.actions && t1.decisions == t.decisions
    requires forall user, id :: ActiveFor(t.people, user, id) ==> ActiveFor(t1.people, user, id)
    ensures RecordsInv(t1)
  {
    hide ActiveFor;
  }

  lemma AddPersonKeepsForest(t: Tables, user: int, name: string, norm: string, now: Instant)
    requires Forest(t.people) && SerialsFresh(t)
    ensures Forest(AddPerson(t, user, name, norm, now).people)
  {
    var people := AddPerson(t, user, name, norm, now).people;
    forall id | id in people ensures exists d: nat :: AtDepth(people, id, d) {
      if id == t.nextPerson {
        assert AtDepth(people, id, 0);
      } else {
        var d: nat :| AtDepth(t.people, id, d);
        DepthSurvivesNewPerson(t.people, t.nextPerson, people[t.nextPerson], id, d);
      }
    }
  }

  lemma AddPersonKeepsNames(t: Tables, user: int, name: string, norm: string, now: Instant)
    requires NamesIndexed(t) && SerialsFresh(t) && (user, norm) !in t.aliases
    requires norm != "" && norm == NormalizePersonName(name)
    ensures NamesIndexed(AddPerson(t, user, name, norm, now))
  {
    hide NormalizePersonName;
    var t1 := AddPerson(t, user, name, norm, now);
    forall id | Active(t1.people, id) ensures NameIndexed(t1, id) {
      assert id != t.nextPerson ==> NameIndexed(t, id);
    }
  }

  lemma AddPersonKeepsOwners(t: Tables, user: int, name: string, norm: string, now: Instant)
    requires AliasesOwned(t) && SerialsFresh(t) && norm != ""
    ensures AliasesOwned(AddPerson(t, user, name, norm, now)) && SerialsFresh(AddPerson(t, user, name, norm, now))
    ensures forall who, id :: ActiveFor(t.people, who, id) ==> ActiveFor(AddPerson(t, user, name, norm, now).people, who, id)
  {
  }

  lemma AddPersonKeepsRowNames(t: Tables, user: int, name: string, norm: string, now: Instant)
    requires RowNamesUnique(t.people) && !NameTaken(t.people, user, name, {})
    ensures RowNamesUnique(AddPerson(t, user, name, norm, now).people)
  {
  }

  lemma AddPersonKeepsInv(t: Tables, user: int, name: string, norm: string, now: Instant)
    requires Inv(t) && (user, norm) !in t.aliases && !NameTaken(t.people, user, name, {})
    requires norm != "" && norm == NormalizePersonName(name)
    ensures Inv(AddPerson(t, user, name, norm, now))
  {
    AddPersonKeepsRowNames(t, user, name, norm, now);
    hide NormalizePersonName, Forest, NamesIndexed, RowNamesUnique, NameTaken;
    AddPersonKeepsForest(t, user, name, norm, now);
    AddPersonKeepsNames(t, user, name, norm, now);
    AddPersonKeepsOwners(t, user, name, norm, now);
    var t1 := AddPerson(t, user, name, norm, now);
    hide AliasesOwned;
    RecordsFollowPeople(t, t1);
  }

  lemma UpsertKeepsInv(t: Tables, user: int, name: string, now: Instant)
    requires Inv(t)
    ensures Inv(Upsert(t, user, name, now).0)
  {
    UpsertInReachableState(t, user, name, now);
    KeyIgnoresTrim(name);
    KeyIsEmptyOnlyForBlank(name);
    hide Upsert, NormalizePersonName, TrimSpace, Inv, NameTaken, Blank, Storable;
    var norm := NormalizePersonName(name);
    if !Refused(t, user, name) && (user, norm) !in t.aliases {
      AddPersonKeepsInv(t, user, TrimSpace(name), norm, now);
    }
  }

  // Unless it refuses the name, upsertPerson returns what ResolvePerson finds afterwards; a name
  // that already resolved is never refused and is returned unchanged, and repeating the call
  // changes nothing.
  lemma UpsertAgreesWithResolve(t: Tables, user: int, name: string, now: Instant, later: Instant)
    requires Inv(t) && user > 0
    ensures ResolvePerson(t, user, name).Found? ==> !Refused(t, user, name)
    ensures !Refused(t, user, name) ==>
              var (t1, id) := Upsert(t, user, name, now);
              && id.Some?
              && ResolvePerson(t1, user, name) == Found(id.value)
              && (ResolvePerson(t, user, name).Found? ==> t1 == t && ResolvePerson(t, user, name) == Found(id.value))
              && Upsert(t1, user, name, later) == (t1, id)
  {
    KeyIsEmptyOnlyForBlank(name);
    hide Upsert, NormalizePersonName, TrimSpace, Blank, Storable, NameTaken, ResolveKey, Forest, AliasesOwned, NamesIndexed,
      SerialsFresh, RowNamesUnique, RecordsInv;
    UpsertInReachableState(t, user, name, now);
    UpsertKeepsInv(t, user, name, now);
    var t1 := Upsert(t, user, name, now).0;
    UpsertInReachableState(t1, user, name, later);
    ResolveIsAliasLookup(t, user, NormalizePersonName(name));
    ResolveIsAliasLookup(t1, user, NormalizePersonName(name));
  }

  // ---- Looking up a profile ----

  predicate HasNotes(t: Tables, user: int, person: int) {
    exists r :: r in t.peopleNotes && t.peopleNotes[r].user == user && t.peopleNotes[r].person == person
  }

  // The query of GetPersonWorkspaceProfile: the person that the recursive part selects, joined
  // with its people notes; None is a lookup that finds no row.
  function ProfileLookup(t: Tables, user: int, id: int): Option<int> {
    if id !in t.people || t.people[id].user != user then None
    else
      var target := FollowMerges(t.people, user, id).id;
      if HasNotes(t, user, target) then Some(target) else None
  }

  // In a reachable state the lookup answers with the root of the merge chain, if the chain has at
  // most 10 hops and the root has people notes, and finds nothing otherwise.
  lemma LookupFindsNotedRoot(t: Tables, id: int, d: nat)
    requires RecordsInv(t) && AtDepth(t.people, id, d)
    ensures var user, root := t.people[id].user, Up(t.people, id, d);
            && ActiveFor(t.people, user, root)
            && ProfileLookup(t, user, id) == if d <= 10 && HasNotes(t, user, root) then Some(root) else None
  {
    hide FollowMerges;
    BoundedLookupAgreesWithRoot(t.people, id, d);
    RootIsAtTheTop(t.people, id, d);
    if d > MAX_HOPS {
      StillBelowRoot(t.people, id, d, MAX_HOPS);
    }
  }

  lemma LookupOfActive(t: Tables, user: int, id: int)
    requires RecordsInv(t) && ActiveFor(t.people, user, id)
    ensures ProfileLookup(t, user, id) == if HasNotes(t, user, id) then Some(id) else None
  {
    hide FollowMerges, HasNotes;
    assert AtDepth(t.people, id, 0);
    LookupFindsNotedRoot(t, id, 0);
  }

  // ---- Ownership of names and aliases ----

  predicate OwnedBy(t: Tables, user: int, owners: set<int>, k: AliasKey) {
    k in t.aliases && k.0 == user && t.aliases[k].person in owners
  }

  // Alias rows of one person, from an alias map by key.
  function AliasRows(user: int, id: int, aliases: map<string, string>): (rows: map<AliasKey, Alias>)
    ensures forall k :: k in rows <==> k.0 == user && k.1 in aliases
    ensures forall k :: k in rows ==> rows[k] == Alias(id, aliases[k.1])
  {
    var rows := map n | n in aliases :: (user, n) := Alias(id, aliases[n]);
    assert forall k: AliasKey :: k.0 == user && k.1 in aliases ==> k == (user, k.1);
    rows
  }

  function OwnedNorms(t: Tables, user: int, owners: set<int>): set<string> {
    set k | k in t.aliases && OwnedBy(t, user, owners, k) :: k.1
  }

  // The active persons that own the name or the alias n.
  function Owners(t: Tables, user: int, n: string): set<int> {
    ActiveNamed(t, user, n)
    + if (user, n) in t.aliases && ActiveFor(t.people, user, t.aliases[(user, n)].person)
      then {t.aliases[(user, n)].person} else {}
  }

  predicate AliasConflict(t: Tables, user: int, norms: set<string>, allowed: set<int>) {
    exists n :: n in norms && Owners(t, user, n) - allowed != {}
  }

  lemma OwnedNormsAre(t: Tables, user: int, owners: set<int>)
    ensures forall n :: n in OwnedNorms(t, user, owners) <==> OwnedBy(t, user, owners, (user, n))
  {
    forall n | n in OwnedNorms(t, user, owners) ensures OwnedBy(t, user, owners, (user, n)) {
      var k :| k in t.aliases && OwnedBy(t, user, owners, k) && k.1 == n;
      assert k == (user, n);
    }
  }

  lemma OwnersAreAliasOwner(t: Tables, user: int, n: string)
    requires IdentityInv(t) && (user, n) in t.aliases
    ensures Owners(t, user, n) == {t.aliases[(user, n)].person}
  {
    hide NormalizePersonName;
    forall id | id in ActiveNamed(t, user, n) ensures id == t.aliases[(user, n)].person {
      assert NameIndexed(t, id);
    }
  }

  lemma OwnedNormsNeverConflict(t: Tables, user: int, owners: set<int>)
    requires IdentityInv(t)
    ensures !AliasConflict(t, user, OwnedNorms(t, user, owners), owners)
  {
    OwnedNormsAre(t, user, owners);
    hide OwnedNorms, Owners, NormalizePersonName, IdentityInv;
    forall n | n in OwnedNorms(t, user, owners) ensures Owners(t, user, n) - owners == {} {
      OwnersAreAliasOwner(t, user, n);
    }
  }
}
