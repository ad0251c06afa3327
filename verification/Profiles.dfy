// UpdatePersonProfile: the validation in internal/services/people.go and the transaction in
// internal/adapters/store/store.go.
module Profiles {
  import opened Options
  import opened Text
  import opened Names
  import opened People

  // A request field that is absent, or present with a value or null.
  datatype Field = Keep | Set(value: Option<string>)

  datatype Request = Request(displayName: Field, first: Field, last: Field, title: Field, team: Field,
                             company: Field, notes: Field, aliases: Option<seq<string>>, expected: Option<Instant>)

  // DatabaseError is a violated unique index that the store passes on as it is.
  datatype UpdateError = ValidationError | NoSuchPerson | UpdateConflict | IdentityConflict | DatabaseError
  datatype UpdateOutcome = Updated | Rejected(error: UpdateError)

  const NAME_MAX := 200
  const NOTES_MAX := 10000
  const ALIAS_COUNT_MAX := 25

  // ---- Validation ----

  predicate HasControl(s: string, multiline: bool) {
    exists i :: 0 <= i < |s| && (s[i] < ' ' || s[i] == '\U{007F}')
                && !(multiline && s[i] in {'\n', '\r', '\t'})
  }

  predicate Acceptable(s: string, max: nat, multiline: bool) {
    |s| <= max && !HasControl(s, multiline)
  }

  // None is a validation error.
  function CleanRequired(f: Field): Option<Field> {
    match f
    case Keep => Some(Keep)
    case Set(None) => None
    case Set(Some(v)) =>
      var x := TrimSpace(v);
      if x == "" || !Acceptable(x, NAME_MAX, false) then None else Some(Set(Some(x)))
  }

  function CleanOptional(f: Field, max: nat, multiline: bool): Option<Field> {
    match f
    case Keep => Some(Keep)
    case Set(None) => Some(Set(None))
    case Set(Some(v)) =>
      var x := TrimSpace(v);
      if x == "" then Some(Set(None))
      else if !Acceptable(x, max, multiline) then None
      else Some(Set(Some(x)))
  }

  // Trimmed aliases, the first of each key.
  function CleanAliases(aliases: seq<string>): Option<seq<string>> {
    if aliases == [] then Some([])
    else
      var n := |aliases| - 1;
      match CleanAliases(aliases[..n])
      case None => None
      case Some(out) =>
        var x := TrimSpace(aliases[n]);
        if x == "" || !Acceptable(x, NAME_MAX, false) || NormalizePersonName(x) == "" then None
        else if exists i :: 0 <= i < |out| && NormalizePersonName(out[i]) == NormalizePersonName(x) then Some(out)
        else Some(out + [x])
  }

  function CleanAliasField(aliases: Option<seq<string>>): Option<Option<seq<string>>> {
    match aliases
    case None => Some(None)
    case Some(list) =>
      if |list| > ALIAS_COUNT_MAX then None
      else match CleanAliases(list)
           case None => None
           case Some(out) => Some(Some(out))
  }

  function Validate(r: Request): Option<Request> {
    var name := CleanRequired(r.displayName);
    var first, last := CleanOptional(r.first, NAME_MAX, false), CleanOptional(r.last, NAME_MAX, false);
    var title, team := CleanOptional(r.title, NAME_MAX, false), CleanOptional(r.team, NAME_MAX, false);
    var company, notes := CleanOptional(r.company, NAME_MAX, false), CleanOptional(r.notes, NOTES_MAX, true);
    var aliases := CleanAliasField(r.aliases);
    if name.None? || first.None? || last.None? || title.None? || team.None? || company.None? || notes.None?
       || aliases.None? then None
    else Some(Request(name.value, first.value, last.value, title.value, team.value, company.value, notes.value,
                      aliases.value, r.expected))
  }

  // ---- The transaction ----

  function NewName(cur: Person, r: Request): string {
    if r.displayName.Set? && r.displayName.value.Some? then r.displayName.value.value else cur.name
  }

  function NewNorm(cur: Person, r: Request): string {
    if r.displayName.Set? && r.displayName.value.Some? then NormalizePersonName(r.displayName.value.value) else cur.norm
  }

  // The later of two aliases with one key wins.
  function ListedAliases(aliases: seq<string>): map<string, string> {
    if aliases == [] then map[]
    else
      var a := aliases[|aliases| - 1];
      ListedAliases(aliases[..|aliases| - 1])[NormalizePersonName(a) := a]
  }

  function StoredAliases(t: Tables, user: int, id: int): map<string, string> {
    map n | n in OwnedNorms(t, user, {id}) && (user, n) in t.aliases :: t.aliases[(user, n)].alias
  }

  // The aliases that the alias map starts from.
  function BaseAliases(t: Tables, user: int, id: int, r: Request): map<string, string> {
    if r.aliases.Some? then ListedAliases(r.aliases.value) else StoredAliases(t, user, id)
  }

  // The alias set the person will have: the listed or stored ones, the new name and the old name.
  function AliasMap(t: Tables, user: int, id: int, r: Request): map<string, string>
    requires id in t.people
  {
    var cur := t.people[id];
    var named := BaseAliases(t, user, id, r)[NewNorm(cur, r) := NewName(cur, r)];
    var oldNorm := NormalizePersonName(cur.name);
    (if oldNorm != "" then named[oldNorm := cur.name] else named) - {""}
  }

  function UpdateCheck(t: Tables, user: int, id: int, r: Request): Option<UpdateError> {
    if !ActiveFor(t.people, user, id) then Some(NoSuchPerson)
    else
      var cur := t.people[id];
      if r.expected.Some? && cur.updated != r.expected.value then Some(UpdateConflict)
      else if ActiveNamed(t, user, NewNorm(cur, r)) - {id} != {} then Some(IdentityConflict)
      else if AliasConflict(t, user, AliasMap(t, user, id, r).Keys, {id}) then Some(IdentityConflict)
      else None
  }

  function Apply(f: Field, current: Option<string>): Option<string> {
    if f.Set? then f.value else current
  }

  function ApplyProfile(p: Profile, r: Request): Profile {
    Profile(Apply(r.first, p.first), Apply(r.last, p.last), Apply(r.title, p.title),
            Apply(r.team, p.team), Apply(r.company, p.company), Apply(r.notes, p.notes))
  }

  predicate WritesAliases(r: Request) {
    r.aliases.Some? || r.displayName.Set?
  }

  function ReplaceAliases(t: Tables, user: int, id: int, aliases: map<string, string>,
                          norms: set<string>): map<AliasKey, Alias> {
    var kept := map k | k in t.aliases && !(OwnedBy(t, user, {id}, k) && k.1 !in norms) :: t.aliases[k];
    kept + AliasRows(user, id, aliases)
  }

  function WriteProfile(t: Tables, user: int, id: int, r: Request, now: Instant): Tables
    requires id in t.people
  {
    var cur := t.people[id];
    var aliases := AliasMap(t, user, id, r);
    t.(people := t.people[id := cur.(name := NewName(cur, r), norm := NewNorm(cur, r),
                                     profile := ApplyProfile(cur.profile, r), updated := now)],
       aliases := if WritesAliases(r) then ReplaceAliases(t, user, id, aliases, aliases.Keys + {NewNorm(cur, r)})
                  else t.aliases)
  }

  function StoreUpdate(t: Tables, user: int, id: int, r: Request, now: Instant): (Tables, UpdateOutcome) {
    var check := UpdateCheck(t, user, id, r);
    if check.Some? then (t, Rejected(check.value))
    else if NameTaken(t.people, user, NewName(t.people[id], r), {id}) then (t, Rejected(DatabaseError))
    else (WriteProfile(t, user, id, r, now), Updated)
  }

  function UpdateProfile(t: Tables, user: int, id: int, r: Request, now: Instant): (Tables, UpdateOutcome) {
    match Validate(r)
    case None => (t, Rejected(ValidationError))
    case Some(clean) => StoreUpdate(t, user, id, clean, now)
  }

  // What validation guarantees and the store relies on: no blank display name.
  predicate NamesPresent(r: Request) {
    r.displayName.Set? ==> r.displayName.value.Some? && NormalizePersonName(r.displayName.value.value) != ""
  }

  lemma ValidatedNamesPresent(r: Request)
    requires Validate(r).Some?
    ensures NamesPresent(Validate(r).value)
  {
    hide Acceptable, CleanAliasField, CleanOptional;
    if r.displayName.Set? && r.displayName.value.Some? {
      var v := r.displayName.value.value;
      TrimSpaceShape(v);
      KeyIsEmptyOnlyForBlank(TrimSpace(v));
      hide TrimSpace, NormalizePersonName;
    }
  }

  lemma AliasMapShape(t: Tables, user: int, id: int, r: Request)
    requires IdentityInv(t) && ActiveFor(t.people, user, id) && NamesPresent(r)
    ensures var aliases := AliasMap(t, user, id, r);
            && "" !in aliases
            && NewNorm(t.people[id], r) == NormalizePersonName(NewName(t.people[id], r)) != ""
            && NewNorm(t.people[id], r) in aliases && t.people[id].norm in aliases
            && (!WritesAliases(r) ==> aliases.Keys == OwnedNorms(t, user, {id}))
  {
    assert NameIndexed(t, id);
    hide NormalizePersonName, OwnedNorms, ListedAliases, Forest, NamesIndexed, SerialsFresh;
    OwnedNormsAre(t, user, {id});
  }

  // k leads to the person exactly if it is a key of the alias map; other keys stay.
  ghost predicate AliasEffect(t: Tables, t1: Tables, user: int, id: int, norms: set<string>) {
    forall k :: (k in t1.aliases <==> (k.0 == user && k.1 in norms) || (k in t.aliases && t.aliases[k].person != id))
             && (k in t1.aliases ==>
                   t1.aliases[k].person == if k.0 == user && k.1 in norms then id else t.aliases[k].person)
  }

  lemma UncontestedKeysAreOwn(t: Tables, user: int, id: int, norms: set<string>)
    requires IdentityInv(t) && !AliasConflict(t, user, norms, {id})
    ensures forall n :: n in norms && (user, n) in t.aliases ==> t.aliases[(user, n)].person == id
  {
    hide IdentityInv, Owners, NormalizePersonName;
    forall n | n in norms && (user, n) in t.aliases ensures t.aliases[(user, n)].person == id {
      OwnersAreAliasOwner(t, user, n);
      var owner := t.aliases[(user, n)].person;
      assert owner !in Owners(t, user, n) - {id};
    }
  }

  lemma ReplaceAliasesEffect(t: Tables, t1: Tables, user: int, id: int, aliases: map<string, string>)
    requires AliasesOwned(t) && ActiveFor(t.people, user, id)
    requires forall n :: n in aliases && (user, n) in t.aliases ==> t.aliases[(user, n)].person == id
    requires t1.aliases == ReplaceAliases(t, user, id, aliases, aliases.Keys)
    ensures AliasEffect(t, t1, user, id, aliases.Keys)
  {
    forall k: AliasKey
      ensures (k in t1.aliases <==> (k.0 == user && k.1 in aliases) || (k in t.aliases && t.aliases[k].person != id))
      ensures k in t1.aliases ==>
                t1.aliases[k].person == if k.0 == user && k.1 in aliases then id else t.aliases[k].person
    {
      assert k == (k.0, k.1);
    }
  }

  // The alias index after an update.
  lemma UpdateMovesAliases(t: Tables, user: int, id: int, r: Request, now: Instant)
    requires IdentityInv(t) && NamesPresent(r) && UpdateCheck(t, user, id, r).None?
    ensures AliasEffect(t, WriteProfile(t, user, id, r, now), user, id, AliasMap(t, user, id, r).Keys)
  {
    hide AliasMap, NormalizePersonName, NewName, NewNorm, ApplyProfile, ReplaceAliases, UpdateCheck, OwnedNorms, AliasConflict;
    hide Forest, NamesIndexed, SerialsFresh, NamesPresent, RowNamesUnique;
    CheckedIsActive(t, user, id, r);
    AliasMapShape(t, user, id, r);
    var aliases := AliasMap(t, user, id, r);
    UncontestedKeysAreOwn(t, user, id, aliases.Keys);
    var t1 := WriteProfile(t, user, id, r, now);
    if WritesAliases(r) {
      assert aliases.Keys + {NewNorm(t.people[id], r)} == aliases.Keys;
      ReplaceAliasesEffect(t, t1, user, id, aliases);
    } else {
      OwnedNormsAre(t, user, {id});
      assert t1.aliases == t.aliases;
      OwnAliasesEffect(t, t1, user, id, aliases.Keys);
    }
  }

  lemma OwnAliasesEffect(t: Tables, t1: Tables, user: int, id: int, norms: set<string>)
    requires AliasesOwned(t) && ActiveFor(t.people, user, id) && t1.aliases == t.aliases
    requires forall n :: n in norms <==> OwnedBy(t, user, {id}, (user, n))
    ensures AliasEffect(t, t1, user, id, norms)
  {
    forall k: AliasKey | k in t.aliases ensures t.aliases[k].person == id <==> k.0 == user && k.1 in norms {
      assert k == (k.0, k.1);
      assert ActiveFor(t.people, k.0, t.aliases[k].person);
    }
  }

  lemma {:induction false} DepthAfterUpdate(people: map<int, Person>, id: int, p: Person, x: int, d: nat)
    requires AtDepth(people, x, d) && id in people && p.user == people[id].user && p.merged == people[id].merged
    ensures AtDepth(people[id := p], x, d)
    decreases d
  {
    if d > 0 {
      DepthAfterUpdate(people, id, p, people[x].merged.value, d - 1);
    }
  }

  lemma UpdateKeepsForest(t: Tables, user: int, id: int, r: Request, now: Instant)
    requires Forest(t.people) && id in t.people
    ensures Forest(WriteProfile(t, user, id, r, now).people)
  {
    hide AliasMap, NewName, NewNorm, ApplyProfile, ReplaceAliases;
    var after := WriteProfile(t, user, id, r, now).people;
    forall x | x in after ensures exists d: nat :: AtDepth(after, x, d) {
      var d: nat :| AtDepth(t.people, x, d);
      DepthAfterUpdate(t.people, id, after[id], x, d);
    }
  }

  // An update touches one person and the alias index only.
  lemma UpdateTouches(t: Tables, user: int, id: int, r: Request, now: Instant)
    requires id in t.people
    ensures var t1 := WriteProfile(t, user, id, r, now);
            && t1 == t.(people := t1.people, aliases := t1.aliases)
            && t1.people == t.people[id := t1.people[id]]
            && t1.people[id].merged == t.people[id].merged && t1.people[id].user == t.people[id].user
            && t1.people[id].name == NewName(t.people[id], r) && t1.people[id].norm == NewNorm(t.people[id], r)
  {
    hide AliasMap, NewName, NewNorm, ApplyProfile, ReplaceAliases;
  }

  lemma NamesFollowEffect(t: Tables, t1: Tables, user: int, id: int, norms: set<string>)
    requires NamesIndexed(t) && AliasEffect(t, t1, user, id, norms) && ActiveFor(t.people, user, id)
    requires t1.people.Keys == t.people.Keys && forall x :: x in t.people && x != id ==> t1.people[x] == t.people[x]
    requires t1.people[id].user == user && t1.people[id].norm in norms
    requires forall n :: n in norms && (user, n) in t.aliases ==> t.aliases[(user, n)].person == id
    requires t1.people[id].norm == NormalizePersonName(t1.people[id].name) != ""
    ensures NamesIndexed(t1)
  {
    hide NormalizePersonName;
    forall x | Active(t1.people, x) ensures NameIndexed(t1, x) {
      var k := (t1.people[x].user, t1.people[x].norm);
      assert x != id ==> NameIndexed(t, x);
      assert k in t1.aliases;
    }
  }

  lemma OwnersFollowEffect(t: Tables, t1: Tables, user: int, id: int, norms: set<string>)
    requires AliasesOwned(t) && AliasEffect(t, t1, user, id, norms) && "" !in norms
    requires ActiveFor(t1.people, user, id)
    requires forall x, who :: ActiveFor(t.people, who, x) && x != id ==> ActiveFor(t1.people, who, x)
    ensures AliasesOwned(t1)
  {
    hide ActiveFor;
  }

  lemma UpdateKeepsNames(t: Tables, user: int, id: int, r: Request, now: Instant)
    requires IdentityInv(t) && NamesPresent(r) && UpdateCheck(t, user, id, r).None?
    ensures NamesIndexed(WriteProfile(t, user, id, r, now)) && AliasesOwned(WriteProfile(t, user, id, r, now))
  {
    hide WriteProfile, AliasMap, NormalizePersonName, NewName, NewNorm, Forest, SerialsFresh, WritesAliases, UpdateCheck;
    hide AliasesOwned, NamesIndexed, AliasEffect;
    CheckedIsActive(t, user, id, r);
    AliasMapShape(t, user, id, r);
    UncontestedKeysAreOwn(t, user, id, AliasMap(t, user, id, r).Keys);
    UpdateMovesAliases(t, user, id, r, now);
    UpdateTouches(t, user, id, r, now);
    var t1 := WriteProfile(t, user, id, r, now);
    NamesFollowEffect(t, t1, user, id, AliasMap(t, user, id, r).Keys);
    OwnersFollowEffect(t, t1, user, id, AliasMap(t, user, id, r).Keys);
  }

  lemma WriteKeepsRecords(t: Tables, user: int, id: int, r: Request, now: Instant)
    requires RecordsInv(t) && SerialsFresh(t) && ActiveFor(t.people, user, id)
    ensures RecordsInv(WriteProfile(t, user, id, r, now)) && SerialsFresh(WriteProfile(t, user, id, r, now))
  {
    UpdateTouches(t, user, id, r, now);
    hide WriteProfile, NewName, NewNorm, RecordsInv;
    RecordsFollowPeople(t, WriteProfile(t, user, id, r, now));
  }

  lemma UpdateKeepsRowNames(t: Tables, user: int, id: int, r: Request, now: Instant)
    requires RowNamesUnique(t.people) && ActiveFor(t.people, user, id)
    requires !NameTaken(t.people, user, NewName(t.people[id], r), {id})
    ensures RowNamesUnique(WriteProfile(t, user, id, r, now).people)
  {
    UpdateTouches(t, user, id, r, now);
    hide WriteProfile, NewName, NewNorm;
  }

  lemma UpdateKeepsInv(t: Tables, user: int, id: int, r: Request, now: Instant)
    requires Inv(t)
    ensures Inv(UpdateProfile(t, user, id, r, now).0)
  {
    hide Validate, UpdateCheck, WriteProfile, Forest, AliasesOwned, NamesIndexed, RowNamesUnique, SerialsFresh, RecordsInv;
    hide ActiveFor, AliasConflict, AliasMap, NamesPresent, NameTaken, NewName;
    if UpdateProfile(t, user, id, r, now).1.Updated? {
      var clean := Validate(r).value;
      ValidatedNamesPresent(r);
      CheckedIsActive(t, user, id, clean);
      CheckedExists(t, user, id, clean);
      UpdateKeepsRowNames(t, user, id, clean, now);
      UpdateKeepsForest(t, user, id, clean, now);
      UpdateKeepsNames(t, user, id, clean, now);
      WriteKeepsRecords(t, user, id, clean, now);
    }
  }

  lemma CheckedExists(t: Tables, user: int, id: int, r: Request)
    requires UpdateCheck(t, user, id, r).None?
    ensures id in t.people
  {
  }

  lemma CheckedIsActive(t: Tables, user: int, id: int, r: Request)
    requires UpdateCheck(t, user, id, r).None?
    ensures ActiveFor(t.people, user, id)
    ensures !AliasConflict(t, user, AliasMap(t, user, id, r).Keys, {id})
  {
  }

  // A row of the user that was merged away still holds its name.
  predicate TombstoneNamed(people: map<int, Person>, user: int, name: string) {
    exists id :: id in people && people[id].merged.Some? && people[id].user == user && people[id].name == name
  }

  // A valid request that passes the store's checks commits exactly if no tombstone of the user
  // holds the new display name; the checks look at active persons and alias owners only.
  lemma UpdateCommitsExactly(t: Tables, user: int, id: int, request: Request, now: Instant)
    requires IdentityInv(t) && Validate(request).Some? && UpdateCheck(t, user, id, Validate(request).value).None?
    ensures var (t1, outcome) := UpdateProfile(t, user, id, request, now);
            if TombstoneNamed(t.people, user, NewName(t.people[id], Validate(request).value))
            then t1 == t && outcome == Rejected(DatabaseError)
            else outcome == Updated
  {
    var r := Validate(request).value;
    ValidatedNamesPresent(request);
    CheckedIsActive(t, user, id, r);
    var name := NewName(t.people[id], r);
    NewNameIsKeyed(t, user, id, r);
    OthersDiffer(t, user, id, r);
    hide Validate, UpdateCheck, NewName, NewNorm, WriteProfile, NormalizePersonName, IdentityInv, AliasMap;
    if TombstoneNamed(t.people, user, name) {
      var x :| x in t.people && t.people[x].merged.Some? && t.people[x].user == user && t.people[x].name == name;
      assert x !in {id};
    }
    if NameTaken(t.people, user, name, {id}) {
      var x :| x in t.people && x !in {id} && t.people[x].user == user && t.people[x].name == name;
      assert t.people[x].merged.Some?;
    }
  }

  lemma NewNameIsKeyed(t: Tables, user: int, id: int, r: Request)
    requires IdentityInv(t) && ActiveFor(t.people, user, id)
    ensures NewNorm(t.people[id], r) == NormalizePersonName(NewName(t.people[id], r))
  {
    assert NameIndexed(t, id);
    hide NormalizePersonName;
  }

  // No other active person has the new name.
  lemma OthersDiffer(t: Tables, user: int, id: int, r: Request)
    requires IdentityInv(t) && UpdateCheck(t, user, id, r).None?
    requires NewNorm(t.people[id], r) == NormalizePersonName(NewName(t.people[id], r))
    ensures forall x :: x in t.people && x != id && ActiveFor(t.people, user, x) ==> t.people[x].name != NewName(t.people[id], r)
  {
    hide NormalizePersonName, NewNorm, NewName, AliasConflict, AliasMap;
    var others := ActiveNamed(t, user, NewNorm(t.people[id], r)) - {id};
    forall x | x in t.people && x != id && ActiveFor(t.people, user, x)
      ensures t.people[x].name != NewName(t.people[id], r)
    {
      assert NameIndexed(t, x) && x !in others;
    }
  }

  // An update answers with the profile, which it looks up after the commit: it answers "not
  // found" although it has committed if the person has no people notes.
  lemma UpdateAnswers(t: Tables, user: int, id: int, request: Request, now: Instant)
    requires Inv(t) && UpdateProfile(t, user, id, request, now).1.Updated?
    ensures ProfileLookup(UpdateProfile(t, user, id, request, now).0, user, id) == if HasNotes(t, user, id) then Some(id) else None
  {
    hide Validate, UpdateCheck, WriteProfile, IdentityInv, RecordsInv, AliasMap, NameTaken, NewName, ProfileLookup;
    var r := Validate(request).value;
    CheckedIsActive(t, user, id, r);
    UpdateKeepsInv(t, user, id, request, now);
    UpdateTouches(t, user, id, r, now);
    LookupOfActive(WriteProfile(t, user, id, r, now), user, id);
  }

  // ---- What a raw request asks for ----

  // Text that a column of at most max characters may hold: no control characters, but for line
  // ends and tabs where there may be several lines.
  predicate Fits(text: string, max: nat, multiline: bool) {
    |text| <= max && forall c :: c in text ==> (c >= ' ' && c != '\U{007F}') || (multiline && (c == '\t' || c == '\n' || c == '\r'))
  }

  predicate OptionalFits(f: Field, max: nat, multiline: bool) {
    f.Set? && f.value.Some? && !Blank(f.value.value) ==> Fits(TrimSpace(f.value.value), max, multiline)
  }

  // A name that may stand in a request.
  predicate Nameable(name: string) {
    !Blank(name) && Fits(TrimSpace(name), 200, false)
  }

  predicate AliasesFit(aliases: Option<seq<string>>) {
    aliases.Some? ==> |aliases.value| <= 25 && forall a :: a in aliases.value ==> Nameable(a)
  }

  // The requests that validation lets through.
  predicate WellFormed(r: Request) {
    && (r.displayName.Set? ==> r.displayName.value.Some? && Nameable(r.displayName.value.value))
    && OptionalFits(r.first, 200, false) && OptionalFits(r.last, 200, false) && OptionalFits(r.title, 200, false)
    && OptionalFits(r.team, 200, false) && OptionalFits(r.company, 200, false) && OptionalFits(r.notes, 10000, true)
    && AliasesFit(r.aliases)
  }

  // The display name that the request asks for, or the present one.
  function NameAsked(r: Request, current: string): string {
    if r.displayName.Set? && r.displayName.value.Some? then r.displayName.value.value else current
  }

  // The keys that the request names: of the aliases that it lists, and of the new and the present
  // display name.
  function KeysNamed(r: Request, current: string): set<string> {
    (if r.aliases.Some? then set a | a in r.aliases.value :: NormalizePersonName(a) else {})
    + {NormalizePersonName(NameAsked(r, current)), NormalizePersonName(current)}
  }

  lemma AcceptableFits(text: string, max: nat, multiline: bool)
    ensures Acceptable(text, max, multiline) <==> Fits(text, max, multiline)
  {
    if HasControl(text, multiline) {
      var i :| 0 <= i < |text| && (text[i] < ' ' || text[i] == '\U{007F}') && !(multiline && text[i] in {'\n', '\r', '\t'});
      assert text[i] in text;
    }
  }

  lemma RequiredFits(f: Field)
    ensures CleanRequired(f).Some? <==> (f.Set? ==> f.value.Some? && Nameable(f.value.value))
    ensures CleanRequired(f).Some? ==>
              CleanRequired(f).value == if f.Set? then Set(Some(TrimSpace(f.value.value))) else Keep
  {
    if f.Set? && f.value.Some? {
      TrimSpaceShape(f.value.value);
      AcceptableFits(TrimSpace(f.value.value), 200, false);
      hide TrimSpace, Acceptable, Fits, Blank;
    }
  }

  lemma OptionalFitsExactly(f: Field, max: nat, multiline: bool)
    ensures CleanOptional(f, max, multiline).Some? <==> OptionalFits(f, max, multiline)
  {
    if f.Set? && f.value.Some? {
      TrimSpaceShape(f.value.value);
      AcceptableFits(TrimSpace(f.value.value), max, multiline);
      hide TrimSpace, Acceptable, Fits, Blank;
    }
  }

  predicate AliasOk(a: string) {
    TrimSpace(a) != "" && Acceptable(TrimSpace(a), NAME_MAX, false) && NormalizePersonName(TrimSpace(a)) != ""
  }

  lemma AliasOkExactly(a: string)
    ensures AliasOk(a) <==> Nameable(a)
    ensures NormalizePersonName(TrimSpace(a)) == NormalizePersonName(a)
  {
    TrimSpaceShape(a);
    AcceptableFits(TrimSpace(a), 200, false);
    KeyIgnoresTrim(a);
    KeyIsEmptyOnlyForBlank(a);
    hide TrimSpace, Acceptable, Fits, Blank, NormalizePersonName;
  }

  // x is the trimmed first alias of its key.
  predicate FirstOfKey(aliases: seq<string>, x: string) {
    exists i :: 0 <= i < |aliases| && x == TrimSpace(aliases[i])
                && forall j :: 0 <= j < i ==> NormalizePersonName(aliases[j]) != NormalizePersonName(aliases[i])
  }

  predicate HasKey(out: seq<string>, norm: string) {
    exists i :: 0 <= i < |out| && NormalizePersonName(out[i]) == norm
  }

  // out holds the trimmed first alias of each key, and no key twice.
  ghost predicate AliasesCleaned(aliases: seq<string>, out: seq<string>) {
    && (forall i :: 0 <= i < |out| ==> FirstOfKey(aliases, out[i]))
    && (forall i :: 0 <= i < |aliases| ==> HasKey(out, NormalizePersonName(aliases[i])))
    && (forall i, j :: 0 <= i < j < |out| ==> NormalizePersonName(out[i]) != NormalizePersonName(out[j]))
  }

  lemma {:induction false} CleanAliasesExactly(aliases: seq<string>)
    ensures CleanAliases(aliases).Some? <==> forall a :: a in aliases ==> Nameable(a)
    ensures CleanAliases(aliases).Some? ==> AliasesCleaned(aliases, CleanAliases(aliases).value)
  {
    if aliases == [] {
      NoAliasesCleaned();
    } else {
      hide *;
      var before, a := aliases[..|aliases| - 1], aliases[|aliases| - 1];
      assert aliases == before + [a];
      CleanAliasesExactly(before);
      AliasOkExactly(a);
      OneMoreAlias(before, a);
      if CleanAliases(before).Some? && Nameable(a) {
        OneMoreCleaned(before, CleanAliases(before).value, a);
      }
    }
  }

  lemma OneMoreAlias(before: seq<string>, a: string)
    requires NormalizePersonName(TrimSpace(a)) == NormalizePersonName(a)
    ensures CleanAliases(before + [a])
            == if CleanAliases(before).None? || !AliasOk(a) then None
               else var out := CleanAliases(before).value;
                    Some(if HasKey(out, NormalizePersonName(a)) then out else out + [TrimSpace(a)])
  {
    hide NormalizePersonName, TrimSpace, Acceptable;
    assert (before + [a])[..|before|] == before;
  }

  lemma NoAliasesCleaned()
    ensures AliasesCleaned([], [])
  {
  }

  lemma FirstStays(aliases: seq<string>, a: string, x: string)
    requires FirstOfKey(aliases, x)
    ensures FirstOfKey(aliases + [a], x)
  {
    hide NormalizePersonName, TrimSpace;
    var i :| 0 <= i < |aliases| && x == TrimSpace(aliases[i])
             && forall j :: 0 <= j < i ==> NormalizePersonName(aliases[j]) != NormalizePersonName(aliases[i]);
    assert (aliases + [a])[i] == aliases[i];
    assert forall j :: 0 <= j < i ==> (aliases + [a])[j] == aliases[j];
  }

  lemma NewIsFirst(aliases: seq<string>, a: string)
    requires forall i :: 0 <= i < |aliases| ==> NormalizePersonName(aliases[i]) != NormalizePersonName(a)
    ensures FirstOfKey(aliases + [a], TrimSpace(a))
  {
    hide NormalizePersonName, TrimSpace;
    assert (aliases + [a])[|aliases|] == a;
  }

  lemma HasKeyGrows(out: seq<string>, x: string, norm: string)
    ensures HasKey(out + [x], norm) <==> HasKey(out, norm) || norm == NormalizePersonName(x)
  {
    hide NormalizePersonName;
    var more := out + [x];
    assert more[|out|] == x;
    if i :| 0 <= i < |out| && NormalizePersonName(out[i]) == norm {
      assert more[i] == out[i];
    }
  }

  lemma OneMoreCleaned(aliases: seq<string>, out: seq<string>, a: string)
    requires AliasesCleaned(aliases, out) && NormalizePersonName(TrimSpace(a)) == NormalizePersonName(a)
    ensures if HasKey(out, NormalizePersonName(a)) then AliasesCleaned(aliases + [a], out)
            else AliasesCleaned(aliases + [a], out + [TrimSpace(a)])
  {
    var x, more := TrimSpace(a), aliases + [a];
    hide NormalizePersonName, TrimSpace, FirstOfKey;
    forall i | 0 <= i < |out| ensures FirstOfKey(more, out[i]) {
      FirstStays(aliases, a, out[i]);
    }
    if HasKey(out, NormalizePersonName(a)) {
      hide HasKey;
    } else {
      NewIsFirst(aliases, a);
      forall norm ensures HasKey(out + [x], norm) <==> HasKey(out, norm) || norm == NormalizePersonName(x) {
        HasKeyGrows(out, x, norm);
      }
      assert forall i :: 0 <= i < |out| ==> NormalizePersonName(out[i]) != NormalizePersonName(x);
      hide HasKey;
    }
  }

  // Validation refuses exactly the requests that are not well formed, and trims the names.
  lemma ValidateExactly(r: Request)
    ensures Validate(r).Some? <==> WellFormed(r)
    ensures Validate(r).Some? ==>
              var clean := Validate(r).value;
              && clean.expected == r.expected && clean.displayName.Set? == r.displayName.Set? && clean.aliases.Some? == r.aliases.Some?
              && (r.displayName.Set? ==> clean.displayName == Set(Some(TrimSpace(r.displayName.value.value))))
              && (r.aliases.Some? ==> AliasesCleaned(r.aliases.value, clean.aliases.value))
  {
    hide CleanRequired, CleanOptional, CleanAliases, OptionalFits, AliasesCleaned, TrimSpace, Fits, Blank, NormalizePersonName;
    RequiredFits(r.displayName);
    OptionalFitsExactly(r.first, 200, false);
    OptionalFitsExactly(r.last, 200, false);
    OptionalFitsExactly(r.title, 200, false);
    OptionalFitsExactly(r.team, 200, false);
    OptionalFitsExactly(r.company, 200, false);
    OptionalFitsExactly(r.notes, 10000, true);
    if r.aliases.Some? { CleanAliasesExactly(r.aliases.value); }
  }

  lemma {:induction false} ListedAliasesAre(out: seq<string>)
    requires forall i, j :: 0 <= i < j < |out| ==> NormalizePersonName(out[i]) != NormalizePersonName(out[j])
    ensures forall n :: n in ListedAliases(out) <==> HasKey(out, n)
    ensures forall n :: n in ListedAliases(out) ==> ListedAliases(out)[n] in out && NormalizePersonName(ListedAliases(out)[n]) == n
  {
    hide NormalizePersonName;
    if out != [] {
      var n := |out| - 1;
      ListedAliasesAre(out[..n]);
      assert out == out[..n] + [out[n]];
      forall norm ensures HasKey(out, norm) <==> HasKey(out[..n], norm) || norm == NormalizePersonName(out[n]) {
        HasKeyGrows(out[..n], out[n], norm);
      }
    }
  }

  // The keys of the request's aliases, before and after validation.
  lemma CleanedKeys(aliases: seq<string>, out: seq<string>)
    requires AliasesCleaned(aliases, out) && forall a :: a in aliases ==> Nameable(a)
    ensures forall n :: HasKey(out, n) <==> exists a :: a in aliases && NormalizePersonName(a) == n
    ensures forall i :: 0 <= i < |out| ==> NormalizePersonName(out[i]) != ""
  {
    forall i | 0 <= i < |out|
      ensures NormalizePersonName(out[i]) != ""
           && exists a :: a in aliases && NormalizePersonName(a) == NormalizePersonName(out[i]) {
      var j :| 0 <= j < |aliases| && out[i] == TrimSpace(aliases[j])
               && forall l :: 0 <= l < j ==> NormalizePersonName(aliases[l]) != NormalizePersonName(aliases[j]);
      assert aliases[j] in aliases;
      AliasOkExactly(aliases[j]);
      KeyIsEmptyOnlyForBlank(aliases[j]);
    }
    hide NormalizePersonName, TrimSpace, FirstOfKey;
    forall a | a in aliases ensures HasKey(out, NormalizePersonName(a)) {
      var i :| 0 <= i < |aliases| && aliases[i] == a;
    }
  }

  lemma NamesAskedKeys(t: Tables, id: int, request: Request)
    requires Validate(request).Some? && id in t.people
    ensures var r, cur := Validate(request).value, t.people[id];
            && NewName(cur, r) == (if request.displayName.Set? then TrimSpace(NameAsked(request, cur.name)) else cur.name)
            && (cur.norm == NormalizePersonName(cur.name) ==> NewNorm(cur, r) == NormalizePersonName(NameAsked(request, cur.name)))
  {
    ValidateExactly(request);
    KeyIgnoresTrim(NameAsked(request, t.people[id].name));
    hide Validate, NormalizePersonName, TrimSpace;
  }

  lemma AliasMapIs(t: Tables, user: int, id: int, r: Request)
    requires id in t.people && NormalizePersonName(t.people[id].name) != "" && NewNorm(t.people[id], r) != ""
    requires "" !in BaseAliases(t, user, id, r)
    ensures AliasMap(t, user, id, r)
         == BaseAliases(t, user, id, r)[NewNorm(t.people[id], r) := NewName(t.people[id], r)]
                                       [NormalizePersonName(t.people[id].name) := t.people[id].name]
  {
    hide NormalizePersonName, NewNorm, NewName, ListedAliases, StoredAliases;
  }

  // The facts about names that hold in a reachable state.
  lemma NamesInReachableState(t: Tables, user: int, id: int, request: Request)
    requires IdentityInv(t) && ActiveFor(t.people, user, id) && Validate(request).Some?
    ensures var r, cur := Validate(request).value, t.people[id];
            && cur.norm == NormalizePersonName(cur.name) != ""
            && NewNorm(cur, r) == NormalizePersonName(NameAsked(request, cur.name)) != ""
            && "" !in BaseAliases(t, user, id, r)
            && (r.aliases.None? <==> request.aliases.None?)
            && BaseAliases(t, user, id, r).Keys
               == if request.aliases.Some? then set a | a in request.aliases.value :: NormalizePersonName(a)
                  else OwnedNorms(t, user, {id})
  {
    var r, cur := Validate(request).value, t.people[id];
    assert NameIndexed(t, id);
    NamesAskedKeys(t, id, request);
    ValidateExactly(request);
    ValidatedNamesPresent(request);
    hide Validate, NormalizePersonName, ListedAliases, IdentityInv, AliasesCleaned, HasKey, Nameable, NewName;
    AliasMapShape(t, user, id, r);
    OwnedNormsAre(t, user, {id});
    if request.aliases.Some? {
      ListedKeys(request.aliases.value, r.aliases.value);
    } else {
      NoBlankKey(t, user, id);
      hide OwnedNorms;
    }
  }

  // The keys that the person has after an update: those that the request names, and if it lists no
  // aliases, those that it had.
  lemma AliasMapKeys(t: Tables, user: int, id: int, request: Request)
    requires IdentityInv(t) && ActiveFor(t.people, user, id) && Validate(request).Some?
    ensures AliasMap(t, user, id, Validate(request).value).Keys
         == KeysNamed(request, t.people[id].name) + if request.aliases.None? then OwnedNorms(t, user, {id}) else {}
  {
    var r, cur := Validate(request).value, t.people[id];
    NamesInReachableState(t, user, id, request);
    hide Validate, NormalizePersonName, OwnedNorms, IdentityInv, ActiveFor, NewNorm, NewName, AliasMap, BaseAliases, NameAsked;
    AliasMapIs(t, user, id, r);
    assert AliasMap(t, user, id, r).Keys
        == BaseAliases(t, user, id, r).Keys + {NewNorm(cur, r), NormalizePersonName(cur.name)};
  }

  lemma NoBlankKey(t: Tables, user: int, id: int)
    requires IdentityInv(t)
    ensures "" !in OwnedNorms(t, user, {id})
  {
    OwnedNormsAre(t, user, {id});
    hide OwnedNorms, Forest, NamesIndexed, SerialsFresh, RowNamesUnique;
  }

  lemma ListedKeys(aliases: seq<string>, out: seq<string>)
    requires AliasesCleaned(aliases, out) && forall a :: a in aliases ==> Nameable(a)
    ensures ListedAliases(out).Keys == (set a | a in aliases :: NormalizePersonName(a)) && "" !in ListedAliases(out)
  {
    CleanedKeys(aliases, out);
    ListedAliasesAre(out);
    hide NormalizePersonName, ListedAliases, Nameable, FirstOfKey;
  }

  lemma UpdatedIsValid(t: Tables, user: int, id: int, request: Request, now: Instant)
    requires UpdateProfile(t, user, id, request, now).1.Updated?
    ensures Validate(request).Some? && UpdateCheck(t, user, id, Validate(request).value).None? && ActiveFor(t.people, user, id)
    ensures UpdateProfile(t, user, id, request, now).0 == WriteProfile(t, user, id, Validate(request).value, now)
  {
    hide Validate, UpdateCheck, WriteProfile, NameTaken, NewName;
    CheckedIsActive(t, user, id, Validate(request).value);
  }

  // The keys that the person has after the update.
  function KeysAfter(t: Tables, user: int, id: int, request: Request): set<string>
    requires id in t.people
  {
    KeysNamed(request, t.people[id].name) + if request.aliases.None? then OwnedNorms(t, user, {id}) else {}
  }

  lemma UpdateEffect(t: Tables, user: int, id: int, request: Request, now: Instant)
    requires Inv(t) && UpdateProfile(t, user, id, request, now).1.Updated?
    ensures IdentityInv(t) && IdentityInv(UpdateProfile(t, user, id, request, now).0) && ActiveFor(t.people, user, id)
    ensures AliasEffect(t, UpdateProfile(t, user, id, request, now).0, user, id, KeysAfter(t, user, id, request))
  {
    hide Validate, UpdateProfile, UpdateCheck, WriteProfile, AliasMap, NormalizePersonName, IdentityInv, RecordsInv, NamesPresent,
      KeysNamed, OwnedNorms, AliasEffect;
    UpdatedIsValid(t, user, id, request, now);
    AliasMapKeys(t, user, id, request);
    UpdateKeepsInv(t, user, id, request, now);
    ValidatedNamesPresent(request);
    UpdateMovesAliases(t, user, id, Validate(request).value, now);
  }

  // What an update means for name resolution, from the raw request: the names that it lists, the
  // new display name and the present one lead to the person; so does every name that did, unless
  // the request lists aliases, and then it leads nowhere; no other name moves.
  lemma UpdateMeans(t: Tables, user: int, id: int, request: Request, now: Instant, who: int, name: string)
    requires Inv(t) && UpdateProfile(t, user, id, request, now).1.Updated?
    ensures id in t.people
    ensures var before, after := ResolvePerson(t, who, name), ResolvePerson(UpdateProfile(t, user, id, request, now).0, who, name);
            after == if who != user || who <= 0 || Blank(name) || '\0' in name then before
                     else if NormalizePersonName(name) in KeysNamed(request, t.people[id].name) then Found(id)
                     else if before == Found(id) && request.aliases.Some? then NotFound
                     else before
  {
    hide Inv, UpdateProfile, NormalizePersonName, IdentityInv, KeysNamed, OwnedNorms, Blank, ResolvePerson, AliasEffect;
    UpdateEffect(t, user, id, request, now);
    ResolveAfter(t, UpdateProfile(t, user, id, request, now).0, user, id, KeysAfter(t, user, id, request), who, name);
    OwnedNormsAre(t, user, {id});
    ResolveMeans(t, who, name);
  }

  // Resolution after the alias index has changed for one person.
  lemma ResolveAfter(t: Tables, t1: Tables, user: int, id: int, norms: set<string>, who: int, name: string)
    requires IdentityInv(t) && IdentityInv(t1) && ActiveFor(t.people, user, id) && AliasEffect(t, t1, user, id, norms)
    ensures var before, after := ResolvePerson(t, who, name), ResolvePerson(t1, who, name);
            after == if who != user || who <= 0 || Blank(name) || '\0' in name then before
                     else if NormalizePersonName(name) in norms then Found(id)
                     else if before == Found(id) then NotFound else before
  {
    ResolveMeans(t, who, name);
    ResolveMeans(t1, who, name);
    OwnersOfUser(t, user, id, who, NormalizePersonName(name));
    hide IdentityInv, NormalizePersonName, Blank, ResolvePerson, ActiveFor;
  }

  lemma OwnersOfUser(t: Tables, user: int, id: int, who: int, norm: string)
    requires IdentityInv(t) && ActiveFor(t.people, user, id)
    ensures (who, norm) in t.aliases && t.aliases[(who, norm)].person == id ==> who == user
  {
    hide Forest, NamesIndexed, SerialsFresh, RowNamesUnique;
    if (who, norm) in t.aliases {
      assert ActiveFor(t.people, who, t.aliases[(who, norm)].person);
    }
  }

  // Every alias that a committed update lists leads to the person.
  lemma ListedAliasesLead(t: Tables, user: int, id: int, request: Request, now: Instant, alias: string)
    requires Inv(t) && user > 0 && UpdateProfile(t, user, id, request, now).1.Updated?
    requires request.aliases.Some? && alias in request.aliases.value
    ensures ResolvePerson(UpdateProfile(t, user, id, request, now).0, user, alias) == Found(id)
  {
    UpdatedIsValid(t, user, id, request, now);
    ValidateExactly(request);
    assert Nameable(alias);
    NameableHasNoNul(alias);
    hide Inv, Validate, UpdateProfile, UpdateCheck, WriteProfile, NormalizePersonName, Blank, ResolvePerson;
    UpdateMeans(t, user, id, request, now, user, alias);
  }

  lemma NameableHasNoNul(name: string)
    requires Nameable(name)
    ensures !Blank(name) && '\0' !in name
  {
    if '\0' in name {
      FieldsIgnoreTrim(name);
      CharsInFields(name, '\0');
      var i :| 0 <= i < |Fields(name)| && '\0' in Fields(name)[i];
      CharsOfFields(TrimSpace(name), '\0', i);
    }
  }

  // The text that an update leaves under one of the person's keys: the present display name under
  // its key, the new one under its own, the first listed alias of a key, trimmed, under that, and
  // the stored text under every other.
  ghost predicate TextWritten(t: Tables, user: int, id: int, request: Request, norm: string, alias: string)
    requires id in t.people
  {
    var current := t.people[id].name;
    if norm == NormalizePersonName(current) then alias == current
    else if norm == NormalizePersonName(NameAsked(request, current)) then alias == TrimSpace(NameAsked(request, current))
    else if request.aliases.Some? then FirstOfKey(request.aliases.value, alias) && NormalizePersonName(alias) == norm
    else (user, norm) in t.aliases && t.aliases[(user, norm)] == Alias(id, alias)
  }

  lemma AliasMapTexts(t: Tables, user: int, id: int, request: Request, norm: string)
    requires IdentityInv(t) && ActiveFor(t.people, user, id) && Validate(request).Some?
    requires norm in AliasMap(t, user, id, Validate(request).value)
    ensures TextWritten(t, user, id, request, norm, AliasMap(t, user, id, Validate(request).value)[norm])
  {
    hide Validate, NormalizePersonName, TrimSpace, BaseAliases, AliasMap, FirstOfKey, IdentityInv, AliasesCleaned, NewName, NewNorm,
      OwnedNorms;
    var r := Validate(request).value;
    NamesInReachableState(t, user, id, request);
    NamesAskedKeys(t, id, request);
    ValidateExactly(request);
    AliasMapIs(t, user, id, r);
    if norm in BaseAliases(t, user, id, r) {
      if request.aliases.Some? {
        ListedText(request.aliases.value, r.aliases.value, t, user, id, r, norm);
      } else {
        StoredText(t, user, id, r, norm);
      }
    }
  }

  // From the raw request to the alias rows: a request without names leaves them all; otherwise the
  // person's rows hold the texts above, and every other row stays.
  lemma UpdateWritesTexts(t: Tables, user: int, id: int, request: Request, now: Instant, k: AliasKey)
    requires Inv(t) && UpdateProfile(t, user, id, request, now).1.Updated?
    requires k in UpdateProfile(t, user, id, request, now).0.aliases
    ensures id in t.people
    ensures var row := UpdateProfile(t, user, id, request, now).0.aliases[k];
            if row.person != id || (request.aliases.None? && request.displayName == Keep)
            then k in t.aliases && row == t.aliases[k]
            else TextWritten(t, user, id, request, k.1, row.alias)
  {
    hide Validate, UpdateProfile, UpdateCheck, AliasMap, TextWritten, IdentityInv, RecordsInv, NamesPresent, WriteProfile, AliasEffect,
      AliasesCleaned;
    UpdatedIsValid(t, user, id, request, now);
    var r := Validate(request).value;
    ValidateExactly(request);
    ValidatedNamesPresent(request);
    UpdateMovesAliases(t, user, id, r, now);
    RowWritten(t, user, id, r, now, k);
    RowsOfPerson(t, WriteProfile(t, user, id, r, now), user, id, AliasMap(t, user, id, r).Keys, k);
    if k.1 in AliasMap(t, user, id, r) {
      AliasMapTexts(t, user, id, request, k.1);
    }
  }

  lemma StoredText(t: Tables, user: int, id: int, r: Request, norm: string)
    requires r.aliases.None? && norm in BaseAliases(t, user, id, r)
    ensures (user, norm) in t.aliases && t.aliases[(user, norm)] == Alias(id, BaseAliases(t, user, id, r)[norm])
  {
    OwnedNormsAre(t, user, {id});
    hide OwnedNorms;
  }

  lemma RowsOfPerson(t: Tables, t1: Tables, user: int, id: int, norms: set<string>, k: AliasKey)
    requires AliasEffect(t, t1, user, id, norms) && k in t1.aliases
    ensures t1.aliases[k].person == id <==> k.0 == user && k.1 in norms
    ensures k == (k.0, k.1)
  {
  }

  // A row after the write: the alias map's own, or one that was there.
  lemma RowWritten(t: Tables, user: int, id: int, r: Request, now: Instant, k: AliasKey)
    requires ActiveFor(t.people, user, id) && k in WriteProfile(t, user, id, r, now).aliases
    ensures var row, aliases := WriteProfile(t, user, id, r, now).aliases[k], AliasMap(t, user, id, r);
            if WritesAliases(r) && k.0 == user && k.1 in aliases then row == Alias(id, aliases[k.1])
            else k in t.aliases && row == t.aliases[k]
  {
    hide AliasMap, NewName, NewNorm, ApplyProfile;
  }

  lemma ListedText(aliases: seq<string>, out: seq<string>, t: Tables, user: int, id: int, r: Request, norm: string)
    requires r.aliases == Some(out) && AliasesCleaned(aliases, out) && norm in BaseAliases(t, user, id, r)
    ensures FirstOfKey(aliases, BaseAliases(t, user, id, r)[norm]) && NormalizePersonName(BaseAliases(t, user, id, r)[norm]) == norm
  {
    ListedAliasesAre(out);
    hide NormalizePersonName, FirstOfKey, ListedAliases;
    var i :| 0 <= i < |out| && out[i] == ListedAliases(out)[norm];
  }

  // ---- Which request ends how ----

  // A name of the request leads to another person.
  predicate NameLeadsElsewhere(t: Tables, user: int, id: int, r: Request)
    requires id in t.people
  {
    exists n :: n in KeysNamed(r, t.people[id].name) && (user, n) in t.aliases && t.aliases[(user, n)].person != id
  }

  // The name that the person's row gets.
  function NameGiven(r: Request, current: string): string {
    if r.displayName.Set? then TrimSpace(NameAsked(r, current)) else current
  }

  lemma ConflictMeansElsewhere(t: Tables, user: int, id: int, request: Request)
    requires IdentityInv(t) && ActiveFor(t.people, user, id) && Validate(request).Some?
    ensures AliasConflict(t, user, AliasMap(t, user, id, Validate(request).value).Keys, {id})
        <==> NameLeadsElsewhere(t, user, id, request)
    ensures ActiveNamed(t, user, NewNorm(t.people[id], Validate(request).value)) - {id} != {} ==>
              NameLeadsElsewhere(t, user, id, request)
  {
    hide Validate, NormalizePersonName, IdentityInv, AliasMap, NewName, NewNorm, OwnedNorms, KeysNamed, BaseAliases;
    var r := Validate(request).value;
    AliasMapKeys(t, user, id, request);
    OwnedNormsAre(t, user, {id});
    NamesInReachableState(t, user, id, request);
    NewKeyIsNamed(request, t.people[id].name);
    forall n ensures Owners(t, user, n) - {id} != {} <==> (user, n) in t.aliases && t.aliases[(user, n)].person != id {
      OwnersAre(t, user, n);
    }
    hide Owners;
    var other := ActiveNamed(t, user, NewNorm(t.people[id], r)) - {id};
    if other != {} {
      OwnersAre(t, user, NewNorm(t.people[id], r));
    }
  }

  lemma NewKeyIsNamed(request: Request, current: string)
    ensures NormalizePersonName(NameAsked(request, current)) in KeysNamed(request, current)
  {
    hide NormalizePersonName, NameAsked;
  }

  // In a reachable state a name is owned by the person that it leads to, and by nobody otherwise.
  lemma OwnersAre(t: Tables, user: int, n: string)
    requires IdentityInv(t)
    ensures Owners(t, user, n) == if (user, n) in t.aliases then {t.aliases[(user, n)].person} else {}
    ensures ActiveNamed(t, user, n) <= Owners(t, user, n)
  {
    if (user, n) in t.aliases {
      OwnersAreAliasOwner(t, user, n);
    } else {
      UnindexedNameIsNobodys(t, user, n);
    }
    hide IdentityInv;
  }

  // Which request ends how, from the raw request and the rows alone: a request that is not well
  // formed is refused first; then one for a person that is not there, then one that expects another
  // version, then one with a name that leads to another person; of what is left, one whose display
  // name a tombstone holds fails, and every other commits. A request that does not commit changes
  // nothing.
  lemma UpdateOutcomes(t: Tables, user: int, id: int, r: Request, now: Instant)
    requires IdentityInv(t)
    ensures var (t1, outcome) := UpdateProfile(t, user, id, r, now);
            var found := WellFormed(r) && ActiveFor(t.people, user, id);
            var current := found && Expects(r.expected, t.people[id]);
            var named := current && !NameLeadsElsewhere(t, user, id, r);
            && (outcome == Rejected(ValidationError) <==> !WellFormed(r))
            && (outcome == Rejected(NoSuchPerson) <==> WellFormed(r) && !found)
            && (outcome == Rejected(UpdateConflict) <==> found && !current)
            && (outcome == Rejected(IdentityConflict) <==> current && !named)
            && (outcome == Rejected(DatabaseError) <==> named && TombstoneNamed(t.people, user, NameGiven(r, t.people[id].name)))
            && (outcome == Updated <==> named && !TombstoneNamed(t.people, user, NameGiven(r, t.people[id].name)))
            && (outcome != Updated ==> t1 == t)
  {
    ValidateExactly(r);
    hide Validate, WellFormed, NormalizePersonName, IdentityInv, NewName, NewNorm, KeysNamed, AliasMap, WriteProfile, NameTaken,
      TombstoneNamed, AliasConflict, ActiveNamed, NameLeadsElsewhere, NameAsked, TrimSpace;
    if Validate(r).Some? && ActiveFor(t.people, user, id) {
      var clean := Validate(r).value;
      ConflictMeansElsewhere(t, user, id, r);
      NamesAskedKeys(t, id, r);
      if UpdateCheck(t, user, id, clean).None? {
        UpdateCommitsExactly(t, user, id, r, now);
      }
    }
  }

  // What a request field makes of a stored one: an absent field keeps it, null or a blank value
  // clears it, and any other value is stored trimmed.
  predicate FieldWritten(f: Field, before: Option<string>, after: Option<string>) {
    match f
    case Keep => after == before
    case Set(None) => after == None
    case Set(Some(v)) => after == if TrimSpace(v) == "" then None else Some(TrimSpace(v))
  }

  predicate NameWritten(f: Field, before: string, after: string) {
    match f
    case Keep => after == before
    case Set(None) => false
    case Set(Some(v)) => after == TrimSpace(v) && after != ""
  }

  // From the request as it came in to the row: every field is written as asked, the display name
  // trimmed and never blank, and no other person changes.
  lemma UpdateWritesRequest(t: Tables, user: int, id: int, request: Request, now: Instant)
    requires UpdateProfile(t, user, id, request, now).1.Updated?
    ensures id in t.people && id in UpdateProfile(t, user, id, request, now).0.people
    ensures var before, after := t.people[id], UpdateProfile(t, user, id, request, now).0.people[id];
            && FieldWritten(request.first, before.profile.first, after.profile.first)
            && FieldWritten(request.last, before.profile.last, after.profile.last)
            && FieldWritten(request.title, before.profile.title, after.profile.title)
            && FieldWritten(request.team, before.profile.team, after.profile.team)
            && FieldWritten(request.company, before.profile.company, after.profile.company)
            && FieldWritten(request.notes, before.profile.notes, after.profile.notes)
            && NameWritten(request.displayName, before.name, after.name)
            && after.updated == now
    ensures var t1 := UpdateProfile(t, user, id, request, now).0; t1.people == t.people[id := t1.people[id]]
  {
    hide AliasMap, ReplaceAliases, AliasConflict, ActiveNamed, NormalizePersonName, TrimSpace, Acceptable, CleanAliases, NameTaken;
  }
}
