// What the unique index (user_id, name) of the table people means after a merge: the row of the
// merged person keeps its name. Each witness is a state that a run from an empty store reaches.
module TombstoneNames {
  import opened Options
  import opened Text
  import opened Names
  import opened People
  import opened Records
  import opened Profiles
  import opened Merging
  import opened IdentityRuns

  const NO_CHANGE := Request(Keep, Keep, Keep, Keep, Keep, Keep, Keep, None, None)
  const DROP_ALIASES := NO_CHANGE.(aliases := Some([]))
  const NO_CHOICE := MergeInput(None, None, map[])
  const A_AND_B := Pair(1, 1, 2)

  // Two persons of user 1; the second is merged into the first; the first gives up the alias "b".
  const TWO: seq<Step> := [UpsertStep(1, "A", 0), UpsertStep(1, "B", 1)]
  const MERGED: seq<Step> := TWO + [MergeStep(A_AND_B, NO_CHOICE, 2)]
  const FREED: seq<Step> := MERGED + [UpdateStep(1, 1, DROP_ALIASES, 3)]

  lemma KeysOfAAndB()
    ensures NormalizePersonName("A") == "a" && TrimSpace("A") == "A" && !Blank("A")
    ensures NormalizePersonName("B") == "b" && TrimSpace("B") == "B" && !Blank("B")
    ensures Storable("A") && Storable("B") && Storable("a") && Storable("b")
  {
    KeyOfWord("A");
    KeyOfWord("B");
    assert ToLower("A") == "a" && ToLower("B") == "b";
    assert !IsSpace("A"[0]) && !IsSpace("B"[0]);
  }

  ghost predicate TwoPersons(t: Tables) {
    && Inv(t) && t.people.Keys == {1, 2} && t.aliases.Keys == {(1, "a"), (1, "b")}
    && t.people[1] == Person(1, "A", "a", NO_PROFILE, 0, None) && t.people[2] == Person(1, "B", "b", NO_PROFILE, 1, None)
    && t.aliases[(1, "a")].person == 1 && t.aliases[(1, "b")].person == 2
  }

  lemma RunsSplit(t: Tables, steps: seq<Step>, step: Step)
    ensures Run(t, steps + [step]) == Next(Run(t, steps), step)
  {
    assert (steps + [step])[..|steps|] == steps;
  }

  const ONE: Tables := AddPerson(EMPTY, 1, "A", "a", 0)

  lemma FirstUpsert()
    ensures Inv(ONE) && Upsert(EMPTY, 1, "A", 0).0 == ONE
  {
    KeysOfAAndB();
    EmptyStoreIsValid();
    hide Inv, Upsert, NormalizePersonName, TrimSpace, Blank, Storable;
    InvHasIdentity(EMPTY);
    UpsertInReachableState(EMPTY, 1, "A", 0);
    UpsertKeepsInv(EMPTY, 1, "A", 0);
  }

  lemma SecondUpsert()
    ensures TwoPersons(Upsert(ONE, 1, "B", 1).0)
  {
    KeysOfAAndB();
    FirstUpsert();
    hide Inv, Upsert, NormalizePersonName, TrimSpace, Blank, Storable;
    InvHasIdentity(ONE);
    UpsertInReachableState(ONE, 1, "B", 1);
    UpsertKeepsInv(ONE, 1, "B", 1);
    assert Upsert(ONE, 1, "B", 1).0 == AddPerson(ONE, 1, "B", "b", 1);
  }

  lemma TwoUpserts()
    ensures TwoPersons(Run(EMPTY, TWO))
  {
    FirstUpsert();
    SecondUpsert();
    hide Upsert, TwoPersons, ONE, Inv;
    assert [] + [UpsertStep(1, "A", 0)] == [UpsertStep(1, "A", 0)];
    assert TWO == [UpsertStep(1, "A", 0)] + [UpsertStep(1, "B", 1)];
    RunsSplit(EMPTY, [], UpsertStep(1, "A", 0));
    RunsSplit(EMPTY, [UpsertStep(1, "A", 0)], UpsertStep(1, "B", 1));
    hide Run;
  }

  // With two active persons, all that can keep a merge from passing its checks is its resolution.
  lemma AcceptedMerge(t: Tables, input: MergeInput)
    requires TwoPersons(t) && input.expectedPrimary.None? && input.expectedSource.None? && ResolutionValid(input.resolution)
    ensures MergeCheck(t, A_AND_B, input).None?
  {
    hide Inv, AliasConflict, MergedAliases, PickName, MoveAll, MergeCountsOf, NameCollides, IdentityInv, ResolutionValid;
    InvHasIdentity(t);
    MergeNeverMeetsAliasConflict(t, A_AND_B, input, 0);
  }

  // Asking for the source's display name makes the merge of these two fail.
  lemma SourceNameMergeFails()
    ensures var t := Run(EMPTY, TWO);
            MergePeople(t, A_AND_B, MergeInput(None, None, map["display_name" := "source"]), 2)
            == (t, MergeOutcome.Rejected(MergeError.DatabaseError))
  {
    TwoUpserts();
    hide Run, Inv, MergePeople, MergeCheck;
    var t, input := Run(EMPTY, TWO), MergeInput(None, None, map["display_name" := "source"]);
    AcceptedMerge(t, input);
    InvHasIdentity(t);
    MergeCommitsExactly(t, A_AND_B, input, 2);
  }

  // Person 1 owns both names, and the tombstone of the other is still called "B".
  ghost predicate OneLeft(t: Tables) {
    && Inv(t) && t.people.Keys == {1, 2} && t.aliases.Keys == {(1, "a"), (1, "b")}
    && t.people[1].user == 1 && t.people[1].name == "A" && t.people[1].merged.None?
    && t.people[2].user == 1 && t.people[2].name == "B" && t.people[2].merged == Some(1)
    && t.aliases[(1, "a")].person == 1 && t.aliases[(1, "b")].person == 1
  }

  lemma TwoHaveInv(t: Tables)
    requires TwoPersons(t)
    ensures Inv(t)
  {
    hide Inv;
  }

  lemma MergeCommits(t: Tables)
    requires TwoPersons(t)
    ensures MergePeople(t, A_AND_B, NO_CHOICE, 2).1.Merged?
    ensures Mergeable(t, A_AND_B) && MergePeople(t, A_AND_B, NO_CHOICE, 2).0 == MoveAll(t, A_AND_B, NO_CHOICE, 2)
  {
    hide Inv, IdentityInv, MergeCheck, MoveAll, NameCollides, MergeCountsOf, Mergeable, TwoPersons;
    assert ResolutionValid(NO_CHOICE.resolution);
    TwoHaveInv(t);
    AcceptedMerge(t, NO_CHOICE);
    CheckedIsMergeable(t, A_AND_B, NO_CHOICE);
    InvHasIdentity(t);
    MergeCommitsExactly(t, A_AND_B, NO_CHOICE, 2);
  }

  lemma MergeOfTwo(t: Tables)
    requires TwoPersons(t)
    ensures OneLeft(MergePeople(t, A_AND_B, NO_CHOICE, 2).0)
  {
    MergeCommits(t);
    InvHasIdentity(t);
    hide Inv, IdentityInv, MergePeople, MoveAll, FairProfile, Mergeable;
    MergeKeepsInv(t, A_AND_B, NO_CHOICE, 2);
    MergePicksProfile(t, A_AND_B, NO_CHOICE, 2);
    MergeRedirectsAliases(t, A_AND_B, NO_CHOICE, 2);
  }

  lemma MergedPair()
    ensures OneLeft(Run(EMPTY, MERGED))
  {
    TwoUpserts();
    RunsSplit(EMPTY, TWO, MergeStep(A_AND_B, NO_CHOICE, 2));
    hide Run, MergePeople, OneLeft, TWO, TwoPersons;
    MergeOfTwo(Run(EMPTY, TWO));
  }

  // Requests about person 1 that name nobody else pass the checks of an update.
  lemma AcceptedUpdate(t: Tables, r: Request)
    requires OneLeft(t) && r.expected.None? && NamesPresent(r)
    requires AliasMapKeys(t, r) <= {"a", "b"}
    ensures UpdateCheck(t, 1, 1, r).None?
  {
    InvHasIdentity(t);
    forall n | n in AliasMapKeys(t, r) ensures Owners(t, 1, n) == {1} {
      OwnersAreAliasOwner(t, 1, n);
    }
    hide Inv, IdentityInv, AliasMap, Owners, NormalizePersonName, NewNorm;
    assert ActiveNamed(t, 1, NewNorm(t.people[1], r)) <= {1};
    assert forall n :: n in AliasMapKeys(t, r) ==> Owners(t, 1, n) - {1} == {};
  }

  function AliasMapKeys(t: Tables, r: Request): set<string>
    requires 1 in t.people
  {
    AliasMap(t, 1, 1, r).Keys
  }

  const RENAME := NO_CHANGE.(displayName := Set(Some("B")))

  // After the merge the surviving person cannot take the merged name, although it owns it as an alias.
  lemma RenameToTombstoneFails()
    ensures var t := Run(EMPTY, MERGED); UpdateProfile(t, 1, 1, RENAME, 3) == (t, UpdateOutcome.Rejected(UpdateError.DatabaseError))
  {
    MergedPair();
    KeysOfAAndB();
    var t := Run(EMPTY, MERGED);
    hide Run, Inv, NormalizePersonName, TrimSpace, Storable, Blank;
    assert Validate(RENAME) == Some(RENAME);
    OwnedNormsAre(t, 1, {1});
    assert AliasMapKeys(t, RENAME) <= {"a", "b"};
    hide UpdateProfile, Validate, AliasMap;
    AcceptedUpdate(t, RENAME);
    InvHasIdentity(t);
    UpdateCommitsExactly(t, 1, 1, RENAME, 3);
    assert TombstoneNamed(t.people, 1, NewName(t.people[1], RENAME));
  }

  // ---- A name that leads nowhere and cannot be taken ----

  // The key "b" belongs to nobody, but the tombstone is still called "B".
  ghost predicate NameLeft(t: Tables) {
    Inv(t) && (1, "b") !in t.aliases && TombstoneNamed(t.people, 1, "B")
  }

  lemma DropCommits(t: Tables)
    requires OneLeft(t)
    ensures UpdateProfile(t, 1, 1, DROP_ALIASES, 3) == (WriteProfile(t, 1, 1, DROP_ALIASES, 3), Updated)
    ensures UpdateCheck(t, 1, 1, DROP_ALIASES).None? && AliasMapKeys(t, DROP_ALIASES) == {"a"}
  {
    KeysOfAAndB();
    hide Inv, NormalizePersonName, TrimSpace, Storable, Blank;
    InvHasIdentity(t);
    assert Validate(DROP_ALIASES) == Some(DROP_ALIASES);
    assert AliasMapKeys(t, DROP_ALIASES) == {"a"} by {
      NewNameIsKeyed(t, 1, 1, DROP_ALIASES);
    }
    hide UpdateProfile, Validate, AliasMap, IdentityInv, WriteProfile, UpdateCheck;
    AcceptedUpdate(t, DROP_ALIASES);
    UpdateCommitsExactly(t, 1, 1, DROP_ALIASES, 3);
    assert !TombstoneNamed(t.people, 1, NewName(t.people[1], DROP_ALIASES));
    UpdateIsStoreUpdate(t);
  }

  lemma UpdateIsStoreUpdate(t: Tables)
    requires Validate(DROP_ALIASES) == Some(DROP_ALIASES) && UpdateProfile(t, 1, 1, DROP_ALIASES, 3).1.Updated?
    ensures UpdateProfile(t, 1, 1, DROP_ALIASES, 3).0 == WriteProfile(t, 1, 1, DROP_ALIASES, 3)
  {
    hide Validate, UpdateCheck, WriteProfile, NameTaken;
  }

  lemma DropFreesTheKey(t: Tables)
    requires OneLeft(t)
    ensures NameLeft(UpdateProfile(t, 1, 1, DROP_ALIASES, 3).0)
  {
    DropCommits(t);
    UpdateKeepsInv(t, 1, 1, DROP_ALIASES, 3);
    InvHasIdentity(t);
    hide Inv, UpdateProfile, WriteProfile, UpdateCheck, IdentityInv;
    UpdateMovesAliases(t, 1, 1, DROP_ALIASES, 3);
    UpdateTouches(t, 1, 1, DROP_ALIASES, 3);
    assert WriteProfile(t, 1, 1, DROP_ALIASES, 3).people[2].name == "B";
  }

  lemma FreedRun()
    ensures NameLeft(Run(EMPTY, FREED))
  {
    MergedPair();
    RunsSplit(EMPTY, MERGED, UpdateStep(1, 1, DROP_ALIASES, 3));
    hide Run, UpdateProfile, NameLeft, OneLeft, MERGED;
    DropFreesTheKey(Run(EMPTY, MERGED));
  }

  // After the key was given up, the name can be neither upserted nor saved with a note: a note
  // about "B" fails to be enriched however often it is tried.
  lemma FreedNameFails(note: int, text: string, now: Instant)
    ensures var t := Run(EMPTY, FREED);
            && ResolvePerson(t, 1, "B") == NotFound
            && Upsert(t, 1, "B", now) == (t, None)
            && SaveStructured(DeleteForNote(t, 1, note), 1, note,
                              Parsed("", Some([]), [ParsedPeopleNote("B", "", "", text, true)], [], [], []), now).None?
  {
    FreedRun();
    KeysOfAAndB();
    var t := Run(EMPTY, FREED);
    var pn := ParsedPeopleNote("B", "", "", text, true);
    var p := Parsed("", Some([]), [pn], [], [], []);
    hide Run, Upsert, Inv, NormalizePersonName, TrimSpace, Blank, Storable, ResolveKey, SaveStructured;
    InvHasIdentity(t);
    TombstoneRefuses(t);
    UpsertFailsExactly(t, 1, "B", now);
    ResolveIsAliasLookup(t, 1, "b");
    DeleteKeepsInv(t, 1, note);
    var t0 := DeleteForNote(t, 1, note);
    TombstoneRefuses(t0);
    assert KeptPeopleNotes([pn][..0]) == [];
    assert KeptPeopleNotes([pn]) == [pn];
    assert NamesOf(p)[0] == "B";
    hide Refused, NamesOf;
    assert FailsAt(t0, 1, NamesOf(p), 0);
    SaveStructuredLeaves(t0, 1, note, p, now);
  }

  lemma TombstoneRefuses(t: Tables)
    requires NameLeft(t)
    ensures Refused(t, 1, "B")
  {
    KeysOfAAndB();
    hide Inv, NormalizePersonName, TrimSpace, Blank, Storable;
  }
}
