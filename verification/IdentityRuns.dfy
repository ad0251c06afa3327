// Every run of the transactions that touch persons, from an empty store.
module IdentityRuns {
  import opened Options
  import opened Names
  import opened People
  import opened Records
  import opened Profiles
  import opened Merging

  datatype Step =
    | UpsertStep(user: int, name: string, now: Instant)
    | UpdateStep(user: int, id: int, request: Request, now: Instant)
    | MergeStep(pair: Pair, input: MergeInput, now: Instant)
    | SaveStep(user: int, note: int, parsed: Parsed, now: Instant)

  // One committed or rolled back transaction.
  function Next(t: Tables, step: Step): Tables {
    match step
    case UpsertStep(user, name, now) => Upsert(t, user, name, now).0
    case UpdateStep(user, id, request, now) => UpdateProfile(t, user, id, request, now).0
    case MergeStep(pair, input, now) => MergePeople(t, pair, input, now).0
    case SaveStep(user, note, parsed, now) =>
      match SaveStructured(DeleteForNote(t, user, note), user, note, parsed, now)
      case None => t
      case Some(t1) => t1
  }

  function Run(t: Tables, steps: seq<Step>): Tables {
    if steps == [] then t else Next(Run(t, steps[..|steps| - 1]), steps[|steps| - 1])
  }

  lemma StepKeepsInv(t: Tables, step: Step)
    requires Inv(t)
    ensures Inv(Next(t, step))
  {
    hide Inv, Upsert, UpdateProfile, MergePeople, SaveStructured, DeleteForNote;
    match step
    case UpsertStep(user, name, now) => UpsertKeepsInv(t, user, name, now);
    case UpdateStep(user, id, request, now) => UpdateKeepsInv(t, user, id, request, now);
    case MergeStep(pair, input, now) => MergeKeepsInv(t, pair, input, now);
    case SaveStep(user, note, parsed, now) =>
      DeleteKeepsInv(t, user, note);
      if SaveStructured(DeleteForNote(t, user, note), user, note, parsed, now).Some? {
        SaveStructuredKeepsInv(DeleteForNote(t, user, note), user, note, parsed, now);
      }
  }

  lemma {:induction false} RunKeepsInv(t: Tables, steps: seq<Step>)
    requires Inv(t)
    ensures Inv(Run(t, steps))
  {
    if steps != [] {
      hide Inv, Next;
      RunKeepsInv(t, steps[..|steps| - 1]);
      StepKeepsInv(Run(t, steps[..|steps| - 1]), steps[|steps| - 1]);
    }
  }

  lemma EmptyStoreIsValid()
    ensures Inv(EMPTY)
  {
  }

  // The identity invariant over every run from an empty store: an acyclic forest of tombstones
  // within each user, aliases of active persons only, unique active names that are their own
  // aliases, and no record at a tombstone; so no name is ever ambiguous and alias lookup never
  // follows a merge pointer.
  lemma ReachableStatesAreSound(steps: seq<Step>, user: int, name: string)
    ensures var t := Run(EMPTY, steps);
            && Inv(t)
            && ResolvePerson(t, user, name) != Ambiguous
            && (AliasChain(t, user, NormalizePersonName(name)).Some? ==>
                  AliasChain(t, user, NormalizePersonName(name)).value.depth == 0)
  {
    EmptyStoreIsValid();
    RunKeepsInv(EMPTY, steps);
    var t := Run(EMPTY, steps);
    ResolveIsNeverAmbiguous(t, user, name);
    ResolveIsAliasLookup(t, user, NormalizePersonName(name));
    hide NormalizePersonName, IdentityInv, RecordsInv, Run;
  }

  // ---- Tombstones are forever ----

  ghost predicate MergedInto(t: Tables, q: Pair) {
    && q.primary != q.source
    && q.primary in t.people && t.people[q.primary].user == q.user
    && q.source in t.people && t.people[q.source].user == q.user
    && t.people[q.source].merged == Some(q.primary)
  }

  lemma GrowthKeepsTombstones(t: Tables, t1: Tables, q: Pair)
    requires MergedInto(t, q) && Grows(t.people, t1.people)
    ensures MergedInto(t1, q)
  {
  }

  lemma UpdateKeepsTombstones(t: Tables, q: Pair, user: int, id: int, request: Request, now: Instant)
    requires MergedInto(t, q)
    ensures MergedInto(UpdateProfile(t, user, id, request, now).0, q)
  {
    hide Validate;
    if Validate(request).Some? {
      var r := Validate(request).value;
      hide AliasMap, NewName, NewNorm, ReplaceAliases, ApplyProfile, AliasConflict;
      if UpdateCheck(t, user, id, r).None? {
        UpdateTouches(t, user, id, r, now);
      }
    }
  }

  lemma MergeKeepsTombstones(t: Tables, q: Pair, other: Pair, input: MergeInput, now: Instant)
    requires MergedInto(t, q)
    ensures MergedInto(MergePeople(t, other, input, now).0, q)
  {
    hide MergeCheck, MergedAliases, PickName, PickProfile, NormalizePersonName, MoveAliases, MergeCountsOf;
    hide MovePeopleNotes, MoveActions, MoveDecisions;
    if MergeCheck(t, other, input).None? {
      CheckedIsMergeable(t, other, input);
    }
  }

  lemma StepKeepsTombstones(t: Tables, step: Step, q: Pair)
    requires Inv(t) && MergedInto(t, q)
    ensures MergedInto(Next(t, step), q)
  {
    hide Inv, Upsert, UpdateProfile, MergePeople, SaveStructured, MergedInto, Grows;
    match step
    case UpsertStep(user, name, now) =>
      InvHasIdentity(t);
      UpsertGrows(t, user, name, now);
      GrowthKeepsTombstones(t, Next(t, step), q);
    case UpdateStep(user, id, request, now) => UpdateKeepsTombstones(t, q, user, id, request, now);
    case MergeStep(pair, input, now) => MergeKeepsTombstones(t, q, pair, input, now);
    case SaveStep(user, note, parsed, now) =>
      DeleteKeepsInv(t, user, note);
      var t0 := DeleteForNote(t, user, note);
      if SaveStructured(t0, user, note, parsed, now).Some? {
        SaveStructuredKeepsInv(t0, user, note, parsed, now);
        GrowthKeepsTombstones(t, Next(t, step), q);
      }
  }

  lemma {:induction false} RunKeepsTombstones(t: Tables, steps: seq<Step>, q: Pair)
    requires Inv(t) && MergedInto(t, q)
    ensures Inv(Run(t, steps)) && MergedInto(Run(t, steps), q)
  {
    if steps != [] {
      hide Inv, Next, MergedInto;
      var n := |steps| - 1;
      RunKeepsTombstones(t, steps[..n], q);
      StepKeepsInv(Run(t, steps[..n]), steps[n]);
      StepKeepsTombstones(Run(t, steps[..n]), steps[n], q);
    }
  }

  lemma MergeMakesTombstone(t: Tables, q: Pair, input: MergeInput, now: Instant)
    requires MergePeople(t, q, input, now).1.Merged?
    ensures MergedInto(MergePeople(t, q, input, now).0, q)
  {
    hide MergeCheck, MergedAliases, PickName, PickProfile, NormalizePersonName, MoveAliases, MergeCountsOf;
    hide MovePeopleNotes, MoveActions, MoveDecisions;
    CheckedIsMergeable(t, q, input);
  }

  // Whatever happens after a merge, repeating it is a no-op that reports success, even when the
  // primary itself has been merged away since; and no name ever leads to the source again.
  lemma CompletedMergeIsFinal(t: Tables, q: Pair, input: MergeInput, now: Instant,
                              steps: seq<Step>, again: MergeInput, later: Instant, name: string)
    requires Inv(t) && MergePeople(t, q, input, now).1.Merged?
    ensures var t2 := Run(MergePeople(t, q, input, now).0, steps);
            && MergePeople(t2, q, again, later) == (t2, AlreadyMerged)
            && ResolvePerson(t2, q.user, name) != Found(q.source)
  {
    hide Inv, MergePeople, Run, NormalizePersonName;
    MergeMakesTombstone(t, q, input, now);
    MergeKeepsInv(t, q, input, now);
    var t1 := MergePeople(t, q, input, now).0;
    RunKeepsTombstones(t1, steps, q);
    RepeatedMergeIsIdempotent(Run(t1, steps), q, again, later);
    InvHasIdentity(Run(t1, steps));
    ResolveIsNeverAmbiguous(Run(t1, steps), q.user, name);
  }
}
