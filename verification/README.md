# Lead Log: verified model of the store protocols

Lead Log turns a manager's notes into structured records about people, actions, decisions and tickets. This project
models the parts of it in which several processes change one Postgres database, and the algorithms around them that do
real arithmetic or refinement work, and proves properties of every run.

- **Person identity** (`People`, `Profiles`, `Merging`, `Records`, `IdentityRuns`, `TombstoneNames`, over `Names` and
  `Text`): persons, their alias index, the tombstones that merges leave, and the records that point at persons.
  `People.Tables` holds the tables with their unique indexes; each transaction is a function on it that commits or leaves
  the tables as they were. Text is cut by bytes, and the database refuses text with a NUL character or with a part of one.
- **Note enrichment** (`Queue`, `QueueRuns`, `WholeRuns`): claims, stale reclaims, fenced saves, failures, retries with backoff and
  the attempt cap, as steps of a state machine in which each claim holder is a process with a program point. The token
  of a claim is the instant in `processing_started_at`. Successive claims are taken to see increasing instants.
  `WholeRuns` interleaves the queue with merges, edits of persons and done marks.
- **Telegram inbox** (`Inbox`): claims of updates, and the mutation that commits together with the `processed` mark,
  under duplicate deliveries, late handlers, lost writes, commits reported as errors, and crashes. Each key of an update
  is taken to determine the other key and the text.
- **The store** (`Stores`, `Services`): the same transactions as methods that change the tables in place, with the loops
  of the original and an explicit rollback, proved equal to the functions that the protocol modules reason about; and
  one undisturbed run of the programs that call them.
- **Calendars** (`Weeks`, `Schedule`): Monday-to-Sunday weeks, ISO week keys (ISO 8601:2004, section 4.1.4) with the
  Gregorian calendar, the next daily and weekly run, and the sends of a run. Zones have a fixed offset.
- **Lists** (`Ordering`, `Sorting`, `Paging`, `Retrieval`, `Agenda`): keyset pagination, the merge of limited sources,
  and the agenda of a person.
- **Text** (`Entities`, `Tickets`, `Chunks`) and **rate limiting** (`RateLimit`).

Check the whole project with `dafny verify dfyconfig.toml`.

Findings where a promise holds only under a condition, each with the exact condition or a witness:

- `/now` and the worker keep a processed note processed (`QueueRuns.ProcessedIsAbsorbing`), but
  `ScheduleNoteEnrichmentRetry` does not look at the status, so a commit whose success the worker does not learn, or a
  token that a manual enrichment shares, lets it mark a processed note failed (`QueueRuns.UnknownCommitIsReverted`,
  `QueueRuns.SharedTokenIsReverted`); `QueueRuns.WhenProcessedIsLeft` says exactly which steps do so.
- The backoff holds from the worker's second write on (`QueueRuns.RetryWaitsOutBackoff`); after the first one the note is
  eligible at once, so a second worker can claim it without waiting (`QueueRuns.MarkedNoteIsEligibleAtOnce`).
- Row names in `people` are unique per user, tombstones included (migrations/001_init.sql:17), and no code looks at
  tombstones' names before it writes. So a merge that asks for the source's different display name always fails
  (`Merging.MergeCommitsExactly`, `TombstoneNames.SourceNameMergeFails`); a person can never be renamed to the name of a
  person merged before, not even by its new owner (`Profiles.UpdateCommitsExactly`,
  `TombstoneNames.RenameToTombstoneFails`); and a name that has lost its alias but that a tombstone still holds can be
  neither upserted nor saved with a note (`People.UpsertFailsExactly`, `TombstoneNames.FreedNameFails`).
- A save of a parsed note fails exactly if one of its names is refused (blank, not storable, or such a tombstone's name)
  or one of its texts is not storable (`Records.SaveStructuredLeaves`); a text becomes so by a cut inside a character
  (`Records.DecisionCuts`, `Records.LongMixedDecisionFails`). A save with a nil slice of tags fails too
  (`Queue.SummaryStorable`).
- An update or a merge that has committed is answered with "not found" if the person has no people notes
  (`Profiles.UpdateAnswers`, `Merging.MergeAnswers`).
- `Retrieve` returns the best matches for limits up to 50 and for no larger limit (`Retrieval.GlobalTopUpToFifty`).
- A daily run recaps the day of the last run exactly if the scheduler is back before the next run is due
  (`Schedule.NextRunRecapsLast`).
- The profile lookup finds the root of a merge chain exactly if the chain has at most 10 hops and the root has people
  notes (`People.LookupFindsNotedRoot`); alias lookup never follows a hop in a reachable state.

## Model

| member | source | states |
|---|---|---|
| `Names.KeyIsEmptyOnlyForBlank` | internal/adapters/store/names.go:14-17 | a name has an empty key exactly if it is blank |
| `Names.KeyIsItsOwnKey` | internal/adapters/store/names.go:14-17 | normalizing a key again changes nothing, for every lower-casing of single characters |
| `Names.StoredKeyIsItsOwnKey` | internal/adapters/store/names.go:14-17 | the same of the key function that the other modules use |
| `Names.KeyHasNoCurlyApostrophe` | internal/adapters/store/names.go:14-17 | keys hold none of the six listed apostrophes but the straight one, and nothing that lower-casing changes |
| `Names.SameKeyExactly` | internal/adapters/store/names.go:5-17 | two names share a key exactly if their words agree up to listed apostrophes and the case of letters, however they are spaced |
| `Names.KeyIsStorable` | internal/adapters/store/names.go:14-17 | the database stores a key, and takes it in a query, exactly if the name has no NUL character |
| `People.BoundedLookupAgreesWithRoot` | internal/adapters/store/store.go:1651-1659 | in a forest the recursive part of the query yields the person min(distance to the root, 10) hops up, so the root if and only if the chain has at most 10 hops |
| `People.LookupFindsNotedRoot` | internal/adapters/store/store.go:1648-1664 | with the join of people notes, the lookup answers with the root if the chain has at most 10 hops and the root has notes, and with nothing otherwise |
| `People.ActiveNamesAreUnique` | internal/adapters/store/store.go:722-786 | two active persons of one user never share a normalized name |
| `People.ResolveIsAliasLookup` | internal/adapters/store/retrieval.go:34-99 | in a reachable state resolution is one look into the alias index, with no hop and no fallback to names |
| `People.ResolveMeans` | internal/adapters/store/retrieval.go:34-99 | from the name alone: a blank name leads nowhere, one with a NUL character is an error, and any other leads to the owner of its key or nowhere |
| `People.ResolveStaysWithUser` | internal/adapters/store/retrieval.go:39-50 | for all tables, reachable or not: a name leads to active persons of the user alone |
| `People.ResolveFallsBackToNames` | internal/adapters/store/retrieval.go:73-99 | for all tables: without an alias row a key leads to the one active person with that normalized name, is ambiguous if there are several and leads nowhere if none |
| `People.ResolveIsNeverAmbiguous` | internal/adapters/store/retrieval.go:34-99 | resolution is never ambiguous and finds only active persons of the user |
| `People.UpsertInReachableState` | internal/adapters/store/store.go:722-786 | upsert refuses the name, returns the alias owner unchanged, or makes one new person with its own alias |
| `People.UpsertAddsOneRow` | internal/adapters/store/store.go:762-786 | the new person is active with the trimmed name, its key and no profile, its alias is the name, and nothing else is written |
| `People.UpsertFailsExactly` | internal/adapters/store/store.go:722-768 | upsert fails exactly for a blank name, an unstorable one, and one that leads nowhere while some row, in a reachable state a tombstone, already holds it; then nothing changes |
| `People.UpsertKeepsInv` | internal/adapters/store/store.go:722-786 | upsert keeps the identity and record invariants, unique row names among them |
| `People.UpsertAgreesWithResolve` | internal/adapters/store/store.go:722-811 | a name that resolves is never refused; unless the name is refused, upsert returns what ResolvePerson finds afterwards, leaves a known name alone, and repeating it changes nothing |
| `Profiles.UpdateKeepsInv` | internal/adapters/store/store.go:1986-2129 | a profile update keeps the invariants |
| `Profiles.ValidateExactly` | internal/services/people.go:93-185 | validation refuses exactly the ill-formed requests: a missing or blank name, text too long or with control characters, more than 25 aliases or one that names nobody; it keeps the trimmed first alias of each key and no other |
| `Profiles.UpdateOutcomes` | internal/adapters/store/store.go:1986-2107 | from the raw request and the rows: which requests are refused as ill-formed, unknown, out of date or as naming another person, which fail on a tombstone's name, and that every other commits; nothing changes unless it does |
| `Profiles.UpdateCommitsExactly` | internal/adapters/store/store.go:2009-2107 | a valid request that passes the checks commits exactly if no tombstone of the user holds the new display name, and otherwise fails with nothing changed |
| `Profiles.UpdateMeans` | internal/adapters/store/store.go:2009-2121 | from the raw request to ResolvePerson: after an update the listed aliases, the new name and the present one lead to the person; a name that did before still does unless aliases were listed, and then leads nowhere; no other name moves |
| `Profiles.ListedAliasesLead` | internal/services/people.go:148-166 | every alias that a committed update lists leads to the person |
| `Profiles.UpdateWritesTexts` | internal/adapters/store/store.go:2009-2121 | the text stored under each key: the trimmed name, the trimmed first listed alias of the key, or the old text; rows of others stay |
| `Profiles.UpdateAnswers` | internal/adapters/store/store.go:2122-2128 | an update that committed is answered with the profile if the person has people notes and with "not found" otherwise |
| `Profiles.UpdateWritesRequest` | internal/services/people.go:93-169 | from the raw request to the row: each field is kept, cleared or stored trimmed as asked, the display name is never blank, and no other person changes |
| `Merging.MergeKeepsInv` | internal/adapters/store/store.go:2136-2354 | a merge keeps the acyclic forest, the alias ownership, the unique names and row names, and the record links |
| `Merging.MergeNeverMeetsAliasConflict` | internal/adapters/store/store.go:2287-2297 | in a reachable state a merge never reports an identity conflict |
| `Merging.MergeOutcomes` | internal/adapters/store/store.go:2136-2341 | from the request and the rows: two different active persons of the user merge exactly if neither expected timestamp is out of date, the choices can be answered and the source's display name is not asked for; each other outcome by its condition; nothing changes unless they merge |
| `Merging.MergeCommitsExactly` | internal/adapters/store/store.go:2235-2341 | a merge that passes its checks commits exactly if it does not ask for the source's display name, and the primary keeps its own; otherwise it fails with nothing changed |
| `Merging.MergeIsQuotient` | internal/adapters/store/store.go:2193-2345 | for every user and name, resolution after a committed merge is the old one with the source replaced by the primary |
| `Merging.MergeMovesAliases` | internal/adapters/store/store.go:2193-2299 | every alias row of the two leads to the primary, under a trimmed name or its old text; no other changes; the reported counts are the source's keys and the keys of both |
| `Merging.MergeUnitesFacts` | internal/adapters/store/store.go:2300-2311 | the primary's set of (note, type, theme, text) becomes the union of both, the source's becomes empty |
| `Merging.MergeMovesRecords` | internal/adapters/store/store.go:2300-2321 | exactly the source's people notes whose fact the primary has go away, every other record stays, and nothing of a record changes but a link to the source |
| `Merging.MergeConservesRecords` | internal/adapters/store/store.go:2300-2321 | reassigned and deduplicated notes add up to the source's notes; counts of actions and decisions are exact and none is lost |
| `Merging.MergePicksProfile` | internal/adapters/store/store.go:2235-2345 | the primary keeps its name and gets a fair choice of every profile field, nothing present gives way to something missing, appended notes hold both texts, the source keeps its own row, and no other person changes |
| `Merging.MergeAnswers` | internal/adapters/store/store.go:2346-2354 | a merge that committed is answered with the primary's profile if one of the two had people notes and with "not found" otherwise |
| `Records.LinkLeadsToOwner` | internal/adapters/store/store.go:923-936 | a link fails exactly for a present name that upsert refuses, and otherwise links to the person that the name leads to; a name met before is never refused |
| `Records.RefusedLater` | internal/adapters/store/store.go:902-969 | whether a name is refused in the middle of a save, told about the tables before it: exactly if it was refused there and no earlier name has its key |
| `Records.SaveStructuredLeaves` | internal/adapters/store/store.go:902-969 | saving fails exactly if one of the names is refused or one of the texts to be inserted is not storable, both told about the input and the tables before; otherwise it adds exactly the rows that the note yields |
| `Records.SaveFailsExactly` | internal/adapters/store/store.go:902-969 | a save fails exactly if a name is refused or one of the texts, as the columns take them, does not fit |
| `Records.DecisionCuts` | internal/models/entity_normalization.go:79-92 | of storable input, a decision is storable exactly if both cuts fall between two characters |
| `Records.LongMixedDecisionFails` | internal/models/entity_normalization.go:84-86 | a decision of one ASCII letter and 500 or more two-byte letters is never saved |
| `Records.SaveReplacesRows` | internal/adapters/store/store.go:902-969 | after the deletes, the note's rows are exactly those derived from the parsed note |
| `Records.SaveWritesColumns` | internal/adapters/store/store.go:902-969 | column by column: each kept people note, decision, action and mention has its row, with its own texts, flags and link, in the order of the note, and there is no other row |
| `Records.SaveSparesOthers` | internal/adapters/store/store.go:902-969 | no row of another note changes |
| `Records.DeleteClears` | internal/adapters/store/store.go:858-871 | the deletes leave no row of the note |
| `Records.SaveStructuredKeepsInv` | internal/adapters/store/store.go:902-969 | a save keeps the invariants and every existing person |
| `IdentityRuns.ReachableStatesAreSound` | internal/adapters/store/store.go:722-811 | over every run of upserts, updates, merges and saves from an empty store, failed ones among them, the identity invariant holds, no name is ambiguous and alias lookup has depth 0 |
| `IdentityRuns.CompletedMergeIsFinal` | internal/adapters/store/store.go:2176-2185 | whatever happens after a merge, repeating it is a no-op that succeeds, and no name leads to the source again |
| `TombstoneNames.SourceNameMergeFails` | migrations/001_init.sql:10-18 | a run after which a merge that asks for the source's display name fails |
| `TombstoneNames.RenameToTombstoneFails` | internal/adapters/store/store.go:2104-2107 | a run after which the owner of a merged name cannot take it as its display name |
| `TombstoneNames.FreedNameFails` | internal/adapters/store/store.go:762-768 | a run after which a name leads nowhere, cannot be upserted, and fails every save of a note about it |
| `Queue.EnrichmentIsAtomicReplace` | internal/adapters/store/store.go:530-602 | under any interleaving of claims, reclaims, late saves, failures and crashes a note's records, summary and tags are exactly those of its last committed save, column by column |
| `WholeRuns.RecordsFollowLastSave` | internal/adapters/store/store.go:852-969 | with merges, edits of persons, done marks and status edits interleaved as well, a note's records are those of its last committed save, column by column: every link led to the end of its merge chain, actions unchanged but for their status, and no fact about a person lost |
| `WholeRuns.MergeMovesRows` | internal/adapters/store/store.go:2300-2321 | a merge moves the rows of every note with the merge pointers and drops a people note only if its fact is the primary's already |
| `WholeRuns.RootIsUnique` | internal/adapters/store/store.go:2342-2345 | the person that a row's link leads to is unique, active and of the same user |
| `Queue.TokensCommitOnce` | internal/adapters/store/store.go:852-888 | each token commits at most one save, and a note's saves commit in the order of its claims |
| `Queue.OvertakenHolderIsPowerless` | internal/adapters/store/store.go:580-602 | once a newer claim exists, every write guarded by an older token is a no-op for ever after |
| `Queue.CommittedRows` | internal/adapters/store/store.go:852-888 | a committed save gives its note the derived rows and no other note any change |
| `Queue.SaveCommitsExactly` | internal/adapters/store/store.go:852-888 | a save commits exactly if its token's claim is active, summary, tags, names and texts can be stored and tags are not nil; it sets summary, tags and status and ends the waiting |
| `Queue.OtherTokensWriteNothing` | internal/adapters/store/store.go:580-602 | a write under another token or for another user changes nothing |
| `Queue.ManualClaimCases` | internal/adapters/store/store.go:813-850 | a manual claim takes a pending or failed note, a processed one if allowed, and one whose claim is stale in whole seconds; it counts the attempt and keeps the next instant |
| `Queue.StepEvolves` | internal/adapters/store/store.go:813-900 | a step either claims a note at the new instant or leaves its token and attempts and does not make it active |
| `Queue.RunKeepsInv` | internal/services/service.go:226-264 | the queue invariant holds over every run |
| `QueueRuns.BatchIsTheFirst` | internal/adapters/store/store.go:538-563 | a poll claims the first min(limit, eligible) distinct eligible notes, each before every eligible note left |
| `QueueRuns.PollFollowsSettings` | internal/workers/note_enrichment.go:39-57 | in every run a poll claims as many as the set batch of the notes it may claim, the longest due first; by default 10, below 3 attempts, stale after three minutes |
| `QueueRuns.ProcessedIsAbsorbing` | internal/workers/note_enrichment.go:113-129 | with claims from the worker and /now only and known commit results, a processed note and its records never change again |
| `QueueRuns.WhenProcessedIsLeft` | internal/adapters/store/store.go:588-600 | a processed note loses its status exactly by an explicit reprocessing or by a rescheduling under its current token |
| `QueueRuns.UnknownCommitIsReverted` | internal/workers/note_enrichment.go:116-127 | a run in which an unreported commit is overwritten with failed |
| `QueueRuns.SharedTokenIsReverted` | internal/adapters/store/store.go:845-849 | a run in which a manual read shares the worker's token and the worker overwrites its result |
| `QueueRuns.StepSpends` | internal/adapters/store/store.go:551-557 | a new note raises the sum of remaining attempts by at most the cap, no other step raises it, and a poll lowers it by each note it claims |
| `QueueRuns.WorkIsBounded` | internal/workers/note_enrichment.go:77-129 | the worker's claims, and so its LLM calls, never exceed the sum of remaining attempts at the start and the cap for each note that comes in |
| `QueueRuns.EligibleNoteIsSoonClaimed` | internal/adapters/store/store.go:538-551 | however many notes come in behind it, polls that pass over a note that stays eligible number at most that sum at the start divided by the batch size |
| `QueueRuns.LaterNotesStayBehind` | internal/adapters/store/store.go:549-551 | a note that is due stands before every note captured at or after its due instant, and before their retries |
| `QueueRuns.EligibleFromReadyAt` | internal/adapters/store/store.go:542-547 | an unprocessed note below the cap is eligible exactly from a computable instant on |
| `QueueRuns.RetryWaitsOutBackoff` | internal/workers/note_enrichment.go:121-140 | after the worker's last write a note is eligible exactly once 1, 5 or, from the third attempt on, 30 minutes are over, and never again at the cap |
| `QueueRuns.OnlyWorkersRetry` | internal/workers/note_enrichment.go:113-129 | over every run only a claim of the worker is written about a second time after a failed attempt |
| `QueueRuns.MarkedNoteIsEligibleAtOnce` | internal/services/service.go:240-242 | between the two writes of a failed attempt the note is eligible at once |
| `Inbox.ExactlyOnce` | internal/adapters/store/store.go:1278-1339 | over every interleaving an update that asks for a note or a done action has committed one mutation, the one its text asks for, if it is processed and none otherwise; attempts never exceed 3 |
| `Inbox.EffectFollowsText` | internal/adapters/bot/client.go:98-229 | over every interleaving, from the text alone: a processed plain text or /note has added one note of that text, /now one that is claimed, /done with a 64-bit number has closed that action and nothing else, and any other text has done nothing |
| `Inbox.CommandIsTheOneAskedFor` | internal/adapters/bot/client.go:164-245 | the command of a text is the one it asks for: the first word in any case of its ASCII letters and up to an "@", and the trimmed rest |
| `Inbox.RecordedExactly` | internal/adapters/bot/client.go:98-137 | an update reaches the table exactly if its text is neither blank nor an account link |
| `Inbox.OneRowPerUpdate` | internal/adapters/store/store.go:1199-1215 | no two rows share an update id, or a chat and message |
| `Inbox.ProcessedIsAbsorbing` | internal/adapters/store/store.go:1221-1240 | a processed update never changes again, also when the LLM call of /now fails |
| `Inbox.EveryNoteHasOneOrigin` | internal/adapters/store/store.go:508-514 | every note came in through the web API and no update added it, or is the one mutation of exactly one update |
| `Inbox.LateHandlerIsPowerless` | internal/adapters/store/store.go:1255-1276 | a handler whose claim was overtaken can write nothing |
| `Inbox.ClaimFences` | internal/adapters/store/store.go:1199-1276 | after a successful claim exactly its own token can mark the update, no second claim succeeds before this one is stale, and no other update changes |
| `Inbox.ClaimIsOneRow` | internal/adapters/store/store.go:1199-1253 | a claim succeeds exactly if the update is new, failed or stale with attempts left, and changes its row alone |
| `Inbox.MarkIsOneRow` | internal/adapters/store/store.go:1255-1276 | a mark takes effect exactly if the row is processing under the token, and changes it alone |
| `Inbox.DeliverCases` | internal/adapters/bot/client.go:145-163 | a delivery starts a handler exactly if it claims the update |
| `Stores.Store.UpsertPerson` | internal/adapters/store/store.go:722-786 | in place, the upsert that `People` reasons about, refused names included, keeping the invariant |
| `Stores.Store.UpdatePersonProfile` | internal/adapters/store/store.go:1986-2129 | in place, with the alias map built by loops, the update that `Profiles` reasons about, taken names included |
| `Stores.Store.MergePeople` | internal/adapters/store/store.go:2136-2354 | in place, statement by statement and with a rollback when the rename collides, the merge that `Merging` reasons about, with its counts, keeping the invariant |
| `Stores.Store.SaveStructuredRecordsForNote` | internal/adapters/store/store.go:902-969 | the loops with the personIDs map do what `Records` reasons about, with the same failures |
| `Stores.Store.SaveNoteEnrichmentResult` | internal/adapters/store/store.go:852-888 | deleting and inserting before the guard, with rollback, equals checking the guard first |
| `Stores.Store.ClaimNextNotesForEnrichment` | internal/adapters/store/store.go:530-578 | claims exactly the batch and returns one claim per note |
| `Queue.RetrySupersedesMark` | internal/adapters/store/store.go:580-602 | the two writes of a failed attempt end in the same note as the second alone; it ends its claim and no other, sets from when on the note is eligible, and undoes a save that committed under the token |
| `Queue.MarkEndsClaim` | internal/adapters/store/store.go:890-900 | the mark ends exactly the active claim it is given, keeps the note's results, token and attempts and every other note and claim, lets no later save under the token commit, and is a no-op after a committed save and when repeated |
| `Stores.Store.SaveNoteAndMarkTelegramUpdateProcessed` | internal/adapters/store/store.go:1278-1296 | the note is there if and only if the mark took effect, by rollback |
| `Stores.Store.MarkActionDoneAndMarkTelegramUpdateProcessed` | internal/adapters/store/store.go:1318-1339 | the action is closed if and only if it was open and the mark took effect |
| `Stores.FirstRows` | internal/adapters/store/store.go:549-551 | repeated choice of the least row gives the ordered, limited listing |
| `Services.EnrichClaimedNote` | internal/services/service.go:226-264 | saves the prepared note or marks the claim failed, and changes nothing else |
| `Services.Process` | internal/workers/note_enrichment.go:113-129 | leaves the claimed note processed, or failed with its backoff |
| `Services.Poll` | internal/workers/note_enrichment.go:77-111 | settles every note of the batch and changes no other |
| `Services.UpdatePersonProfile` | internal/services/people.go:85-169 | validation and transaction together are the update of `Profiles`, keeping the invariant |
| `Services.AddNoteForTelegramUpdate` | internal/services/service.go:112-123 | the update is processed and one note exists whatever becomes of its enrichment |
| `Services.HandleUpdate` | internal/adapters/bot/client.go:98-229 | an undisturbed handling claims exactly what may be claimed and ends processed or failed, with exactly the mutation its text asks for |
| `Services.ProcessAgreesWithMethod` | internal/adapters/bot/client.go:164-229 | three moves of the handler process of `Inbox` settle an update as the method does, with the same new note or closed action |
| `Entities.NormalizeEntityMentionsForNote` | internal/models/entity_normalization.go:115-135 | the loop with its set of seen keys computes the batch that the lemmas are about |
| `Entities.BatchIsWellFormed` | internal/models/entity_normalization.go:115-135 | at most 40 normalized records with pairwise distinct keys |
| `Entities.BatchLosesNothingBelowCap` | internal/models/entity_normalization.go:115-135 | below the cap every mention that has a key is represented |
| `Entities.MentionSaysItsRecord` | internal/models/entity_normalization.go:41-77 | a mention yields exactly the record it says: type in lower case, its first value that is not blank with spaces normalized and cut to 200 bytes, and its key, display and context from there; otherwise none |
| `Entities.BatchKeepsFirst` | internal/models/entity_normalization.go:115-135 | each record of the batch is the one that the first mention with its key says |
| `Entities.SkippedExactly` | internal/models/entity_normalization.go:115-135 | exactly the mentions that yield no record or come after the 40th record are counted as skipped |
| `Entities.RecordKeepsKey` | internal/models/entity_normalization.go:41-77 | a stored key survives the 200-byte cut, also one inside a character, and a second normalization |
| `Entities.DoubleNormalizationKeepsKeys` | internal/services/service.go:246-255 | normalizing in the store what the service normalized skips nothing and gives the same keys |
| `Entities.SecondPassKeepsRecords` | internal/services/service.go:246-255 | what the service normalized passes the store record by record, every column unchanged but for a space at the end of a cut |
| `Tickets.MatchIsOccurrence` | internal/models/entity_normalization.go:18 | the greedy pattern matches at a place exactly up to the end of the ticket key that stands there: an ASCII letter, letters or digits, a hyphen and digits, with no word character on either side |
| `Tickets.ScanFindsAll` | internal/models/entity_normalization.go:94-113 | the scan finds every ticket key that stands alone in the text |
| `Tickets.Prepare` | internal/services/service.go:243-255 | the loops that rebuild the parsed note compute its prepared form |
| `Tickets.PreparedDecisionsStorable` | internal/services/service.go:243-255 | the decisions that the store inserts are storable exactly if the service's own cuts left storable text |
| `Tickets.PreparedKeepsParsed` | internal/services/service.go:243-255 | preparing keeps the parsed note's own mentions first and its first 20 decisions with text, and changes nothing else |
| `Tickets.TextTicketsAreKept` | internal/services/service.go:243-255 | every ticket key in the text, up to 200 characters, is among the stored mentions below the cap |
| `Tickets.PreparedAddsTextTickets` | internal/services/service.go:243-255 | preparing adds no key but those of tickets that stand in the text |
| `Weeks.YearHoldsDay` | internal/domain/periods/week.go:29 | the year by 400-, 100-, 4- and 1-year cycles is the one year whose days include the day |
| `Weeks.IsoYearHoldsMostDays` | internal/domain/periods/week.go:29-30 | the year of a week is the one that holds at least four of its days, and its weeks run from its first up to the next year's first |
| `Weeks.ScopeKeyReads` | internal/domain/periods/week.go:29-30 | the key reads as that year, "-W" and the week in two digits |
| `Weeks.WeekDateRoundTrip` | internal/domain/periods/week.go:29-30 | the week date of a day leads back to its Monday, and week numbers run from 1 to 53 |
| `Weeks.ScopeKeyIsInjective` | internal/domain/periods/week.go:29-30 | two days share a key exactly if they lie in one week |
| `Weeks.WeeksPartitionTime` | internal/domain/periods/week.go:19-31 | the instants of a week are exactly those that resolve to it, and equal keys mean equal weeks |
| `Weeks.PreviousWeekIsAdjacent` | internal/domain/periods/week.go:34-40 | the previous week ends where the current one starts |
| `Schedule.NextRun` | internal/scheduler/daily.go:139-151 | the least run instant strictly after now |
| `Schedule.RunsReadOffTheClock` | internal/scheduler/daily.go:139-151 | run instants read off the local clock: the set time of day, on Monday to Friday if weekends are left out, and on Monday for a weekly run |
| `Schedule.SourceIsLastWorkday` | internal/scheduler/daily.go:153-166 | a run recaps the last workday before its day |
| `Schedule.SourceOfEveryRun` | internal/scheduler/daily.go:153-166 | at any instant and in both modes: the day itself, or the last workday before it, skipping weekends |
| `Schedule.NextRunRecapsLast` | internal/scheduler/daily.go:71-88 | the next run recaps the day of the last one if and only if it is the run that follows it |
| `Schedule.EveryWorkdayOnce` | internal/scheduler/daily.go:139-166 | successive runs recap every workday exactly once |
| `Schedule.NextWeeklyRun` | internal/scheduler/weekly.go:65-74 | the least Monday run instant strictly after now |
| `Schedule.NextWeeklyRunCoversWeek` | internal/scheduler/weekly.go:65-78 | the run after r summarizes the week of r, so every week is covered once |
| `Schedule.DailySummary.SendForAll` | internal/scheduler/daily.go:90-137 | the loop over users changes the ledger as `Triggered` says |
| `Schedule.SendsAreBounded` | internal/scheduler/daily.go:90-137 | sends per user and day never exceed one plus the failed send records |
| `Schedule.TriggerServesEachOnce` | internal/scheduler/daily.go:90-137 | a user reached once gets exactly one message for the source day if there are notes, no record and a working send, recorded if the record goes through, and otherwise none; no other user and no other day changes |
| `Ordering.TopRowsAreFirst` | internal/adapters/store/store.go:320-322 | ORDER BY with LIMIT keeps as many rows as it may, each before every row left out |
| `Paging.QueryIsWindow` | internal/adapters/store/store.go:311-336 | one page: at most limit rows behind the cursor in order, with a next cursor exactly if rows are left, all of them behind it |
| `Paging.CursorWalkIsFullListing` | internal/adapters/httpapi/httpapi.go:451-460 | following next_cursor ends, and lists every row present at the start exactly once in order, for any limit, whatever newer rows come in |
| `Paging.EvolvingWalk` | internal/adapters/httpapi/httpapi.go:451-460 | whatever is added, removed or reordered between pages, the walk is in strict order, and once it has ended it has listed every row that was there all the time |
| `Paging.NotesWalk` | internal/adapters/store/store.go:311-336 | the walk over notes by (created_at, id) ends and is the full listing, also while notes are captured |
| `Paging.PeopleWalk` | internal/adapters/store/store.go:1584-1602 | the walk over people by (last_mentioned_at, id), also while people are mentioned again |
| `Paging.TicketsWalk` | internal/adapters/store/store.go:1727-1749 | the walk over tickets by (last_mentioned_at, key) under any collation, over a changing and over an unchanged table |
| `Paging.OrdersAreTotal` | internal/adapters/store/store.go:1584-1602 | the declared orders are strict and total, for tickets under any strict total order of their keys |
| `Retrieval.Compact` | internal/services/retrieval.go:115-124 | the compaction in place keeps the first item of each key |
| `Retrieval.Merge` | internal/services/retrieval.go:24-136 | a limit from 1 to 100 is kept, a missing one is 20 and a larger one 100; then appending, compacting, stable sorting and cutting compute `Merged` |
| `Retrieval.MergedKeysAreDistinct` | internal/services/retrieval.go:115-136 | whatever the sources return and for every limit, no key is returned twice, everything returned is the first item of its key, and none is missing below the limit |
| `Retrieval.MergedIsGlobalTop` | internal/services/retrieval.go:115-136 | for limits up to 50 the result is a best choice among all matching items, with distinct keys |
| `Retrieval.GlobalTopUpToFifty` | internal/adapters/store/retrieval.go:210-215 | that holds for every content of the sources if and only if the limit is at most 50 |
| `Sorting.StableSortSorts` | internal/services/retrieval.go:125-130 | the sort is sorted, loses nothing and keeps the order of ties |
| `RateLimit.RateLimiter.Allow` | internal/adapters/httpapi/httpapi.go:246-262 | one call updates the key's bucket alone and allows it up to the limit |
| `RateLimit.BucketCountsWindow` | internal/adapters/httpapi/httpapi.go:254-261 | after any history of calls, each key with the window of its scope, a key's bucket counts the calls of that key's current window |
| `RateLimit.FirstCallsOfWindowAreAllowed` | internal/adapters/httpapi/httpapi.go:254-261 | exactly the first limit calls of each of the key's windows are allowed |
| `RateLimit.AtMostTwiceTheLimit` | internal/adapters/httpapi/httpapi.go:246-262 | any closed interval as long as the key's window holds at most 2*limit allowed calls for the key |
| `Chunks.Chunks` | internal/adapters/bot/client.go:271-287 | the nested loops compute `ChunksOf` and end |
| `Chunks.CutShape` | internal/adapters/bot/client.go:274-281 | every cut lies between byte 500 and max and splits valid UTF-8 into valid UTF-8 |
| `Chunks.CutIsAtLastNewline` | internal/adapters/bot/client.go:274-281 | the cut is the last newline between byte 500 and the longest valid prefix that fits, and the end of that prefix if there is none |
| `Chunks.ChunksAreTrimmed` | internal/adapters/bot/client.go:271-287 | no chunk but the first starts with whitespace, and the last of several ends with none |
| `Chunks.EncodingIsValid` | internal/adapters/bot/client.go:275 | what counts as valid includes the encoding of every sequence of scalar values |
| `Chunks.ValidIsEncoding` | internal/adapters/bot/client.go:275 | and nothing else |
| `Chunks.SpaceIsSpace` | internal/adapters/bot/client.go:283 | the byte patterns that trimming takes for spaces are the encodings of the white space characters |
| `Chunks.CutIsByteSlice` | internal/models/entity_normalization.go:51-53 | the cut of text by bytes is the slice of its UTF-8 bytes if that is valid, and text that the database refuses if it is not |
| `Chunks.ChunksAreBounded` | internal/adapters/bot/client.go:271-287 | at most n/500 + 1 chunks, each valid and of at most max bytes |
| `Chunks.ChunksReassemble` | internal/adapters/bot/client.go:271-287 | the chunks in order give back the input except whitespace after them |
| `Agenda.BuildAgendaFromPersonContext` | internal/services/agenda.go:54-174 | the loops compute the sections, the hidden count and the sources that the lemmas are about |
| `Agenda.NoFactTwice` | internal/services/agenda.go:56-69 | no fact occurs twice across the six sections, whatever the case of its letters and its spaces |
| `Agenda.EveryFactIsKept` | internal/services/agenda.go:57-69 | no offered fact with text, note and date is lost before the cut |
| `Agenda.NoFreshFactIsMissing` | internal/services/agenda.go:57-134 | kind by kind, every fact of the person's context that is complete, young enough and still counts is told before the cut, a commitment unless it is completed |
| `Agenda.ShownItemsStem` | internal/services/agenda.go:57-134 | every shown item stands in the section of its kind and is made of such a fact, with its trimmed text, note, date, action, due date and priority |
| `Agenda.SectionIsStableTop` | internal/services/agenda.go:135-155 | each section is the first 10, 8 or 5 of the stable (priority, newest) ordering of its items |
| `Agenda.HiddenHighItems` | internal/services/agenda.go:143-147 | a high item is hidden only if every shown item is high |
| `Agenda.CompletedFactsAreNoCommitments` | internal/services/agenda.go:83-92 | no completed fact appears as a commitment |
| `Agenda.ShownIsFreshAndRanked` | internal/services/agenda.go:70-134 | shown items are at most as old as their kind allows, and high exactly if they are concerns or overdue open actions |
| `Agenda.CollectSources` | internal/services/agenda.go:156-173 | the sources are the newest distinct notes of the shown items with their latest dates |

## Left out

- Queue.EnrichmentIsAtomicReplace: runs of the queue alone, without /done, status edits, merges and profile updates; `WholeRuns.RecordsFollowLastSave` is the form with all of them.
- Records.SaveStructuredLeaves: the database's limit on the size of an indexed value (a person name of several thousand bytes) is not modelled.
- People.UpsertFailsExactly: the same limit is not modelled.
- Queue.SummaryStorable leaves out the same kind of limit on the text indexes over raw text and summaries.
- Chunks.Chunks: needs valid UTF-8 and max of at least 503; on invalid text the loop need not end.
- Inbox.ExactlyOnce: handler state in memory and the replies sent to Telegram are not modelled; `StaleReclaimed` is computed after the update and nothing is said about it.
- Lower-casing in `Text.ToLower` knows ASCII, Latin-1 and basic Cyrillic letters; other letters keep their case.
- Text that comes in is valid UTF-8, as JSON decoding leaves it; only cuts make it invalid. A genuine noncharacter U+10FFFF, which stands for the byte that a cut leaves, is taken not to occur in it.
- Deleting users: the empty user that goes away when accounts are linked (internal/adapters/store/store.go:1541), with all rows that cascade from one.
- Rows from before the migrations that introduced aliases and normalized names: runs start from an empty store.
- Summary pagination, whose cursor rebuilds a period end as UTC midnight.
- Mutual exclusion of summary generation: its lock entry is deleted while others may wait on it.
- Isolation below transaction atomicity: row locks, SKIP LOCKED, advisory locks, serialization failures and deadlocks.
- LLM calls, prompts and JSON decoding: an arbitrary parsed note or a failure. Error texts of failed notes and updates: a write of one that the database refuses is a lost write.
- Password hashing, session tokens and keyed hashes: the rate limiter's key hash is taken to be injective.
- Time-zone databases and daylight saving, full-text and trigram scores, and the text filters of the listings.
- HTTP routing, DTO mapping, message formatting, localisation, configuration, logging and migrations.
- Ask planning, ticket and person views, and snippets: mostly filters and formatting.
