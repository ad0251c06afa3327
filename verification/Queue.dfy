// The note-enrichment queue: the notes table, the transactions that claim, save, fail and
// reschedule a note (internal/adapters/store/store.go), and the processes that call them
// (internal/services/service.go, internal/workers/note_enrichment.go). A claim's token is the
// instant it wrote into processing_started_at.
module Queue {
  import opened Options
  import opened Text
  import opened Names
  import opened Ordering
  import opened People
  import opened Records

  datatype Status = Pending | Processing | Failed | Processed

  datatype Note = Note(user: int, raw: string, summary: Option<string>, tags: seq<string>, status: Status,
                       createdAt: Instant, startedAt: Option<Instant>, failedAt: Option<Instant>, nextAt: Option<Instant>, attempts: nat)

  // Who claimed, and where the claim's program stands: before the save, before
  // MarkNoteEnrichmentFailed, or before the worker's final write.
  datatype Source = Worker | Now | Manual
  datatype Point = Working | Failing | Retrying
  datatype Holder = Holder(user: int, note: int, token: Instant, attempt: nat, source: Source, point: Point)

  // One committed save.
  datatype Commit = Commit(note: int, token: Instant, parsed: Parsed, index: map<AliasKey, Alias>)

  datatype Config = Config(batch: int, maxAttempts: int, stale: Instant)

  datatype State = State(cfg: Config, notes: map<int, Note>, nextNote: int, db: Tables,
                         holders: map<int, Holder>, nextHolder: int, clock: Instant, log: seq<Commit>)

  // Instants are microseconds.
  const SECOND := 1_000_000
  const MINUTE := 60_000_000

  // ---- Claiming ----

  function Coalesce(a: Option<Instant>, b: Instant): Instant {
    if a.Some? then a.value else b
  }

  // The stale timeout is cut to whole seconds.
  function StaleBefore(stale: Instant, now: Instant): Instant {
    now - (if stale >= 0 then stale / SECOND else -((-stale) / SECOND)) * SECOND
  }

  predicate Stale(n: Note, stale: Instant, now: Instant) {
    n.status == Processing && n.startedAt.Some? && n.startedAt.value < StaleBefore(stale, now)
  }

  predicate Eligible(n: Note, maxAttempts: int, stale: Instant, now: Instant) {
    && n.attempts < maxAttempts
    && (n.status == Pending
        || (n.status == Failed && Coalesce(n.nextAt, Coalesce(n.failedAt, n.createdAt)) <= now)
        || Stale(n, stale, now))
  }

  // ORDER BY COALESCE(next_processing_at, created_at), id.
  predicate Sooner(a: (Instant, int), b: (Instant, int)) {
    a.0 < b.0 || (a.0 == b.0 && a.1 < b.1)
  }

  lemma SoonerIsTotal()
    ensures StrictTotal(Sooner)
  {
  }

  function SortKey(n: Note, id: int): (key: (Instant, int))
    ensures key.1 == id
  {
    (Coalesce(n.nextAt, n.createdAt), id)
  }

  function Candidates(notes: map<int, Note>, maxAttempts: int, stale: Instant, now: Instant): set<(Instant, int)> {
    set id | id in notes && Eligible(notes[id], maxAttempts, stale, now) :: SortKey(notes[id], id)
  }

  // The notes that one poll claims.
  ghost function Batch(notes: map<int, Note>, limit: int, maxAttempts: int, stale: Instant,
                       now: Instant): (ids: seq<int>)
    ensures forall id :: id in ids ==> id in notes
  {
    if limit <= 0 || maxAttempts <= 0 then []
    else
      SoonerIsTotal();
      var rows := TopRows(Candidates(notes, maxAttempts, stale, now), Sooner, limit);
      TopRowsAreFirst(Candidates(notes, maxAttempts, stale, now), Sooner, limit);
      RowIds(rows)
  }

  function RowIds(rows: seq<(Instant, int)>): (ids: seq<int>)
    ensures |ids| == |rows| && forall i :: 0 <= i < |rows| ==> ids[i] == rows[i].1
    ensures forall id :: id in ids ==> exists row :: row in rows && row.1 == id
  {
    seq(|rows|, i requires 0 <= i < |rows| => rows[i].1)
  }

  // A captured note, and one that /now creates and claims at once.
  function RawNote(user: int, raw: string, now: Instant): Note {
    Note(user, raw, None, [], Pending, now, None, None, None, 0)
  }

  function OwnNote(user: int, raw: string, now: Instant): Note {
    Note(user, raw, None, [], Processing, now, Some(now), None, None, 1)
  }

  function Claimed(n: Note, now: Instant): Note {
    n.(status := Processing, startedAt := Some(now), failedAt := None, nextAt := None, attempts := n.attempts + 1)
  }

  ghost function ClaimAll(notes: map<int, Note>, ids: seq<int>, now: Instant): map<int, Note> {
    map id | id in notes :: if id in ids then Claimed(notes[id], now) else notes[id]
  }

  // One worker process for each claimed note, numbered from first.
  function StartAll(notes: map<int, Note>, ids: seq<int>, first: int, now: Instant): (started: map<int, Holder>)
    requires forall id :: id in ids ==> id in notes
    ensures forall h :: h in started <==> first <= h < first + |ids|
    ensures forall h :: h in started ==> started[h] == StartOne(notes, ids[h - first], now)
  {
    if ids == [] then map[]
    else
      var n := |ids| - 1;
      StartAll(notes, ids[..n], first, now)[first + n := StartOne(notes, ids[n], now)]
  }

  function StartOne(notes: map<int, Note>, id: int, now: Instant): Holder
    requires id in notes
  {
    Holder(notes[id].user, id, now, notes[id].attempts + 1, Worker, Working)
  }

  // ---- Guarded writes ----

  predicate TokenCurrent(notes: map<int, Note>, user: int, note: int, token: Instant) {
    note in notes && notes[note].user == user && notes[note].startedAt == Some(token)
  }

  predicate ClaimActive(notes: map<int, Note>, user: int, note: int, token: Instant) {
    TokenCurrent(notes, user, note, token) && notes[note].status == Processing
  }

  // The columns of the notes row that a save writes; a nil slice of tags becomes a null, which the
  // column refuses.
  predicate SummaryStorable(p: Parsed) {
    Storable(p.summary) && p.tags.Some? && forall tag :: tag in p.tags.value ==> Storable(tag)
  }

  function Summarized(n: Note, p: Parsed): Note
    requires p.tags.Some?
  {
    n.(summary := Some(p.summary), tags := p.tags.value, status := Processed, failedAt := None, nextAt := None)
  }

  // SaveNoteEnrichmentResult as check-first: None is an error, after which nothing has changed.
  function SaveResult(notes: map<int, Note>, db: Tables, user: int, note: int, token: Instant, p: Parsed, now: Instant)
    : Option<(map<int, Note>, Tables)>
  {
    if !ClaimActive(notes, user, note, token) || !SummaryStorable(p) then None
    else
      match SaveStructured(DeleteForNote(db, user, note), user, note, p, now)
      case None => None
      case Some(db1) =>
        Some((notes[note := Summarized(notes[note], p)], db1))
  }

  function MarkFailed(notes: map<int, Note>, user: int, note: int, token: Instant, now: Instant): map<int, Note> {
    if ClaimActive(notes, user, note, token)
    then notes[note := notes[note].(status := Failed, failedAt := Some(now))] else notes
  }

  // ScheduleNoteEnrichmentRetry and, with no next instant, MarkNoteEnrichmentPermanentlyFailed:
  // neither looks at the status.
  function Reschedule(notes: map<int, Note>, user: int, note: int, token: Instant, now: Instant,
                      next: Option<Instant>): map<int, Note> {
    if TokenCurrent(notes, user, note, token)
    then notes[note := notes[note].(status := Failed, failedAt := Some(now), nextAt := next)] else notes
  }

  function Backoff(attempt: nat): Instant {
    if attempt == 1 then MINUTE else if attempt == 2 then 5 * MINUTE else 30 * MINUTE
  }

  // What the worker writes after an enrichment that returned an error.
  function GiveUp(cfg: Config, attempt: nat, now: Instant): Option<Instant> {
    if attempt >= cfg.maxAttempts then None else Some(now + Backoff(attempt))
  }

  // ---- Steps ----

  datatype Step =
    | Capture(user: int, raw: string, now: Instant)
    | NowClaim(user: int, raw: string, now: Instant)
    | Poll(now: Instant)
    | ManualClaim(user: int, note: int, allowProcessed: bool, stale: Instant, now: Instant)
      // the plain read of ClaimNoteForEnrichment, at any time after the claim found nothing
    | ManualRead(user: int, note: int)
      // the LLM call, or a save that does not commit, returns an error
    | Fails(holder: int)
      // known: the holder learns that a commit succeeded
    | Save(holder: int, parsed: Parsed, now: Instant, known: bool)
      // lost: the write fails, and its error is ignored
    | Mark(holder: int, now: Instant, lost: bool)
    | Retry(holder: int, now: Instant, lost: bool)
    | Crash(holder: int)

  predicate IsClaim(step: Step) { step.NowClaim? || step.Poll? || step.ManualClaim? }

  // Successive claims see increasing instants.
  predicate InOrder(s: State, step: Step) {
    IsClaim(step) ==> s.clock < step.now
  }

  function WithHolder(s: State, h: Holder): State {
    s.(holders := s.holders[s.nextHolder := h], nextHolder := s.nextHolder + 1)
  }

  function MoveTo(s: State, h: int, point: Point): State
    requires h in s.holders
  {
    s.(holders := s.holders[h := s.holders[h].(point := point)])
  }

  function Drop(s: State, h: int): State {
    s.(holders := s.holders - {h})
  }

  function InsertNote(s: State, n: Note): State {
    s.(notes := s.notes[s.nextNote := n], nextNote := s.nextNote + 1)
  }

  predicate ManuallyClaimable(n: Note, user: int, allowProcessed: bool, stale: Instant, now: Instant) {
    && n.user == user
    && (n.status == Pending || n.status == Failed || (allowProcessed && n.status == Processed) || Stale(n, stale, now))
  }

  ghost function PollStep(s: State, now: Instant): State {
    var ids := Batch(s.notes, s.cfg.batch, s.cfg.maxAttempts, s.cfg.stale, now);
    s.(notes := ClaimAll(s.notes, ids, now), clock := now,
       holders := s.holders + StartAll(s.notes, ids, s.nextHolder, now), nextHolder := s.nextHolder + |ids|)
  }

  function ManualClaimStep(s: State, user: int, note: int, allowProcessed: bool, stale: Instant, now: Instant): State {
    if note in s.notes && ManuallyClaimable(s.notes[note], user, allowProcessed, stale, now)
    then
      var n := s.notes[note];
      var n1 := n.(status := Processing, startedAt := Some(now), failedAt := None, attempts := n.attempts + 1);
      WithHolder(s.(notes := s.notes[note := n1], clock := now), Holder(user, note, now, n1.attempts, Manual, Working))
    else s
  }

  // EnrichClaimedNote goes on only with a note read as processing.
  function ManualReadStep(s: State, user: int, note: int): State {
    if note in s.notes && s.notes[note].user == user && s.notes[note].status == Processing
    then
      var n := s.notes[note];
      WithHolder(s, Holder(user, note, Coalesce(n.startedAt, n.createdAt), n.attempts, Manual, Working))
    else s
  }

  function SaveStep(s: State, h: int, p: Parsed, now: Instant, known: bool): State
    requires h in s.holders
  {
    var c := s.holders[h];
    match SaveResult(s.notes, s.db, c.user, c.note, c.token, p, now)
    case None => MoveTo(s, h, Failing)
    case Some((notes1, db1)) =>
      var s1 := s.(notes := notes1, db := db1, log := s.log + [Commit(c.note, c.token, p, db1.aliases)]);
      if known then Drop(s1, h) else MoveTo(s1, h, Failing)
  }

  function MarkStep(s: State, h: int, now: Instant, lost: bool): State
    requires h in s.holders
  {
    var c := s.holders[h];
    var s1 := if lost then s else s.(notes := MarkFailed(s.notes, c.user, c.note, c.token, now));
    if c.source == Worker then MoveTo(s1, h, Retrying) else Drop(s1, h)
  }

  function RetryStep(s: State, h: int, now: Instant, lost: bool): State
    requires h in s.holders
  {
    var c := s.holders[h];
    var next := GiveUp(s.cfg, c.attempt, now);
    var s1 := if lost then s else s.(notes := Reschedule(s.notes, c.user, c.note, c.token, now, next));
    Drop(s1, h)
  }

  predicate At(s: State, h: int, point: Point) {
    h in s.holders && s.holders[h].point == point
  }

  // A step of a process that is not at that point changes nothing.
  ghost function Next(s: State, step: Step): State {
    match step
    case Capture(user, raw, now) => InsertNote(s, RawNote(user, raw, now))
    case NowClaim(user, raw, now) =>
      WithHolder(InsertNote(s, OwnNote(user, raw, now)).(clock := now),
                 Holder(user, s.nextNote, now, 1, Now, Working))
    case Poll(now) => PollStep(s, now)
    case ManualClaim(user, note, allowProcessed, stale, now) => ManualClaimStep(s, user, note, allowProcessed, stale, now)
    case ManualRead(user, note) => ManualReadStep(s, user, note)
    case Fails(h) => if At(s, h, Working) then MoveTo(s, h, Failing) else s
    case Save(h, p, now, known) => if At(s, h, Working) then SaveStep(s, h, p, now, known) else s
    case Mark(h, now, lost) => if At(s, h, Failing) then MarkStep(s, h, now, lost) else s
    case Retry(h, now, lost) => if At(s, h, Retrying) then RetryStep(s, h, now, lost) else s
    case Crash(h) => Drop(s, h)
  }

  ghost function Run(s: State, steps: seq<Step>): State {
    if steps == [] then s else Next(Run(s, steps[..|steps| - 1]), steps[|steps| - 1])
  }

  ghost predicate Legal(s: State, steps: seq<Step>) {
    steps == [] || (Legal(s, steps[..|steps| - 1]) && InOrder(Run(s, steps[..|steps| - 1]), steps[|steps| - 1]))
  }

  // NewNoteEnrichment replaces settings that are not positive.
  function WithDefaults(cfg: Config): Config {
    Config(if cfg.batch <= 0 then 10 else cfg.batch, if cfg.maxAttempts <= 0 then 3 else cfg.maxAttempts,
           if cfg.stale <= 0 then 3 * MINUTE else cfg.stale)
  }

  function Init(cfg: Config, clock: Instant): State {
    State(WithDefaults(cfg), map[], 1, EMPTY, map[], 0, clock, [])
  }

  // ---- How one note may change ----

  // Its owner stays; either it is claimed at the new clock, or its token and attempts stay and
  // it does not become active.
  predicate Evolves(a: Note, b: Note, clock: Instant, clock1: Instant) {
    && b.user == a.user
    && ((b.startedAt == a.startedAt && b.attempts == a.attempts && (b.status == Processing ==> a.status == Processing))
        || (b.startedAt == Some(clock1) && clock < clock1 && b.status == Processing && b.attempts == a.attempts + 1))
  }

  ghost predicate AllEvolve(s: State, s1: State) {
    && s.clock <= s1.clock && s1.cfg == s.cfg
    && forall id :: id in s.notes ==> id in s1.notes && Evolves(s.notes[id], s1.notes[id], s.clock, s1.clock)
  }

  lemma StepEvolves(s: State, step: Step)
    requires InOrder(s, step) && forall id :: id in s.notes ==> id < s.nextNote
    ensures AllEvolve(s, Next(s, step))
  {
    hide SaveStructured, DeleteForNote, Batch, StaleBefore, GiveUp, StartAll, Eligible;
  }

  // What a manual claim does: it takes a note of the user that is pending or has failed, a processed
  // one if that is allowed, and one whose claim is older than the timeout in whole seconds; it counts
  // the attempt and leaves the next instant as it is. Otherwise nothing changes.
  lemma ManualClaimCases(s: State, user: int, note: int, allowProcessed: bool, stale: Instant, now: Instant)
    requires NotesOk(s) && stale >= 0
    ensures ManualClaimStep(s, user, note, allowProcessed, stale, now)
         == if note in s.notes && s.notes[note].user == user
               && match s.notes[note].status
                  case Pending => true
                  case Failed => true
                  case Processed => allowProcessed
                  case Processing => s.notes[note].startedAt.value + stale / 1_000_000 * 1_000_000 < now
            then
              var n := s.notes[note];
              s.(notes := s.notes[note := n.(status := Processing, startedAt := Some(now), failedAt := None, attempts := n.attempts + 1)],
                 clock := now, nextHolder := s.nextHolder + 1,
                 holders := s.holders[s.nextHolder := Holder(user, note, now, n.attempts + 1, Manual, Working)])
            else s
  {
    if note in s.notes {
      assert NoteOk(s.notes[note], s.clock);
    }
    hide NotesOk;
  }

  // ---- Invariants ----

  predicate NoteOk(n: Note, clock: Instant) {
    && (n.startedAt.Some? ==> n.startedAt.value <= clock)
    && (n.status == Processing ==> n.startedAt.Some?)
  }

  ghost predicate NotesOk(s: State) {
    forall id :: id in s.notes ==> id < s.nextNote && NoteOk(s.notes[id], s.clock)
  }

  // The note's own token is at least this one.
  predicate Reached(notes: map<int, Note>, note: int, token: Instant) {
    note in notes && notes[note].startedAt.Some? && token <= notes[note].startedAt.value
  }

  ghost predicate HoldersOk(s: State) {
    forall h :: h in s.holders ==>
      && h < s.nextHolder
      && Reached(s.notes, s.holders[h].note, s.holders[h].token)
      && s.notes[s.holders[h].note].user == s.holders[h].user
  }

  // A token that has committed can no longer be that of an active claim.
  predicate Spent(notes: map<int, Note>, c: Commit) {
    && Reached(notes, c.note, c.token)
    && !(notes[c.note].status == Processing && notes[c.note].startedAt == Some(c.token))
  }

  ghost predicate LogOk(s: State) {
    && (forall i :: 0 <= i < |s.log| ==> Spent(s.notes, s.log[i]))
    && (forall i, j :: 0 <= i < j < |s.log| && s.log[i].note == s.log[j].note ==> s.log[i].token < s.log[j].token)
  }

  function LastCommit(log: seq<Commit>, note: int): Option<Commit> {
    if log == [] then None
    else if log[|log| - 1].note == note then Some(log[|log| - 1])
    else LastCommit(log[..|log| - 1], note)
  }

  // The rows of a note are exactly those of its last committed save.
  ghost predicate RowsFollowLog(s: State, note: int) {
    match LastCommit(s.log, note)
    case None => RowsFor(s.db, note) == NO_ROWS
    case Some(c) =>
      && note in s.notes
      && Derived(RowsFor(s.db, note), c.index, s.notes[note].user, note, c.parsed)
      && s.notes[note].summary == Some(c.parsed.summary) && Some(s.notes[note].tags) == c.parsed.tags
  }

  ghost predicate RowsOk(s: State) {
    Inv(s.db) && forall note :: RowsFollowLog(s, note)
  }

  ghost predicate QueueInv(s: State) {
    NotesOk(s) && HoldersOk(s) && LogOk(s) && RowsOk(s)
  }

  lemma NotesStayOk(s: State, step: Step)
    requires NotesOk(s) && InOrder(s, step)
    ensures NotesOk(Next(s, step))
  {
    hide SaveStructured, DeleteForNote, Batch, StaleBefore, GiveUp, StartAll, Eligible;
  }

  lemma HolderAfterPoll(s: State, now: Instant, h: int)
    requires h in PollStep(s, now).holders && HoldersOk(s)
    ensures var ids := Batch(s.notes, s.cfg.batch, s.cfg.maxAttempts, s.cfg.stale, now);
            if h in s.holders then PollStep(s, now).holders[h] == s.holders[h]
            else 0 <= h - s.nextHolder < |ids| && PollStep(s, now).holders[h] == StartOne(s.notes, ids[h - s.nextHolder], now)
  {
    hide Batch, StartOne, ClaimAll;
  }

  lemma PollKeepsHolders(s: State, now: Instant)
    requires NotesOk(s) && HoldersOk(s) && s.clock < now
    ensures HoldersOk(PollStep(s, now))
  {
    hide Batch, StartAll;
    var s1 := PollStep(s, now);
    forall h | h in s1.holders
      ensures h < s1.nextHolder && Reached(s1.notes, s1.holders[h].note, s1.holders[h].token)
              && s1.notes[s1.holders[h].note].user == s1.holders[h].user
    {
      HolderAfterPoll(s, now, h);
      if h in s.holders {
        assert Reached(s.notes, s.holders[h].note, s.holders[h].token);
      }
    }
  }

  lemma HoldersStayOk(s: State, step: Step)
    requires NotesOk(s) && HoldersOk(s) && InOrder(s, step)
    ensures HoldersOk(Next(s, step))
  {
    if step.Poll? {
      hide PollStep, NotesOk, HoldersOk;
      PollKeepsHolders(s, step.now);
    } else {
      hide Next, NotesOk, InOrder;
      var s1 := Next(s, step);
      forall h | h in s1.holders
        ensures h < s1.nextHolder && Reached(s1.notes, s1.holders[h].note, s1.holders[h].token)
                && s1.notes[s1.holders[h].note].user == s1.holders[h].user
      {
        HolderStaysOk(s, step, h);
      }
    }
  }

  lemma HolderStaysOk(s: State, step: Step, h: int)
    requires NotesOk(s) && HoldersOk(s) && InOrder(s, step) && !step.Poll? && h in Next(s, step).holders
    ensures var s1 := Next(s, step);
            && h < s1.nextHolder && Reached(s1.notes, s1.holders[h].note, s1.holders[h].token)
            && s1.notes[s1.holders[h].note].user == s1.holders[h].user
  {
    if h in s.holders {
      assert Reached(s.notes, s.holders[h].note, s.holders[h].token);
      NotesBelow(s);
      hide Next, NotesOk, HoldersOk, InOrder;
      HolderKeeps(s, step, h);
      StepEvolves(s, step);
    } else {
      NewHolderIsOk(s, step, h);
    }
  }

  lemma NotesBelow(s: State)
    requires NotesOk(s)
    ensures forall id :: id in s.notes ==> id < s.nextNote
  {
  }

  // A holder changes its point only.
  lemma HolderKeeps(s: State, step: Step, h: int)
    requires !step.Poll? && h in s.holders && h in Next(s, step).holders && HoldersOk(s)
    ensures Next(s, step).holders[h] == s.holders[h].(point := Next(s, step).holders[h].point)
    ensures s.nextHolder <= Next(s, step).nextHolder
  {
    hide SaveResult, ManuallyClaimable, GiveUp, MarkFailed, Reschedule, Reached;
  }

  lemma NewHolderIsOk(s: State, step: Step, h: int)
    requires NotesOk(s) && HoldersOk(s) && InOrder(s, step) && !step.Poll? && h in Next(s, step).holders && h !in s.holders
    ensures var s1 := Next(s, step);
            && h < s1.nextHolder && Reached(s1.notes, s1.holders[h].note, s1.holders[h].token)
            && s1.notes[s1.holders[h].note].user == s1.holders[h].user
  {
    hide SaveResult, MarkFailed, Reschedule, GiveUp, StaleBefore;
  }

  lemma LogStaysOk(s: State, s1: State)
    requires NotesOk(s) && LogOk(s) && AllEvolve(s, s1) && s1.log == s.log
    ensures LogOk(s1)
  {
  }

  lemma OneMoreCommit(s: State, s1: State, c: Commit)
    requires NotesOk(s) && LogOk(s) && AllEvolve(s, s1) && s1.log == s.log + [c]
    requires c.note in s.notes && s.notes[c.note].status == Processing && s.notes[c.note].startedAt == Some(c.token)
    requires s1.notes[c.note].status != Processing && s1.notes[c.note].startedAt == Some(c.token)
    ensures LogOk(s1)
  {
    LogStaysOk(s, s1.(log := s.log));
    hide AllEvolve;
    forall i | 0 <= i < |s.log| && s.log[i].note == c.note ensures s.log[i].token < c.token {
      assert Spent(s.notes, s.log[i]);
    }
  }

  ghost predicate SameRows(s: State, s1: State) {
    && s1.db == s.db && s1.log == s.log
    && forall id :: id in s.notes ==> id in s1.notes && s1.notes[id].user == s.notes[id].user
                                      && s1.notes[id].summary == s.notes[id].summary
                                      && s1.notes[id].tags == s.notes[id].tags
  }

  lemma RowsStay(s: State, s1: State)
    requires RowsOk(s) && SameRows(s, s1)
    ensures RowsOk(s1)
  {
    hide Inv, Derived, RowsFor;
    forall note ensures RowsFollowLog(s1, note) {
      assert RowsFollowLog(s, note);
    }
  }

  predicate Commits(s: State, step: Step) {
    && step.Save? && At(s, step.holder, Working)
    && var c := s.holders[step.holder];
       SaveResult(s.notes, s.db, c.user, c.note, c.token, step.parsed, step.now).Some?
  }

  lemma OtherStepsKeepRows(s: State, step: Step)
    requires !Commits(s, step) && forall id :: id in s.notes ==> id < s.nextNote
    ensures SameRows(s, Next(s, step))
  {
    hide SaveStructured, DeleteForNote, Batch, StaleBefore, GiveUp, StartAll, Eligible;
  }

  // A committed save changes the rows of its note to those of the parsed note, and no others.
  lemma CommittedRows(db: Tables, user: int, note: int, p: Parsed, now: Instant)
    requires Inv(db) && RowsOwned(RowsFor(db, note), user)
    requires SaveStructured(DeleteForNote(db, user, note), user, note, p, now).Some?
    ensures var db1 := SaveStructured(DeleteForNote(db, user, note), user, note, p, now).value;
            && Inv(db1) && Derived(RowsFor(db1, note), db1.aliases, user, note, p)
            && Tells(RowsFor(db1, note), db1.aliases, user, note, p)
            && Spares(db, db1, note)
            && forall other :: other != note ==> RowsFor(db1, other) == RowsFor(db, other)
  {
    hide *;
    DeleteClears(db, user, note);
    DeleteKeepsInv(db, user, note);
    var db0 := DeleteForNote(db, user, note);
    var db1 := SaveStructured(db0, user, note, p, now).value;
    SavedAfterDelete(db0, user, note, p, now);
    SaveReplacesRows(db0, db1, user, note, p);
    DerivedTells(RowsFor(db1, note), db1.aliases, user, note, p);
    DeleteSpares(db, user, note);
    SaveSpares(db0, db1, user, note, p);
    SparesTransitive(db, db0, db1, note);
    forall other | other != note ensures RowsFor(db1, other) == RowsFor(db, other) {
      SaveSparesOthers(db0, db1, user, note, p, other);
      DeleteSparesOthers(db, user, note, other);
    }
  }

  // A save commits exactly if the claim under its token is active - the note is the user's, its
  // token is this one and it is processing -, the summary and every tag can be stored, tags are not
  // nil, no name is refused and every text fits.
  lemma SaveCommitsExactly(notes: map<int, Note>, db: Tables, user: int, note: int, token: Instant, p: Parsed, now: Instant)
    requires Inv(db)
    ensures SaveResult(notes, db, user, note, token, p, now).Some?
        <==> && note in notes && notes[note].user == user && notes[note].startedAt == Some(token) && notes[note].status == Processing
             && Storable(p.summary) && p.tags.Some? && (forall tag :: tag in p.tags.value ==> Storable(tag))
             && !SomeNameFails(db, user, NamesOf(p)) && TextsFit(p)
    ensures SaveResult(notes, db, user, note, token, p, now).Some? ==>
              SaveResult(notes, db, user, note, token, p, now).value.0
              == notes[note := notes[note].(summary := Some(p.summary), tags := p.tags.value, status := Processed,
                                            failedAt := None, nextAt := None)]
  {
    DeleteKeepsInv(db, user, note);
    hide Inv, SaveStructured, TextsFit, Storable;
    SaveFailsExactly(DeleteForNote(db, user, note), user, note, p, now);
    NamesFailAlike(db, DeleteForNote(db, user, note), user, NamesOf(p));
  }

  lemma NamesFailAlike(t: Tables, t1: Tables, user: int, names: seq<string>)
    requires t1.people == t.people && t1.aliases == t.aliases
    ensures SomeNameFails(t, user, names) == SomeNameFails(t1, user, names)
  {
    hide NormalizePersonName, TrimSpace, Storable, KeysOf, KeyOf, Blank;
    forall i | 0 <= i < |names| ensures FailsAt(t, user, names, i) == FailsAt(t1, user, names, i) {}
  }

  lemma SavedAfterDelete(db0: Tables, user: int, note: int, p: Parsed, now: Instant)
    requires Inv(db0) && RowsFor(db0, note) == NO_ROWS
    requires SaveStructured(db0, user, note, p, now).Some?
    ensures NoRowsYet(db0, note) && Saved(db0, SaveStructured(db0, user, note, p, now).value, user, note, p)
    ensures Inv(SaveStructured(db0, user, note, p, now).value)
  {
    hide SaveStructured, Inv, RowsFor;
    SaveStructuredLeaves(db0, user, note, p, now);
    SaveStructuredKeepsInv(db0, user, note, p, now);
  }

  lemma RowsAreOwned(s: State, note: int)
    requires RowsOk(s) && note in s.notes
    ensures RowsOwned(RowsFor(s.db, note), s.notes[note].user)
  {
    hide Inv, Derived, RowsFor;
    assert RowsFollowLog(s, note);
    match LastCommit(s.log, note)
    case None => NoRowsAreOwned(s.notes[note].user);
    case Some(c) => DerivedRowsOwned(RowsFor(s.db, note), c.index, s.notes[note].user, note, c.parsed);
  }

  lemma NoRowsAreOwned(user: int)
    ensures RowsOwned(NO_ROWS, user)
  {
  }

  // What a save that commits does to the state.
  lemma CommitEffect(s: State, step: Step)
    requires Commits(s, step)
    ensures var c, s1 := s.holders[step.holder], Next(s, step);
            && c.note in s.notes && s.notes[c.note].user == c.user
            && s1.log == s.log + [Commit(c.note, c.token, step.parsed, s1.db.aliases)]
            && s1.notes.Keys == s.notes.Keys && s1.notes[c.note].user == c.user
            && s1.notes[c.note].summary == Some(step.parsed.summary) && Some(s1.notes[c.note].tags) == step.parsed.tags
            && (forall id :: id in s.notes && id != c.note ==> s1.notes[id] == s.notes[id])
            && SaveStructured(DeleteForNote(s.db, c.user, c.note), c.user, c.note, step.parsed, step.now) == Some(s1.db)
  {
    hide SaveStructured, DeleteForNote;
  }

  lemma NextLast(log: seq<Commit>, c: Commit, note: int)
    ensures LastCommit(log + [c], note) == if c.note == note then Some(c) else LastCommit(log, note)
  {
    assert (log + [c])[..|log|] == log;
  }

  lemma CommitKeepsRows(s: State, step: Step)
    requires RowsOk(s) && Commits(s, step)
    ensures RowsOk(Next(s, step))
  {
    hide Inv, Derived, Tells, Spares, RowsFor, SaveStructured, DeleteForNote, RowsOwned, Next, LastCommit;
    var c, s1 := s.holders[step.holder], Next(s, step);
    CommitEffect(s, step);
    RowsAreOwned(s, c.note);
    CommittedRows(s.db, c.user, c.note, step.parsed, step.now);
    hide Commits;
    forall note ensures RowsFollowLog(s1, note) {
      assert RowsFollowLog(s, note);
      NextLast(s.log, s1.log[|s.log|], note);
    }
  }

  lemma StepKeepsInv(s: State, step: Step)
    requires QueueInv(s) && InOrder(s, step)
    ensures QueueInv(Next(s, step))
  {
    hide RowsOk, LogOk, HoldersOk, AllEvolve, Next;
    NotesStayOk(s, step);
    HoldersStayOk(s, step);
    StepEvolves(s, step);
    LogStep(s, step);
    if Commits(s, step) {
      CommitKeepsRows(s, step);
    } else {
      OtherStepsKeepRows(s, step);
      RowsStay(s, Next(s, step));
    }
  }

  lemma LogStep(s: State, step: Step)
    requires NotesOk(s) && LogOk(s) && AllEvolve(s, Next(s, step)) && InOrder(s, step)
    ensures LogOk(Next(s, step))
  {
    hide LogOk, AllEvolve, SaveStructured, DeleteForNote, Batch, ClaimAll, StartAll;
    var s1 := Next(s, step);
    if Commits(s, step) {
      OneMoreCommit(s, s1, s1.log[|s.log|]);
    } else {
      LogStaysOk(s, s1);
    }
  }

  lemma {:induction false} RunKeepsInv(s: State, steps: seq<Step>)
    requires QueueInv(s) && Legal(s, steps)
    ensures QueueInv(Run(s, steps))
  {
    if steps != [] {
      hide QueueInv, Next, InOrder;
      RunKeepsInv(s, steps[..|steps| - 1]);
      StepKeepsInv(Run(s, steps[..|steps| - 1]), steps[|steps| - 1]);
    }
  }

  lemma InitIsSound(cfg: Config, clock: Instant)
    ensures QueueInv(Init(cfg, clock))
  {
    assert Inv(EMPTY);
    hide Inv;
  }

  // ---- Main results ----

  // Fencing refines atomic replacement: whatever claims, stale reclaims, late saves, late
  // failures, lost writes and crashes interleave, a note's records are exactly those derived
  // from its last committed save, and none if it has none.
  lemma EnrichmentIsAtomicReplace(cfg: Config, clock: Instant, steps: seq<Step>, note: int)
    requires Legal(Init(cfg, clock), steps)
    ensures var s := Run(Init(cfg, clock), steps);
            match LastCommit(s.log, note)
            case None => RowsFor(s.db, note) == NO_ROWS
            case Some(c) =>
              && note in s.notes && c in s.log && c.note == note
              && Derived(RowsFor(s.db, note), c.index, s.notes[note].user, note, c.parsed)
              && Tells(RowsFor(s.db, note), c.index, s.notes[note].user, note, c.parsed)
              && s.notes[note].summary == Some(c.parsed.summary) && Some(s.notes[note].tags) == c.parsed.tags
  {
    InitIsSound(cfg, clock);
    RunKeepsInv(Init(cfg, clock), steps);
    var s := Run(Init(cfg, clock), steps);
    hide Inv, RowsFor, Derived, Tells, Run, NotesOk, HoldersOk, LogOk;
    assert RowsFollowLog(s, note);
    LastCommitIsLogged(s.log, note);
    match LastCommit(s.log, note)
    case None =>
    case Some(c) => DerivedTells(RowsFor(s.db, note), c.index, s.notes[note].user, note, c.parsed);
  }

  lemma {:induction false} LastCommitIsLogged(log: seq<Commit>, note: int)
    ensures LastCommit(log, note).Some? ==> LastCommit(log, note).value in log && LastCommit(log, note).value.note == note
    ensures LastCommit(log, note).None? ==> forall c :: c in log ==> c.note != note
  {
    if log != [] {
      LastCommitIsLogged(log[..|log| - 1], note);
    }
  }

  // Each token commits at most one save, and a note's saves commit in the order of its claims.
  lemma TokensCommitOnce(cfg: Config, clock: Instant, steps: seq<Step>, i: nat, j: nat)
    requires Legal(Init(cfg, clock), steps)
    requires i < j < |Run(Init(cfg, clock), steps).log|
    ensures var log := Run(Init(cfg, clock), steps).log;
            log[i].note == log[j].note ==> log[i].token < log[j].token
  {
    InitIsSound(cfg, clock);
    RunKeepsInv(Init(cfg, clock), steps);
  }

  lemma {:induction false} TokenNeverComesBack(s: State, steps: seq<Step>, note: int, token: Instant)
    requires QueueInv(s) && Legal(s, steps)
    requires Reached(s.notes, note, token) && s.notes[note].startedAt != Some(token)
    ensures var s1 := Run(s, steps); Reached(s1.notes, note, token) && s1.notes[note].startedAt != Some(token)
  {
    if steps != [] {
      var before := Run(s, steps[..|steps| - 1]);
      TokenNeverComesBack(s, steps[..|steps| - 1], note, token);
      RunKeepsInv(s, steps[..|steps| - 1]);
      hide Next, RowsOk, LogOk, HoldersOk;
      StepEvolves(before, steps[|steps| - 1]);
      assert Evolves(before.notes[note], Run(s, steps).notes[note], before.clock, Run(s, steps).clock);
    }
  }

  // What a failure write leaves: the claim under the token is over, so that no save under it can
  // commit any more; the note's owner, text, results, token and attempts stay, and so do every
  // other note and every other claim.
  ghost predicate EndsClaim(notes: map<int, Note>, notes1: map<int, Note>, note: int, token: Instant) {
    && notes1.Keys == notes.Keys
    && (forall id :: id in notes && id != note ==> notes1[id] == notes[id])
    && (note in notes ==>
          notes1[note] == notes[note].(status := notes1[note].status, failedAt := notes1[note].failedAt, nextAt := notes1[note].nextAt))
    && (forall user :: !ClaimActive(notes1, user, note, token))
    && (forall user, id, other :: (id, other) != (note, token) ==>
          ClaimActive(notes1, user, id, other) == ClaimActive(notes, user, id, other))
  }

  // MarkNoteEnrichmentFailed ends exactly the claim it is given, if that claim is active, and is
  // otherwise a no-op; so is a second call, and a call after the claim's save has committed.
  lemma MarkEndsClaim(notes: map<int, Note>, db: Tables, user: int, note: int, token: Instant, p: Parsed, now: Instant,
                      later: Instant)
    ensures var marked := MarkFailed(notes, user, note, token, now);
            (if note in notes && notes[note].user == user && notes[note].startedAt == Some(token) && notes[note].status == Processing
             then EndsClaim(notes, marked, note, token)
                  && marked[note] == notes[note].(status := Failed, failedAt := Some(now))
             else marked == notes)
            && MarkFailed(marked, user, note, token, later) == marked
            && SaveResult(marked, db, user, note, token, p, later).None?
    ensures var saved := SaveResult(notes, db, user, note, token, p, now);
            saved.Some? ==> MarkFailed(saved.value.0, user, note, token, later) == saved.value.0
  {
    hide SaveStructured, DeleteForNote, SummaryStorable;
  }

  // ScheduleNoteEnrichmentRetry supersedes the mark before it: the two writes of a failed attempt
  // end in the same note as the second alone, which below the attempt cap is eligible exactly from
  // the written instant on, or from the write on if it wrote none. Unlike the mark, it also undoes
  // a committed save.
  lemma RetrySupersedesMark(notes: map<int, Note>, db: Tables, user: int, note: int, token: Instant, p: Parsed, marked: Instant,
                            now: Instant, next: Option<Instant>)
    requires note in notes && notes[note].user == user && notes[note].startedAt == Some(token)
    ensures var retried := Reschedule(notes, user, note, token, now, next);
            && Reschedule(MarkFailed(notes, user, note, token, marked), user, note, token, now, next) == retried
            && retried[note] == notes[note].(status := Failed, failedAt := Some(now), nextAt := next)
            && EndsClaim(notes, retried, note, token)
            && forall later, maxAttempts, stale ::
                 Eligible(retried[note], maxAttempts, stale, later)
                 <==> notes[note].attempts < maxAttempts && (if next.Some? then next.value else now) <= later
    ensures var saved := SaveResult(notes, db, user, note, token, p, now);
            saved.Some? ==> Reschedule(saved.value.0, user, note, token, now, next)[note].status == Failed
  {
    hide SaveStructured, DeleteForNote, SummaryStorable, StaleBefore;
  }

  // A write under a token that is not the note's, or for another user, changes nothing.
  lemma OtherTokensWriteNothing(notes: map<int, Note>, user: int, note: int, token: Instant, now: Instant, next: Option<Instant>)
    requires note !in notes || notes[note].user != user || notes[note].startedAt != Some(token)
    ensures Reschedule(notes, user, note, token, now, next) == notes && MarkFailed(notes, user, note, token, now) == notes
  {
  }

  // Once a newer claim exists, every write under the older token is a no-op for ever after.
  lemma OvertakenHolderIsPowerless(s: State, steps: seq<Step>, h: int, p: Parsed, now: Instant, next: Option<Instant>)
    requires QueueInv(s) && Legal(s, steps) && h in s.holders
    requires s.notes[s.holders[h].note].startedAt != Some(s.holders[h].token)
    ensures var s1, c := Run(s, steps), s.holders[h];
            && SaveResult(s1.notes, s1.db, c.user, c.note, c.token, p, now).None?
            && MarkFailed(s1.notes, c.user, c.note, c.token, now) == s1.notes
            && Reschedule(s1.notes, c.user, c.note, c.token, now, next) == s1.notes
  {
    TokenNeverComesBack(s, steps, s.holders[h].note, s.holders[h].token);
  }
}
