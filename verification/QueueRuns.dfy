// What the enrichment queue keeps and promises over whole runs: processed notes stay
// processed, automatic work is bounded, and no eligible note starves.
module QueueRuns {
  import opened Options
  import opened Sets
  import opened Ordering
  import opened People
  import opened Records
  import opened Queue

  // ---- The batch of one poll ----

  // When a note is due: at its next attempt if one is written, and at its creation otherwise.
  function DueAt(n: Note): Instant {
    match n.nextAt
    case None => n.createdAt
    case Some(at) => at
  }

  // Earlier due, or due at the same instant with a smaller number.
  predicate DueBefore(notes: map<int, Note>, a: int, b: int)
    requires a in notes && b in notes
  {
    DueAt(notes[a]) < DueAt(notes[b]) || (DueAt(notes[a]) == DueAt(notes[b]) && a < b)
  }

  lemma SoonerIsDueBefore(notes: map<int, Note>)
    ensures forall a, b :: a in notes && b in notes ==> (Sooner(SortKey(notes[a], a), SortKey(notes[b], b)) <==> DueBefore(notes, a, b))
  {
  }

  lemma BatchIsTheFirst(notes: map<int, Note>, limit: int, maxAttempts: int, stale: Instant, now: Instant)
    requires limit > 0 && maxAttempts > 0
    ensures var ids := Batch(notes, limit, maxAttempts, stale, now);
            var eligible := set id | id in notes && Eligible(notes[id], maxAttempts, stale, now);
            && (forall i, j :: 0 <= i < j < |ids| ==> ids[i] != ids[j])
            && (forall id :: id in ids ==> id in eligible)
            && |ids| == (if limit < |eligible| then limit else |eligible|)
            && (forall a, b :: a in ids && b in eligible && b !in ids ==> Sooner(SortKey(notes[a], a), SortKey(notes[b], b)))
            && (forall i, j :: 0 <= i < j < |ids| ==> ids[j] in notes && ids[i] in notes && DueBefore(notes, ids[i], ids[j]))
            && (forall a, b :: a in ids && b in eligible && b !in ids ==> a in notes && DueBefore(notes, a, b))
  {
    hide Eligible, Sooner, SortKey, TopRows, StrictTotal, DueBefore;
    var rows := Candidates(notes, maxAttempts, stale, now);
    var eligible := set id | id in notes && Eligible(notes[id], maxAttempts, stale, now);
    SameSize(notes, eligible, rows);
    hide Candidates;
    SoonerIsTotal();
    TopRowsAreFirst(rows, Sooner, limit);
    FirstIds(notes, eligible, rows, TopRows(rows, Sooner, limit));
    SoonerIsDueBefore(notes);
  }

  // From the first rows to their numbers, where each eligible note has one row.
  lemma FirstIds(notes: map<int, Note>, eligible: set<int>, rows: set<(Instant, int)>, top: seq<(Instant, int)>)
    requires eligible <= notes.Keys && StrictTotal(Sooner) && Ascending(top, Sooner)
    requires rows == set id | id in eligible :: SortKey(notes[id], id)
    requires forall row :: row in top ==> row in rows
    requires forall x, y :: x in top && y in rows && y !in top ==> Sooner(x, y)
    ensures var ids := RowIds(top);
            && (forall i, j :: 0 <= i < j < |ids| ==> ids[i] != ids[j])
            && (forall id :: id in ids ==> id in eligible)
            && (forall i, j :: 0 <= i < j < |ids| ==> Sooner(SortKey(notes[ids[i]], ids[i]), SortKey(notes[ids[j]], ids[j])))
            && (forall a, b :: a in ids && b in eligible && b !in ids ==> Sooner(SortKey(notes[a], a), SortKey(notes[b], b)))
  {
    hide SortKey, Sooner;
    var ids := RowIds(top);
    forall row | row in top ensures row.1 in eligible && row == SortKey(notes[row.1], row.1) {
      assert row in rows;
    }
    forall i, j | 0 <= i < j < |ids| ensures ids[i] != ids[j] {
      assert top[i] in top && top[j] in top && Sooner(top[i], top[j]);
    }
    forall id | id in ids ensures id in eligible && SortKey(notes[id], id) in top {
      var i :| 0 <= i < |ids| && ids[i] == id;
      assert top[i] in top;
    }
    forall b | b in eligible && b !in ids ensures SortKey(notes[b], b) in rows && SortKey(notes[b], b) !in top {
      if i :| 0 <= i < |top| && top[i] == SortKey(notes[b], b) {
        assert ids[i] == b;
      }
    }
  }

  // Pairing each note with its sort key loses and adds nothing.
  lemma {:induction false} SameSize(notes: map<int, Note>, ids: set<int>, rows: set<(Instant, int)>)
    requires ids <= notes.Keys
    requires rows == set id | id in ids :: SortKey(notes[id], id)
    ensures |rows| == |ids|
    decreases |ids|
  {
    if ids != {} {
      var x := Pick(ids);
      var row := SortKey(notes[x], x);
      SameSize(notes, ids - {x}, rows - {row});
    }
  }

  lemma BatchFacts(s: State, now: Instant)
    ensures var ids := Batch(s.notes, s.cfg.batch, s.cfg.maxAttempts, s.cfg.stale, now);
            && (forall i, j :: 0 <= i < j < |ids| ==> ids[i] != ids[j])
            && (forall id :: id in ids ==> id in s.notes && Eligible(s.notes[id], s.cfg.maxAttempts, s.cfg.stale, now))
  {
    hide Eligible;
    if s.cfg.batch > 0 && s.cfg.maxAttempts > 0 {
      BatchIsTheFirst(s.notes, s.cfg.batch, s.cfg.maxAttempts, s.cfg.stale, now);
    }
  }

  // ---- Processed is absorbing ----

  // Claims come only from the worker and /now, and a holder learns whether its commit succeeded.
  predicate Wired(step: Step) {
    !step.ManualClaim? && !step.ManualRead? && (step.Save? ==> step.known)
  }

  predicate AllWired(steps: seq<Step>) {
    forall i :: 0 <= i < |steps| ==> Wired(steps[i])
  }

  predicate Current(s: State, h: Holder) {
    TokenCurrent(s.notes, h.user, h.note, h.token)
  }

  // The claim that a note's token names is still at work on it.
  predicate HolderFits(n: Note, h: Holder) {
    && n.status != Processed && n.status != Pending && n.attempts == h.attempt && n.nextAt == None
    && (h.point != Retrying ==> n.status == Processing)
  }

  ghost predicate HoldersFit(s: State) {
    forall h :: h in s.holders && Current(s, s.holders[h]) ==> HolderFits(s.notes[s.holders[h].note], s.holders[h])
  }

  ghost predicate TokensUnique(s: State) {
    forall a, b :: a in s.holders && b in s.holders && a != b ==>
      s.holders[a].note != s.holders[b].note || s.holders[a].token != s.holders[b].token
  }

  ghost predicate WiredInv(s: State) {
    NotesOk(s) && HoldersOk(s) && HoldersFit(s) && TokensUnique(s)
  }

  lemma TokensStayUnique(s: State, step: Step)
    requires NotesOk(s) && HoldersOk(s) && TokensUnique(s) && InOrder(s, step) && Wired(step)
    ensures TokensUnique(Next(s, step))
  {
    hide SaveStructured, DeleteForNote, Batch, ClaimAll, Eligible, GiveUp;
    assert forall h :: h in s.holders ==> s.holders[h].token <= s.clock;
    if step.Poll? {
      BatchFacts(s, step.now);
    }
  }

  lemma PollIsPollStep(s: State, now: Instant)
    ensures Next(s, Poll(now)) == PollStep(s, now)
  {
  }

  lemma PollKeepsFit(s: State, now: Instant)
    requires NotesOk(s) && HoldersOk(s) && HoldersFit(s) && s.clock < now
    ensures HoldersFit(PollStep(s, now))
  {
    hide Batch, Eligible, StaleBefore, StartAll;
    BatchFacts(s, now);
    var ids := Batch(s.notes, s.cfg.batch, s.cfg.maxAttempts, s.cfg.stale, now);
    var s1 := PollStep(s, now);
    forall h | h in s1.holders && Current(s1, s1.holders[h]) ensures HolderFits(s1.notes[s1.holders[h].note], s1.holders[h]) {
      HolderAfterPoll(s, now, h);
      if h in s.holders {
        assert Reached(s.notes, s.holders[h].note, s.holders[h].token);
        assert Current(s, s.holders[h]);
      }
    }
  }

  lemma WriteKeepsFit(s: State, step: Step)
    requires WiredInv(s) && InOrder(s, step) && Wired(step) && !step.Poll?
    ensures HoldersFit(Next(s, step))
  {
    hide Next, NotesOk, HoldersOk, HoldersFit, TokensUnique, InOrder, Wired, Current, HolderFits;
    var s1 := Next(s, step);
    forall h | h in s1.holders && Current(s1, s1.holders[h])
      ensures s1.holders[h].note in s1.notes && HolderFits(s1.notes[s1.holders[h].note], s1.holders[h])
    {
      HolderStaysFit(s, step, h);
    }
    AllFit(s1);
  }

  lemma AllFit(s: State)
    requires forall h :: h in s.holders && Current(s, s.holders[h]) ==>
               s.holders[h].note in s.notes && HolderFits(s.notes[s.holders[h].note], s.holders[h])
    ensures HoldersFit(s)
  {
    hide HolderFits;
  }

  lemma HolderStaysFit(s: State, step: Step, h: int)
    requires WiredInv(s) && InOrder(s, step) && Wired(step) && !step.Poll?
    requires h in Next(s, step).holders && Current(Next(s, step), Next(s, step).holders[h])
    ensures var s1 := Next(s, step); s1.holders[h].note in s1.notes && HolderFits(s1.notes[s1.holders[h].note], s1.holders[h])
  {
    hide Next, WiredInv, InOrder, Current, HolderFits;
    if Inserts(step) {
      HolderFitsAfterInsert(s, step, h);
    } else if step.Save? {
      HolderFitsAfterSave(s, step, h);
    } else {
      HolderFitsAfterWrite(s, step, h);
    }
  }

  lemma HolderFitsAfterInsert(s: State, step: Step, h: int)
    requires WiredInv(s) && InOrder(s, step) && Wired(step) && Inserts(step)
    requires h in Next(s, step).holders && Current(Next(s, step), Next(s, step).holders[h])
    ensures var s1 := Next(s, step); s1.holders[h].note in s1.notes && HolderFits(s1.notes[s1.holders[h].note], s1.holders[h])
  {
    HoldersAreBelow(s);
    hide TokensUnique, NotesOk;
  }

  lemma HolderFitsAfterSave(s: State, step: Step, h: int)
    requires WiredInv(s) && InOrder(s, step) && Wired(step) && step.Save?
    requires h in Next(s, step).holders && Current(Next(s, step), Next(s, step).holders[h])
    ensures var s1 := Next(s, step); s1.holders[h].note in s1.notes && HolderFits(s1.notes[s1.holders[h].note], s1.holders[h])
  {
    hide SaveStructured, DeleteForNote, SummaryStorable, NotesOk, HoldersOk;
  }

  lemma HolderFitsAfterWrite(s: State, step: Step, h: int)
    requires WiredInv(s) && InOrder(s, step) && Wired(step) && (step.Mark? || step.Retry? || step.Fails? || step.Crash?)
    requires h in Next(s, step).holders && Current(Next(s, step), Next(s, step).holders[h])
    ensures var s1 := Next(s, step); s1.holders[h].note in s1.notes && HolderFits(s1.notes[s1.holders[h].note], s1.holders[h])
  {
    hide GiveUp, NotesOk, HoldersOk;
  }

  lemma HoldersAreBelow(s: State)
    requires NotesOk(s) && HoldersOk(s)
    ensures forall h :: h in s.holders ==> s.holders[h].note < s.nextNote
  {
  }

  lemma StepKeepsWired(s: State, step: Step)
    requires WiredInv(s) && InOrder(s, step) && Wired(step)
    ensures WiredInv(Next(s, step))
  {
    hide NotesOk, HoldersOk, HoldersFit, TokensUnique, Next;
    NotesStayOk(s, step);
    HoldersStayOk(s, step);
    TokensStayUnique(s, step);
    if step.Poll? {
      PollKeepsFit(s, step.now);
      PollIsPollStep(s, step.now);
    } else {
      WriteKeepsFit(s, step);
    }
  }

  lemma {:induction false} RunKeepsWired(s: State, steps: seq<Step>)
    requires WiredInv(s) && Legal(s, steps) && AllWired(steps)
    ensures WiredInv(Run(s, steps))
  {
    if steps != [] {
      hide WiredInv, Next, InOrder, Wired;
      RunKeepsWired(s, steps[..|steps| - 1]);
      StepKeepsWired(Run(s, steps[..|steps| - 1]), steps[|steps| - 1]);
    }
  }

  // A processed note loses that status in exactly two ways: an explicit reprocessing claims it,
  // or a worker that holds its token reschedules it.
  lemma WhenProcessedIsLeft(s: State, step: Step, note: int)
    requires NotesOk(s) && InOrder(s, step)
    requires note in s.notes && s.notes[note].status == Processed
    ensures note in Next(s, step).notes
    ensures Next(s, step).notes[note].status != Processed <==>
              || (step.ManualClaim? && step.allowProcessed && step.note == note && step.user == s.notes[note].user)
              || (step.Retry? && !step.lost && At(s, step.holder, Retrying) && s.holders[step.holder].note == note
                  && Current(s, s.holders[step.holder]))
  {
    hide SaveStructured, DeleteForNote, Batch, StartAll, StaleBefore, GiveUp;
    if step.Poll? {
      BatchFacts(s, step.now);
    }
  }

  lemma WiredStepKeepsProcessed(s: State, step: Step, note: int)
    requires WiredInv(s) && InOrder(s, step) && Wired(step)
    requires note in s.notes && s.notes[note].status == Processed
    ensures note in Next(s, step).notes && Next(s, step).notes[note] == s.notes[note]
    ensures !(Commits(s, step) && s.holders[step.holder].note == note)
  {
    hide SaveStructured, DeleteForNote, Batch, StartAll, StaleBefore, GiveUp;
    if step.Poll? {
      BatchFacts(s, step.now);
    }
  }

  lemma StepKeepsProcessedRows(s: State, step: Step, note: int)
    requires WiredInv(s) && RowsOk(s) && InOrder(s, step) && Wired(step)
    requires note in s.notes && s.notes[note].status == Processed
    ensures RowsFor(Next(s, step).db, note) == RowsFor(s.db, note)
  {
    hide Inv, RowsFor, SaveStructured, DeleteForNote, RowsOwned, WiredInv;
    WiredStepKeepsProcessed(s, step, note);
    if Commits(s, step) {
      var c := s.holders[step.holder];
      RowsAreOwned(s, c.note);
      CommittedRows(s.db, c.user, c.note, step.parsed, step.now);
    } else {
      NotesBelowNext(s);
      OtherStepsKeepRows(s, step);
    }
  }

  lemma NotesBelowNext(s: State)
    requires WiredInv(s)
    ensures forall id :: id in s.notes ==> id < s.nextNote
  {
  }

  lemma {:induction false} RunKeepsProcessed(s: State, steps: seq<Step>, note: int)
    requires WiredInv(s) && QueueInv(s) && Legal(s, steps) && AllWired(steps)
    requires note in s.notes && s.notes[note].status == Processed
    ensures var s1 := Run(s, steps);
            note in s1.notes && s1.notes[note] == s.notes[note] && RowsFor(s1.db, note) == RowsFor(s.db, note)
  {
    if steps != [] {
      hide WiredInv, QueueInv, Next, InOrder, Wired, RowsFor;
      var n := |steps| - 1;
      RunKeepsProcessed(s, steps[..n], note);
      RunKeepsWired(s, steps[..n]);
      RunKeepsInv(s, steps[..n]);
      WiredStepKeepsProcessed(Run(s, steps[..n]), steps[n], note);
      QueueRowsOk(Run(s, steps[..n]));
      StepKeepsProcessedRows(Run(s, steps[..n]), steps[n], note);
    }
  }

  lemma QueueRowsOk(s: State)
    requires QueueInv(s)
    ensures RowsOk(s)
  {
  }

  // In every run whose claims come only from the worker and /now, and whose commit results are
  // known, a processed note never changes again, and neither do its records.
  lemma ProcessedIsAbsorbing(cfg: Config, clock: Instant, steps: seq<Step>, more: seq<Step>, note: int)
    requires Legal(Init(cfg, clock), steps) && AllWired(steps)
    requires Legal(Run(Init(cfg, clock), steps), more) && AllWired(more)
    requires note in Run(Init(cfg, clock), steps).notes && Run(Init(cfg, clock), steps).notes[note].status == Processed
    ensures var s := Run(Init(cfg, clock), steps);
            var s1 := Run(s, more);
            note in s1.notes && s1.notes[note] == s.notes[note] && RowsFor(s1.db, note) == RowsFor(s.db, note)
  {
    InitIsSound(cfg, clock);
    assert WiredInv(Init(cfg, clock));
    hide WiredInv, QueueInv, Legal, Run, Init, AllWired, RowsFor;
    RunKeepsWired(Init(cfg, clock), steps);
    RunKeepsInv(Init(cfg, clock), steps);
    RunKeepsProcessed(Run(Init(cfg, clock), steps), more, note);
  }

  // ---- Both conditions are needed ----

  const NOTHING := Parsed("", Some([]), [], [], [], [])

  lemma NothingSaves(now: Instant)
    ensures SaveStructured(DeleteForNote(EMPTY, 1, 1), 1, 1, NOTHING, now).Some?
  {
    var db0 := DeleteForNote(EMPTY, 1, 1);
    assert Inv(EMPTY);
    DeleteKeepsInv(EMPTY, 1, 1);
    assert RowsFor(db0, 1) == NO_ROWS;
    hide Inv, SaveStructured, DeleteForNote, RowsFor;
    SaveStructuredLeaves(db0, 1, 1, NOTHING, now);
  }

  // One captured note that the worker has claimed.
  lemma OneClaimedNote(cfg: Config)
    ensures var steps := [Capture(1, "x", 0), Poll(1)];
            var s := Run(Init(cfg, 0), steps);
            && Legal(Init(cfg, 0), steps)
            && s.notes == map[1 := Claimed(Note(1, "x", None, [], Pending, 0, None, None, None, 0), 1)]
            && s.holders == map[0 := Holder(1, 1, 1, 1, Worker, Working)] && s.nextHolder == 1
            && s.db == EMPTY && s.cfg == WithDefaults(cfg)
  {
    hide Run, Legal, PollStep, Claimed;
    var s0 := Init(cfg, 0);
    var a, b := Capture(1, "x", 0), Poll(1);
    NoSteps(s0);
    RunOneMore(s0, [], a);
    RunOneMore(s0, [] + [a], b);
    assert [] + [a] + [b] == [a, b];
    PollOnlyNote(Next(s0, a), 1);
  }

  lemma NoSteps(s: State)
    ensures Legal(s, []) && Run(s, []) == s
  {
  }

  lemma PollOnlyNote(s: State, now: Instant)
    requires s.cfg.batch > 0 && s.cfg.maxAttempts > 0
    requires s.notes.Keys == {1} && s.notes[1].status == Pending && s.notes[1].attempts == 0
    requires s.holders == map[] && s.nextHolder == 0
    ensures PollStep(s, now) == s.(notes := map[1 := Claimed(s.notes[1], now)], clock := now,
                                   holders := map[0 := Holder(s.notes[1].user, 1, now, 1, Worker, Working)], nextHolder := 1)
  {
    hide Batch, Eligible, Claimed;
    OnlyNoteIsClaimed(s, now);
    assert ClaimAll(s.notes, [1], now) == map[1 := Claimed(s.notes[1], now)];
    assert StartAll(s.notes, [1], 0, now) == map[0 := StartOne(s.notes, 1, now)];
  }

  lemma OnlyNoteIsClaimed(s: State, now: Instant)
    requires s.cfg.batch > 0 && s.cfg.maxAttempts > 0
    requires s.notes.Keys == {1} && s.notes[1].status == Pending && s.notes[1].attempts == 0
    ensures Batch(s.notes, s.cfg.batch, s.cfg.maxAttempts, s.cfg.stale, now) == [1]
  {
    hide Batch;
    BatchIsTheFirst(s.notes, s.cfg.batch, s.cfg.maxAttempts, s.cfg.stale, now);
    var eligible := set id | id in s.notes && Eligible(s.notes[id], s.cfg.maxAttempts, s.cfg.stale, now);
    assert eligible == {1};
    var ids := Batch(s.notes, s.cfg.batch, s.cfg.maxAttempts, s.cfg.stale, now);
    assert ids[0] in ids;
    assert ids == [1];
  }

  lemma RunOneMore(s: State, steps: seq<Step>, step: Step)
    requires Legal(s, steps) && InOrder(Run(s, steps), step)
    ensures Legal(s, steps + [step]) && Run(s, steps + [step]) == Next(Run(s, steps), step)
  {
    assert (steps + [step])[..|steps|] == steps;
  }

  // A commit whose success the worker does not learn: the note is processed, and then the
  // worker's own rescheduling marks it failed.
  lemma UnknownCommitIsReverted(cfg: Config) returns (steps: seq<Step>)
    requires cfg.maxAttempts == 3
    ensures Legal(Init(cfg, 0), steps) && |steps| > 2
    ensures forall i :: 0 <= i < |steps| ==> !steps[i].ManualClaim? && !steps[i].ManualRead?
    ensures var early := Run(Init(cfg, 0), steps[..|steps| - 2]); 1 in early.notes && early.notes[1].status == Processed
    ensures var late := Run(Init(cfg, 0), steps); 1 in late.notes && late.notes[1].status == Failed
  {
    OneClaimedNote(cfg);
    NothingSaves(2);
    hide Legal, Run, SaveStructured, DeleteForNote;
    var s0 := Init(cfg, 0);
    var a := [Capture(1, "x", 0), Poll(1)];
    var b := a + [Save(0, NOTHING, 2, false)];
    var c := b + [Mark(0, 3, false)];
    RunOneMore(s0, a, Save(0, NOTHING, 2, false));
    RunOneMore(s0, b, Mark(0, 3, false));
    RunOneMore(s0, c, Retry(0, 4, false));
    steps := c + [Retry(0, 4, false)];
    assert steps[..|steps| - 2] == b;
  }

  // The steps of two holders of one token.
  lemma SharedTokenSteps(s: State)
    requires s.notes == map[1 := Claimed(Note(1, "x", None, [], Pending, 0, None, None, None, 0), 1)]
    requires s.holders == map[0 := Holder(1, 1, 1, 1, Worker, Working)] && s.nextHolder == 1 && s.db == EMPTY
    ensures var saved := Next(Next(Next(s, ManualRead(1, 1)), Fails(0)), Save(1, NOTHING, 2, true));
            var late := Next(Next(saved, Mark(0, 3, false)), Retry(0, 4, false));
            && 1 in saved.notes && saved.notes[1].status == Processed
            && 1 in late.notes && late.notes[1].status == Failed
  {
    NothingSaves(2);
    hide SaveStructured, DeleteForNote;
  }

  // A manual enrichment that read the worker's live token saves while the worker gives up.
  lemma SharedTokenIsReverted(cfg: Config) returns (steps: seq<Step>)
    requires cfg.maxAttempts == 3
    ensures Legal(Init(cfg, 0), steps) && |steps| > 2
    ensures forall i :: 0 <= i < |steps| ==> !steps[i].ManualClaim? && (steps[i].Save? ==> steps[i].known)
    ensures var early := Run(Init(cfg, 0), steps[..|steps| - 2]); 1 in early.notes && early.notes[1].status == Processed
    ensures var late := Run(Init(cfg, 0), steps); 1 in late.notes && late.notes[1].status == Failed
  {
    OneClaimedNote(cfg);
    hide Legal, Run, Next;
    var s0 := Init(cfg, 0);
    var a := [Capture(1, "x", 0), Poll(1)];
    SharedTokenSteps(Run(s0, a));
    var b := a + [ManualRead(1, 1)];
    var c := b + [Fails(0)];
    var d := c + [Save(1, NOTHING, 2, true)];
    var e := d + [Mark(0, 3, false)];
    RunOneMore(s0, a, ManualRead(1, 1));
    RunOneMore(s0, b, Fails(0));
    RunOneMore(s0, c, Save(1, NOTHING, 2, true));
    RunOneMore(s0, d, Mark(0, 3, false));
    RunOneMore(s0, e, Retry(0, 4, false));
    steps := e + [Retry(0, 4, false)];
    assert steps[..|steps| - 2] == d;
  }

  // ---- Bounded work ----

  // Claims left for a note before the attempt cap.
  function Left(notes: map<int, Note>, maxAttempts: int, id: int): nat {
    if id in notes && notes[id].attempts < maxAttempts then maxAttempts - notes[id].attempts else 0
  }

  // The sum of max(0, maxAttempts - attempts) over some notes.
  function PotentialOf(s: State, ids: set<int>): nat {
    Total(ids, id => Left(s.notes, s.cfg.maxAttempts, id))
  }

  function Potential(s: State): nat {
    PotentialOf(s, s.notes.Keys)
  }

  predicate Inserts(step: Step) { step.Capture? || step.NowClaim? }

  // The notes that a step claims for the worker.
  ghost function ClaimedIds(s: State, step: Step): seq<int> {
    if step.Poll? then Batch(s.notes, s.cfg.batch, s.cfg.maxAttempts, s.cfg.stale, step.now) else []
  }

  lemma PotentialDrops(s: State, s1: State, ids: set<int>, b: set<int>)
    requires s1.cfg == s.cfg && ids <= s.notes.Keys && b <= ids
    requires forall id :: id in ids ==> id in s1.notes && s1.notes[id].attempts >= s.notes[id].attempts
    requires forall id :: id in b ==> s.notes[id].attempts < s.cfg.maxAttempts && s1.notes[id].attempts > s.notes[id].attempts
    ensures PotentialOf(s1, ids) + |b| <= PotentialOf(s, ids)
  {
    var f := id => Left(s.notes, s.cfg.maxAttempts, id);
    var g := id => Left(s1.notes, s1.cfg.maxAttempts, id);
    TotalDrops(ids, b, f, g);
  }

  lemma {:induction false} DistinctSize(ids: seq<int>)
    requires forall i, j :: 0 <= i < j < |ids| ==> ids[i] != ids[j]
    ensures |Elements(ids)| == |ids|
  {
    if ids != [] {
      var n := |ids| - 1;
      DistinctSize(ids[..n]);
      assert Elements(ids) == Elements(ids[..n]) + {ids[n]};
    }
  }

  // No step raises the potential of notes that are there, and a poll lowers it by each of them
  // that it claims.
  lemma StepSpendsAmong(s: State, step: Step, ids: set<int>)
    requires NotesOk(s) && InOrder(s, step) && ids <= s.notes.Keys
    ensures Next(s, step).cfg == s.cfg
    ensures PotentialOf(Next(s, step), ids) + |Elements(ClaimedIds(s, step)) * ids| <= PotentialOf(s, ids)
  {
    StepEvolves(s, step);
    hide NotesOk, PotentialOf, SaveStructured, DeleteForNote, Batch, Eligible;
    var s1 := Next(s, step);
    if step.Poll? {
      BatchFacts(s, step.now);
      EligibleIsBelowCap(s, step.now);
    }
    PotentialDrops(s, s1, ids, Elements(ClaimedIds(s, step)) * ids);
  }

  lemma EligibleIsBelowCap(s: State, now: Instant)
    ensures forall id :: id in s.notes && Eligible(s.notes[id], s.cfg.maxAttempts, s.cfg.stale, now) ==>
              s.notes[id].attempts < s.cfg.maxAttempts
  {
  }

  // A step adds one note if it inserts, and none otherwise.
  lemma StepKeepsNotes(s: State, step: Step)
    ensures Next(s, step).notes.Keys == s.notes.Keys + if Inserts(step) then {s.nextNote} else {}
  {
    hide SaveStructured, DeleteForNote, Batch, StartAll, Eligible, StaleBefore, GiveUp;
  }

  // What a new note may add to the potential.
  function Grant(cfg: Config, step: Step): nat {
    if Inserts(step) && cfg.maxAttempts > 0 then cfg.maxAttempts else 0
  }

  lemma NewNoteAdds(s: State, id: int)
    requires id in s.notes
    ensures Potential(s) <= PotentialOf(s, s.notes.Keys - {id}) + if s.cfg.maxAttempts > 0 then s.cfg.maxAttempts else 0
  {
    TotalSplits(s.notes.Keys, n => Left(s.notes, s.cfg.maxAttempts, n), id);
  }

  // An insert raises the potential by at most the cap, no other step raises it, and a poll lowers
  // it by each note that it claims.
  lemma StepSpends(s: State, step: Step)
    requires NotesOk(s) && InOrder(s, step)
    ensures Next(s, step).cfg == s.cfg
    ensures Potential(Next(s, step)) + |ClaimedIds(s, step)| <= Potential(s) + Grant(s.cfg, step)
  {
    hide NotesOk, PotentialOf, Next, ClaimedIds, Inserts;
    StepSpendsAmong(s, step, s.notes.Keys);
    ClaimedAreDistinct(s, step);
    assert Elements(ClaimedIds(s, step)) * s.notes.Keys == Elements(ClaimedIds(s, step));
    NewNotesAdd(s, step);
  }

  // How the potential of all notes grows with a new one.
  lemma NewNotesAdd(s: State, step: Step)
    requires NotesOk(s) && Next(s, step).cfg == s.cfg
    ensures Potential(Next(s, step)) <= PotentialOf(Next(s, step), s.notes.Keys) + Grant(s.cfg, step)
  {
    hide NotesOk, PotentialOf, Next, Inserts;
    StepKeepsNotes(s, step);
    NextNoteIsNew(s);
    var s1 := Next(s, step);
    if Inserts(step) {
      NewNoteAdds(s1, s.nextNote);
      assert s1.notes.Keys - {s.nextNote} == s.notes.Keys;
    } else {
      assert s1.notes.Keys == s.notes.Keys;
    }
  }

  lemma NextNoteIsNew(s: State)
    requires NotesOk(s)
    ensures s.nextNote !in s.notes
  {
  }

  lemma ClaimedAreDistinct(s: State, step: Step)
    ensures |Elements(ClaimedIds(s, step))| == |ClaimedIds(s, step)|
    ensures Elements(ClaimedIds(s, step)) <= s.notes.Keys
  {
    hide Batch, Eligible;
    if step.Poll? {
      BatchFacts(s, step.now);
    }
    DistinctSize(ClaimedIds(s, step));
  }

  ghost function WorkerClaims(s: State, steps: seq<Step>): nat {
    if steps == [] then 0
    else
      var n := |steps| - 1;
      WorkerClaims(s, steps[..n]) + |ClaimedIds(Run(s, steps[..n]), steps[n])|
  }

  function Grants(cfg: Config, steps: seq<Step>): nat {
    if steps == [] then 0 else Grants(cfg, steps[..|steps| - 1]) + Grant(cfg, steps[|steps| - 1])
  }

  // The worker's claims, and so its LLM calls, are bounded by the potential at the start and the
  // cap for each note that comes in.
  lemma {:induction false} WorkIsBounded(s: State, steps: seq<Step>)
    requires QueueInv(s) && Legal(s, steps)
    ensures Run(s, steps).cfg == s.cfg
    ensures WorkerClaims(s, steps) + Potential(Run(s, steps)) <= Potential(s) + Grants(s.cfg, steps)
  {
    if steps != [] {
      var n := |steps| - 1;
      WorkIsBounded(s, steps[..n]);
      RunKeepsInv(s, steps[..n]);
      hide RowsOk, LogOk, HoldersOk, NotesOk, Potential, Next, ClaimedIds, Grant;
      StepSpends(Run(s, steps[..n]), steps[n]);
    }
  }

  // ---- No starvation ----

  // At this poll the note is eligible and passed over, and stands before every note but the early
  // ones.
  ghost predicate PassedAt(s: State, now: Instant, early: set<int>, id: int) {
    && id in s.notes && Eligible(s.notes[id], s.cfg.maxAttempts, s.cfg.stale, now)
    && id !in Batch(s.notes, s.cfg.batch, s.cfg.maxAttempts, s.cfg.stale, now)
    && forall n :: n in s.notes && n !in early ==> Sooner(SortKey(s.notes[id], id), SortKey(s.notes[n], n))
  }

  // So it is at every poll of the run.
  ghost predicate PassedOver(s: State, steps: seq<Step>, early: set<int>, id: int) {
    steps == [] ||
    var n := |steps| - 1;
    && PassedOver(s, steps[..n], early, id)
    && (steps[n].Poll? ==> PassedAt(Run(s, steps[..n]), steps[n].now, early, id))
  }

  function Polls(steps: seq<Step>): nat {
    if steps == [] then 0 else Polls(steps[..|steps| - 1]) + if steps[|steps| - 1].Poll? then 1 else 0
  }

  // The claims that the polls of the run could make in all.
  function Slots(batch: int, steps: seq<Step>): int {
    if steps == [] then 0 else Slots(batch, steps[..|steps| - 1]) + if steps[|steps| - 1].Poll? then batch else 0
  }

  lemma {:induction false} SlotsArePollsTimesBatch(batch: int, steps: seq<Step>)
    ensures Slots(batch, steps) == batch * Polls(steps)
  {
    if steps != [] {
      SlotsArePollsTimesBatch(batch, steps[..|steps| - 1]);
    }
  }

  // A poll that passes the note over spends a full batch on early notes.
  lemma PassingOverFillsBatch(s: State, now: Instant, early: set<int>, id: int)
    requires s.cfg.batch > 0 && s.cfg.maxAttempts > 0 && PassedAt(s, now, early, id)
    ensures |Elements(ClaimedIds(s, Poll(now))) * early| == s.cfg.batch
  {
    hide Batch, Eligible, SortKey;
    BatchIsTheFirst(s.notes, s.cfg.batch, s.cfg.maxAttempts, s.cfg.stale, now);
    var ids := Batch(s.notes, s.cfg.batch, s.cfg.maxAttempts, s.cfg.stale, now);
    var eligible := set i | i in s.notes && Eligible(s.notes[i], s.cfg.maxAttempts, s.cfg.stale, now);
    DistinctSize(ids);
    if |ids| == |eligible| {
      SubsetIsSmaller(Elements(ids), eligible - {id});
    }
    forall n | n in ids ensures n in early {
      assert n in eligible && id in eligible;
    }
    assert Elements(ids) * early == Elements(ids);
  }

  lemma {:induction false} FullBatches(s: State, steps: seq<Step>, id: int)
    requires QueueInv(s) && Legal(s, steps) && s.cfg.batch > 0 && s.cfg.maxAttempts > 0
    requires PassedOver(s, steps, s.notes.Keys, id)
    ensures Run(s, steps).cfg == s.cfg && s.notes.Keys <= Run(s, steps).notes.Keys
    ensures Slots(s.cfg.batch, steps) + PotentialOf(Run(s, steps), s.notes.Keys) <= Potential(s)
  {
    if steps != [] {
      var n := |steps| - 1;
      FullBatches(s, steps[..n], id);
      RunKeepsInv(s, steps[..n]);
      var before := Run(s, steps[..n]);
      hide RowsOk, LogOk, HoldersOk, NotesOk, PotentialOf, Next, ClaimedIds, PassedAt;
      StepKeepsNotes(before, steps[n]);
      StepSpendsAmong(before, steps[n], s.notes.Keys);
      if steps[n].Poll? {
        PassingOverFillsBatch(before, steps[n].now, s.notes.Keys, id);
      }
    }
  }

  // No starvation: while a note stays eligible and before all notes that come in, at most
  // Potential / batch polls pass it over, however many notes come in.
  lemma EligibleNoteIsSoonClaimed(s: State, steps: seq<Step>, id: int)
    requires QueueInv(s) && Legal(s, steps) && s.cfg.batch > 0 && s.cfg.maxAttempts > 0
    requires PassedOver(s, steps, s.notes.Keys, id)
    ensures s.cfg.batch * Polls(steps) <= Potential(s)
  {
    hide QueueInv, Legal, PassedOver, PotentialOf, Run, Polls;
    FullBatches(s, steps, id);
    SlotsArePollsTimesBatch(s.cfg.batch, steps);
  }

  // At every poll the note is eligible, passed over and due at k or before; and from the start of
  // the run on, notes come in, and their retries are written, at k or later.
  ghost predicate WaitsFrom(s: State, steps: seq<Step>, early: set<int>, id: int, k: Instant) {
    steps == [] ||
    var n := |steps| - 1;
    var before, step := Run(s, steps[..n]), steps[n];
    && WaitsFrom(s, steps[..n], early, id, k)
    && (Inserts(step) ==> k <= step.now)
    && (step.Retry? && At(before, step.holder, Retrying) && before.holders[step.holder].note !in early ==> k <= step.now)
    && (step.Poll? ==>
          && id in before.notes && Eligible(before.notes[id], before.cfg.maxAttempts, before.cfg.stale, step.now)
          && SortKey(before.notes[id], id).0 <= k
          && id !in Batch(before.notes, before.cfg.batch, before.cfg.maxAttempts, before.cfg.stale, step.now))
  }

  // Notes that came in later have later numbers and are due at k or later.
  ghost predicate NewAreLate(notes: map<int, Note>, early: set<int>, next: int, k: Instant) {
    forall n :: n in notes && n !in early ==> n >= next && k <= notes[n].createdAt && (notes[n].nextAt.Some? ==> k <= notes[n].nextAt.value)
  }

  lemma StepKeepsLate(s: State, step: Step, early: set<int>, next: int, k: Instant)
    requires NewAreLate(s.notes, early, next, k) && next <= s.nextNote && NotesOk(s)
    requires Inserts(step) ==> k <= step.now
    requires step.Retry? && At(s, step.holder, Retrying) && s.holders[step.holder].note !in early ==> k <= step.now
    ensures NewAreLate(Next(s, step).notes, early, next, k) && next <= Next(s, step).nextNote
  {
    hide SaveStructured, DeleteForNote, Batch, StartAll, Eligible, StaleBefore;
  }

  lemma {:induction false} NewStayLate(s: State, steps: seq<Step>, id: int, k: Instant)
    requires QueueInv(s) && Legal(s, steps) && WaitsFrom(s, steps, s.notes.Keys, id, k)
    ensures NewAreLate(Run(s, steps).notes, s.notes.Keys, s.nextNote, k) && s.nextNote <= Run(s, steps).nextNote
  {
    if steps != [] {
      var n := |steps| - 1;
      NewStayLate(s, steps[..n], id, k);
      RunKeepsInv(s, steps[..n]);
      hide RowsOk, LogOk, HoldersOk, NotesOk, Next, NewAreLate, Eligible, Batch, SortKey;
      StepKeepsLate(Run(s, steps[..n]), steps[n], s.notes.Keys, s.nextNote, k);
    }
  }

  // First in, first out: a note that is due is passed over by no note that comes in later.
  lemma {:induction false} LaterNotesStayBehind(s: State, steps: seq<Step>, id: int, k: Instant)
    requires QueueInv(s) && Legal(s, steps) && id in s.notes && WaitsFrom(s, steps, s.notes.Keys, id, k)
    ensures PassedOver(s, steps, s.notes.Keys, id)
  {
    if steps != [] {
      var n := |steps| - 1;
      LaterNotesStayBehind(s, steps[..n], id, k);
      NewStayLate(s, steps[..n], id, k);
      NotesAreNumbered(s);
      hide QueueInv, Next, Eligible, Batch, Run;
    }
  }

  lemma NotesAreNumbered(s: State)
    requires QueueInv(s)
    ensures forall id :: id in s.notes ==> id < s.nextNote
  {
  }

  // ---- Eligible after a finite time ----

  // The first instant at which an unprocessed note below the cap is eligible.
  function ReadyAt(n: Note, stale: Instant): Instant {
    match n.status
    case Pending => n.createdAt
    case Failed => Coalesce(n.nextAt, Coalesce(n.failedAt, n.createdAt))
    case Processing => Coalesce(n.startedAt, n.createdAt) + (stale / 1_000_000) * 1_000_000 + 1
    case Processed => n.createdAt
  }

  lemma EligibleFromReadyAt(s: State, id: int, now: Instant)
    requires QueueInv(s) && id in s.notes && s.cfg.stale > 0
    ensures var n := s.notes[id];
            Eligible(n, s.cfg.maxAttempts, s.cfg.stale, now)
            == (n.status != Processed && n.attempts < s.cfg.maxAttempts
                && (n.status == Pending || now >= ReadyAt(n, s.cfg.stale)))
  {
    hide RowsOk, LogOk, HoldersOk;
    assert NoteOk(s.notes[id], s.clock);
  }

  lemma StepsToRetrying(s: State, step: Step, h: int)
    requires At(Next(s, step), h, Retrying)
    ensures At(s, h, Retrying) || (h in s.holders && s.holders[h].source == Worker)
    ensures Next(s, step).holders[h].source == Worker || (h in s.holders && Next(s, step).holders[h] == s.holders[h])
  {
    hide SaveStructured, DeleteForNote, SaveResult, Batch, Eligible, ManuallyClaimable, GiveUp, MarkFailed, Reschedule, StaleBefore;
  }

  // Only the worker writes a second time about a failed attempt; /now and the web API leave it at
  // the mark.
  lemma {:induction false} OnlyWorkersRetry(cfg: Config, clock: Instant, steps: seq<Step>, h: int)
    ensures var s := Run(Init(cfg, clock), steps); At(s, h, Retrying) ==> s.holders[h].source == Worker
  {
    if steps != [] {
      var s, step := Run(Init(cfg, clock), steps[..|steps| - 1]), steps[|steps| - 1];
      hide Next, Init;
      OnlyWorkersRetry(cfg, clock, steps[..|steps| - 1], h);
      if At(Next(s, step), h, Retrying) {
        StepsToRetrying(s, step, h);
      }
    }
  }

  // A note that a poll may claim at the instant.
  predicate MayTake(n: Note, maxAttempts: int, stale: Instant, now: Instant) {
    n.status != Processed && n.attempts < maxAttempts && (n.status == Pending || now >= ReadyAt(n, stale))
  }

  // What a poll claims in any run of a worker: as many as its batch of the notes that it may claim,
  // the longest due first; by default 10 at once, below 3 attempts, and stale after three minutes.
  lemma PollFollowsSettings(cfg: Config, clock: Instant, steps: seq<Step>, now: Instant)
    requires Legal(Init(cfg, clock), steps)
    ensures var s := Run(Init(cfg, clock), steps);
            var batch, cap := if cfg.batch > 0 then cfg.batch else 10, if cfg.maxAttempts > 0 then cfg.maxAttempts else 3;
            var stale := if cfg.stale > 0 then cfg.stale else 180_000_000;
            var ids := ClaimedIds(s, Poll(now));
            var due := set id | id in s.notes && MayTake(s.notes[id], cap, stale, now);
            && |ids| == (if batch < |due| then batch else |due|)
            && (forall i, j :: 0 <= i < j < |ids| ==> ids[j] in s.notes && ids[i] in s.notes && DueBefore(s.notes, ids[i], ids[j]))
            && (forall id :: id in ids ==> id in due)
            && (forall a, b :: a in ids && b in due && b !in ids ==> a in s.notes && DueBefore(s.notes, a, b))
  {
    var s := Run(Init(cfg, clock), steps);
    InitIsSound(cfg, clock);
    RunKeepsInv(Init(cfg, clock), steps);
    WorkIsBounded(Init(cfg, clock), steps);
    BatchIsTheFirst(s.notes, s.cfg.batch, s.cfg.maxAttempts, s.cfg.stale, now);
    forall id | id in s.notes
      ensures Eligible(s.notes[id], s.cfg.maxAttempts, s.cfg.stale, now) == MayTake(s.notes[id], s.cfg.maxAttempts, s.cfg.stale, now)
    {
      EligibleFromReadyAt(s, id, now);
    }
    var due := set id | id in s.notes && MayTake(s.notes[id], s.cfg.maxAttempts, s.cfg.stale, now);
    assert due == set id | id in s.notes && Eligible(s.notes[id], s.cfg.maxAttempts, s.cfg.stale, now);
    hide Run, Legal, Eligible, MayTake, DueBefore, Batch, Sooner, SortKey, QueueInv, Potential, WorkerClaims, Grants;
  }

  // After a worker's last write the note waits out its backoff of 1, 5 or, from the third attempt
  // on, 30 minutes if it has attempts left, and is never claimed by a poll again if it has none.
  lemma RetryWaitsOutBackoff(s: State, h: int, now: Instant, later: Instant)
    requires WiredInv(s) && At(s, h, Retrying) && Current(s, s.holders[h])
    ensures var n := Next(s, Retry(h, now, false)).notes[s.holders[h].note];
            && n.status == Failed && n.attempts == s.holders[h].attempt
            && Eligible(n, s.cfg.maxAttempts, s.cfg.stale, later)
               == (n.attempts < s.cfg.maxAttempts
                   && later >= now + if n.attempts == 1 then 60_000_000 else if n.attempts == 2 then 300_000_000 else 1_800_000_000)
            && ReadyAt(n, s.cfg.stale) <= now + 1_800_000_000
  {
    assert HolderFits(s.notes[s.holders[h].note], s.holders[h]);
    hide NotesOk, HoldersOk, HoldersFit, TokensUnique;
  }

  // Between the two writes of a failed attempt the note waits for nothing: a note that
  // MarkNoteEnrichmentFailed has marked is eligible at once, so a second worker can claim it
  // before the first one schedules its backoff.
  lemma MarkedNoteIsEligibleAtOnce(s: State, h: int, now: Instant)
    requires WiredInv(s) && At(s, h, Failing) && Current(s, s.holders[h]) && s.holders[h].attempt < s.cfg.maxAttempts
    ensures var n := Next(s, Mark(h, now, false)).notes[s.holders[h].note];
            n.status == Failed && Eligible(n, s.cfg.maxAttempts, s.cfg.stale, now)
  {
    assert HolderFits(s.notes[s.holders[h].note], s.holders[h]);
    hide NotesOk, HoldersOk, HoldersFit, TokensUnique;
  }
}
