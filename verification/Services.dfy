// One undisturbed run of the programs over the store: EnrichClaimedNote of
// internal/services/service.go, the worker of internal/workers/note_enrichment.go and the message
// handler of internal/adapters/bot/client.go. Interleaved runs are those of Queue and Inbox.
module Services {
  import opened Options
  import opened People
  import opened Records
  import opened Stores
  import Queue
  import QueueRuns
  import Inbox
  import Profiles
  import Text
  import Tickets

  // The person service's validation (internal/services/people.go) and the store's transaction.
  method UpdatePersonProfile(st: Store, user: int, id: int, request: Profiles.Request,
                          now: Instant) returns (outcome: Profiles.UpdateOutcome)
    modifies st
    ensures (st.View(), outcome) == Profiles.UpdateProfile(old(st.View()), user, id, request, now)
    ensures st.notes == old(st.notes) && st.updates == old(st.updates)
    ensures Inv(old(st.View())) ==> Inv(st.View())
  {
    if Inv(st.View()) {
      Profiles.UpdateKeepsInv(st.View(), user, id, request, now);
    }
    hide Inv, Profiles.Validate, Profiles.StoreUpdate;
    var clean := Profiles.Validate(request);
    if clean == None {
      return Profiles.Rejected(Profiles.ValidationError);
    }
    outcome := st.UpdatePersonProfile(user, id, clean.value, now);
  }

  // The committed save of one attempt, if it has one; reply is None if the LLM call fails.
  function Enriched(notes: map<int, Queue.Note>, t: Tables, claim: NoteClaim, reply: Option<Parsed>, now: Instant)
    : Option<(map<int, Queue.Note>, Tables)>
  {
    match reply
    case None => None
    case Some(p) =>
      Queue.SaveResult(notes, t, claim.user, claim.note, claim.startedAt, Tickets.Prepared(p, claim.raw), now)
  }

  method EnrichClaimedNote(st: Store, claim: NoteClaim, reply: Option<Parsed>, now: Instant) returns (ok: bool)
    modifies st
    ensures st.updates == old(st.updates) && st.nextNote == old(st.nextNote)
    ensures if claim.status != Queue.Processing then !ok && st.notes == old(st.notes) && st.View() == old(st.View())
            else match Enriched(old(st.notes), old(st.View()), claim, reply, now)
                 case None => !ok && st.View() == old(st.View())
                              && st.notes == Queue.MarkFailed(old(st.notes), claim.user, claim.note, claim.startedAt, now)
                 case Some((notes1, t1)) => ok && st.notes == notes1 && st.View() == t1
  {
    hide Queue.SaveResult, Queue.MarkFailed, Tickets.Prepared;
    if claim.status != Queue.Processing {
      return false;
    }
    if reply == None {
      st.MarkNoteEnrichmentFailed(claim.user, claim.note, claim.startedAt, now);
      return false;
    }
    var prepared := Tickets.Prepare(reply.value, claim.raw);
    ok := st.SaveNoteEnrichmentResult(claim.user, claim.note, claim.startedAt, prepared, now);
    if !ok {
      st.MarkNoteEnrichmentFailed(claim.user, claim.note, claim.startedAt, now);
    }
  }

  // What one undisturbed attempt makes of a claimed note: it is processed, with a summary and tags,
  // or it has failed and, if it has attempts left, waits 1, 5 or 30 minutes for the next one.
  // Nothing else about it changes.
  predicate Settled(before: Queue.Note, after: Queue.Note, cfg: Queue.Config, now: Instant) {
    || (after == before.(status := Queue.Processed, summary := after.summary, tags := after.tags, nextAt := None, failedAt := None)
        && after.summary.Some?)
    || after == before.(status := Queue.Failed, failedAt := Some(now),
                        nextAt := if before.attempts >= cfg.maxAttempts then None
                                  else if before.attempts == 1 then Some(now + 60_000_000)
                                  else if before.attempts == 2 then Some(now + 300_000_000)
                                  else Some(now + 1_800_000_000))
  }

  method Process(st: Store, cfg: Queue.Config, claim: NoteClaim, reply: Option<Parsed>, now: Instant)
    requires claim.note in st.notes && st.notes[claim.note].startedAt == Some(claim.startedAt)
    requires claim == ClaimOf(claim.note, st.notes[claim.note]) && claim.status == Queue.Processing
    modifies st
    ensures st.updates == old(st.updates) && st.nextNote == old(st.nextNote) && st.notes.Keys == old(st.notes).Keys
    ensures forall id :: id in old(st.notes) && id != claim.note ==> st.notes[id] == old(st.notes)[id]
    ensures Settled(old(st.notes)[claim.note], st.notes[claim.note], cfg, now)
  {
    hide SaveStructured, DeleteForNote, Tickets.Prepared;
    var ok := EnrichClaimedNote(st, claim, reply, now);
    if ok {
      return;
    }
    st.ScheduleNoteEnrichmentRetry(claim.user, claim.note, claim.startedAt, Queue.GiveUp(cfg, claim.attempts, now), now);
  }

  // The note with one more attempt, claimed now.
  function Attempted(n: Queue.Note, now: Instant): Queue.Note {
    n.(startedAt := Some(now), attempts := n.attempts + 1)
  }

  // One poll of the only worker: every note of the batch is settled and no other note changes.
  method Poll(st: Store, cfg: Queue.Config, replies: map<int, Parsed>, now: Instant)
    modifies st
    ensures var ids := Queue.Batch(old(st.notes), cfg.batch, cfg.maxAttempts, cfg.stale, now);
            && st.notes.Keys == old(st.notes).Keys
            && forall id :: id in old(st.notes) ==>
                 if id in ids then Settled(Attempted(old(st.notes)[id], now), st.notes[id], cfg, now)
                 else st.notes[id] == old(st.notes)[id]
  {
    var claims := st.ClaimNextNotesForEnrichment(cfg.batch, cfg.maxAttempts, cfg.stale, now);
    ghost var before := old(st.notes);
    ghost var ids := Queue.Batch(before, cfg.batch, cfg.maxAttempts, cfg.stale, now);
    BatchIsDistinct(before, cfg, now);
    hide Queue.Batch, Settled, PolledUpTo, Queue.ClaimAll, Queue.Claimed;
    NothingPolledYet(before, st.notes, ids, claims, cfg, now);
    for i := 0 to |claims|
      invariant PolledUpTo(before, st.notes, ids, i, cfg, now)
    {
      ghost var mid := st.notes;
      NextIsClaimed(before, mid, ids, i, cfg, now);
      var id := claims[i].note;
      Process(st, cfg, claims[i], if id in replies then Some(replies[id]) else None, now);
      OneMorePolled(before, mid, st.notes, ids, i, cfg, now);
    }
    AllPolled(before, st.notes, ids, cfg, now);
  }

  lemma NothingPolledYet(before: map<int, Queue.Note>, after: map<int, Queue.Note>, ids: seq<int>,
                         claims: seq<NoteClaim>,
                         cfg: Queue.Config, now: Instant)
    requires (forall id :: id in ids ==> id in before) && after == Queue.ClaimAll(before, ids, now) && |claims| == |ids|
    requires forall i :: 0 <= i < |ids| ==>
               ids[i] in after
               && claims[i] == NoteClaim(ids[i], after[ids[i]].user, after[ids[i]].raw, Queue.Processing, now, after[ids[i]].attempts)
    ensures PolledUpTo(before, after, ids, 0, cfg, now)
    ensures forall i :: 0 <= i < |ids| ==>
              Queue.Claimed(before[ids[i]], now).startedAt == Some(now)
              && claims[i] == ClaimOf(ids[i], Queue.Claimed(before[ids[i]], now)) && claims[i].status == Queue.Processing
  {
  }

  lemma NextIsClaimed(before: map<int, Queue.Note>, mid: map<int, Queue.Note>, ids: seq<int>, i: nat,
                      cfg: Queue.Config, now: Instant)
    requires i < |ids| && PolledUpTo(before, mid, ids, i, cfg, now)
    ensures ids[i] in before && ids[i] in mid && mid[ids[i]] == Queue.Claimed(before[ids[i]], now)
  {
  }

  lemma AllPolled(before: map<int, Queue.Note>, after: map<int, Queue.Note>, ids: seq<int>, cfg: Queue.Config,
                  now: Instant)
    requires PolledUpTo(before, after, ids, |ids|, cfg, now)
    ensures after.Keys == before.Keys
    ensures forall id :: id in before ==>
              if id in ids then Settled(Attempted(before[id], now), after[id], cfg, now) else after[id] == before[id]
  {
    forall n, m ensures Settled(Queue.Claimed(n, now), m, cfg, now) <==> Settled(Attempted(n, now), m, cfg, now) {
      ClaimIsAttempt(n, m, cfg, now);
    }
    hide Settled, Queue.Claimed, Attempted;
  }

  lemma ClaimIsAttempt(n: Queue.Note, m: Queue.Note, cfg: Queue.Config, now: Instant)
    ensures Settled(Queue.Claimed(n, now), m, cfg, now) <==> Settled(Attempted(n, now), m, cfg, now)
  {
  }

  // The first i notes of the batch are settled, and the others are claimed.
  ghost predicate PolledUpTo(before: map<int, Queue.Note>, after: map<int, Queue.Note>, ids: seq<int>, i: nat,
                          cfg: Queue.Config, now: Instant) {
    && after.Keys == before.Keys && (forall j :: 0 <= j < |ids| ==> ids[j] in before)
    && (forall j :: 0 <= j < i && j < |ids| ==> Settled(Queue.Claimed(before[ids[j]], now), after[ids[j]], cfg, now))
    && (forall j :: i <= j < |ids| ==> after[ids[j]] == Queue.Claimed(before[ids[j]], now))
    && (forall id :: id in before && id !in ids ==> after[id] == before[id])
  }

  lemma OneMorePolled(before: map<int, Queue.Note>, mid: map<int, Queue.Note>, after: map<int, Queue.Note>,
                      ids: seq<int>, i: nat,
                      cfg: Queue.Config, now: Instant)
    requires i < |ids| && PolledUpTo(before, mid, ids, i, cfg, now) && after.Keys == mid.Keys
    requires forall j, k :: 0 <= j < k < |ids| ==> ids[j] != ids[k]
    requires forall id :: id in mid && id != ids[i] ==> after[id] == mid[id]
    requires ids[i] in mid && Settled(mid[ids[i]], after[ids[i]], cfg, now)
    ensures PolledUpTo(before, after, ids, i + 1, cfg, now)
  {
    hide Settled, Queue.Claimed;
  }

  lemma BatchIsDistinct(notes: map<int, Queue.Note>, cfg: Queue.Config, now: Instant)
    ensures var ids := Queue.Batch(notes, cfg.batch, cfg.maxAttempts, cfg.stale, now);
            forall i, j :: 0 <= i < j < |ids| ==> ids[i] != ids[j]
  {
    if cfg.batch > 0 && cfg.maxAttempts > 0 {
      QueueRuns.BatchIsTheFirst(notes, cfg.batch, cfg.maxAttempts, cfg.stale, now);
    }
  }

  // The update's status after one undisturbed handling; answered tells whether a command that
  // only reads succeeded.
  function StatusAfter(actions: map<int, Action>, user: int, c: Inbox.Command, answered: bool): (status: Inbox.Status)
    ensures status == Inbox.Processed || status == Inbox.Failed
  {
    match c
    case Finish(id) => if id in actions && actions[id].user == user && actions[id].open then Inbox.Processed else Inbox.Failed
    case Answer => if answered then Inbox.Processed else Inbox.Failed
    case _ => Inbox.Processed
  }

  // The notes that one undisturbed handling leaves.
  predicate NotesAfter(before: map<int, Queue.Note>, after: map<int, Queue.Note>, id: int, user: int,
                       c: Inbox.Command, now: Instant) {
    match c
    case Capture(raw) => after == before[id := Queue.Note(user, raw, None, [], Queue.Pending, now, None, None, None, 0)]
    case NowNote(raw) =>
      id in after && after == before[id := after[id]]
      && (after[id].status == Queue.Processed || after[id].status == Queue.Failed)
      && after[id].raw == raw && after[id].user == user && after[id].attempts == 1
      && after[id].createdAt == now && after[id].startedAt == Some(now)
    case _ => after == before
  }

  method CaptureNoteForTelegramUpdate(st: Store, user: int, raw: string, m: Inbox.Ident, startedAt: Instant,
                          now: Instant)
    returns (ok: bool)
    modifies st
    ensures match Inbox.Mark(old(st.updates), m, startedAt, Inbox.Processed)
            case None => !ok && st.updates == old(st.updates) && st.notes == old(st.notes)
            case Some(rows1) => ok && st.updates == rows1 && st.notes == old(st.notes)[old(st.nextNote) := Queue.RawNote(user, raw, now)]
    ensures st.View() == old(st.View())
  {
    ok := st.SaveNoteAndMarkTelegramUpdateProcessed(user, raw, false, m, startedAt, now);
  }

  // The update is processed once the note is there, whatever becomes of its enrichment.
  method AddNoteForTelegramUpdate(st: Store, user: int, raw: string, m: Inbox.Ident, startedAt: Instant,
                          reply: Option<Parsed>, now: Instant)
    returns (ok: bool)
    modifies st
    ensures match Inbox.Mark(old(st.updates), m, startedAt, Inbox.Processed)
            case None => !ok && st.updates == old(st.updates) && st.notes == old(st.notes)
            case Some(rows1) => st.updates == rows1 && NotesAfter(old(st.notes), st.notes, old(st.nextNote), user, Inbox.NowNote(raw), now)
  {
    hide Inbox.Mark, SaveStructured, DeleteForNote, Tickets.Prepared;
    var id := st.nextNote;
    ok := st.SaveNoteAndMarkTelegramUpdateProcessed(user, raw, true, m, startedAt, now);
    if ok {
      ok := EnrichClaimedNote(st, NoteClaim(id, user, raw, Queue.Processing, now, 1), reply, now);
    }
  }

  // The command's own work: the update is marked exactly if StatusAfter says so.
  method Dispatch(st: Store, m: Inbox.Ident, user: int, c: Inbox.Command, startedAt: Instant, reply: Option<Parsed>,
                  answered: bool, now: Instant) returns (ok: bool)
    requires Inbox.Alone(st.updates, m) && m in st.updates
    requires st.updates[m].status == Inbox.Processing && st.updates[m].startedAt == startedAt
    modifies st
    ensures if StatusAfter(old(st.actions), user, c, answered) == Inbox.Processed
            then st.updates == old(st.updates)[m := old(st.updates)[m].(status := Inbox.Processed)]
            else !ok && st.updates == old(st.updates)
    ensures NotesAfter(old(st.notes), st.notes, old(st.nextNote), user, c, now)
    ensures c.Finish? && StatusAfter(old(st.actions), user, c, answered) == Inbox.Processed ==>
              st.actions == old(st.actions)[c.action := old(st.actions)[c.action].(open := false)]
    ensures !c.Finish? && !c.NowNote? ==> st.View() == old(st.View())
  {
    hide Inbox.Mark;
    Inbox.MarkIsOneRow(st.updates, m, startedAt, Inbox.Processed);
    ghost var done := st.updates[m := st.updates[m].(status := Inbox.Processed)];
    Inbox.MarkIsOneRow(done, m, startedAt, Inbox.Processed);
    match c {
      case Capture(raw) =>
        ok := CaptureNoteForTelegramUpdate(st, user, raw, m, startedAt, now);
      case NowNote(raw) =>
        ok := AddNoteForTelegramUpdate(st, user, raw, m, startedAt, reply, now);
      case Finish(id) =>
        ok := st.MarkActionDoneAndMarkTelegramUpdateProcessed(user, id, m, startedAt);
      case BadFinish(blank) =>
        ok := st.MarkTelegramUpdate(m, startedAt, Inbox.Processed);
        if ok && blank {
          ok := st.MarkTelegramUpdate(m, startedAt, Inbox.Processed);
        }
      case Answer =>
        ok := answered;
        if ok {
          ok := st.MarkTelegramUpdate(m, startedAt, Inbox.Processed);
        }
    }
  }

  // handleMessageWithUpdateAndReply with nothing interleaved: a claimed update always ends
  // processed or failed, with exactly the mutation that its text asks for.
  method HandleUpdate(st: Store, m: Inbox.Ident, user: int, text: string, stale: Instant, now: Instant,
                      reply: Option<Parsed>, answered: bool) returns (started: bool)
    requires Inbox.Alone(st.updates, m)
    modifies st
    ensures started == (!Text.Blank(text) && !Inbox.AsksLink(text) && Inbox.MayClaim(old(st.updates), m, stale, now))
    ensures started ==> exists c :: Inbox.AsksFor(text, c)
    ensures !started ==> st.updates == old(st.updates) && st.notes == old(st.notes) && st.View() == old(st.View())
    ensures started ==>
              forall c :: Inbox.AsksFor(text, c) ==>
              var attempts := if m in old(st.updates) then old(st.updates)[m].attempts + 1 else 1;
              && st.updates == old(st.updates)[m := Inbox.Row(StatusAfter(old(st.actions), user, c, answered), now, attempts)]
              && NotesAfter(old(st.notes), st.notes, old(st.nextNote), user, c, now)
              && (c.Finish? && StatusAfter(old(st.actions), user, c, answered) == Inbox.Processed ==>
                    st.actions == old(st.actions)[c.action := old(st.actions)[c.action].(open := false)])
              && (!c.Finish? && !c.NowNote? ==> st.View() == old(st.View()))
  {
    hide Inbox.Recorded, Inbox.CommandOf, Inbox.Claim, Inbox.Mark, Inbox.MayClaim, NotesAfter, Inbox.AsksFor, Inbox.AsksLink,
      Text.Blank, StatusAfter;
    Inbox.RecordedExactly(text);
    Inbox.ClaimIsOneRow(st.updates, m, stale, now);
    if !Inbox.Recorded(text) {
      return false;
    }
    started := st.ClaimTelegramUpdate(m, stale, now);
    if !started {
      return;
    }
    ghost var c := Inbox.CommandOf(text);
    Inbox.CommandIsTheOneAskedFor(text);
    assert Inbox.AsksFor(text, c);
    ghost var row := st.updates[m];
    var ok := Dispatch(st, m, user, Inbox.CommandOf(text), now, reply, answered, now);
    Inbox.MarkIsOneRow(st.updates, m, now, Inbox.Failed);
    if !ok {
      var _ := st.MarkTelegramUpdate(m, now, Inbox.Failed);
    }
  }

  // ---- The handler method and the handler process agree ----

  // Three moves of one handler process, the first with the given luck.
  function ThreeActs(s: Inbox.State, h: int, now: Instant, first: Inbox.Luck): Inbox.State {
    var s1 := Inbox.Next(s, Inbox.Act(h, now, first));
    var s2 := Inbox.Next(s1, Inbox.Act(h, now, Inbox.Fine));
    Inbox.Next(s2, Inbox.Act(h, now, Inbox.Fine))
  }

  // The handler of m at the start of its work, or at its failing end.
  predicate HandlerAt(s: Inbox.State, h: int, m: Inbox.Ident, now: Instant, point: Inbox.Point) {
    h in s.holders && s.holders[h].ident == m && s.holders[h].token == now && s.holders[h].point == point
  }

  ghost predicate RowHeld(rows: map<Inbox.Ident, Inbox.Row>, m: Inbox.Ident, now: Instant, status: Inbox.Status) {
    Inbox.Alone(rows, m) && m in rows && rows[m].status == status && rows[m].startedAt == now
  }

  // The handler is gone, and its row has the status.
  ghost predicate SettledAs(s: Inbox.State, s1: Inbox.State, h: int, m: Inbox.Ident, status: Inbox.Status) {
    m in s.rows && s1.rows == s.rows[m := s.rows[m].(status := status)] && s1.holders == s.holders - {h}
  }

  lemma FailingSettles(s: Inbox.State, h: int, m: Inbox.Ident, now: Instant, status: Inbox.Status)
    requires HandlerAt(s, h, m, now, Inbox.Failing) && RowHeld(s.rows, m, now, status) && status != Inbox.Failed
    ensures SettledAs(s, Inbox.Next(s, Inbox.Act(h, now, Inbox.Fine)), h, m,
                      if status == Inbox.Processing then Inbox.Failed else Inbox.Processed)
  {
    Inbox.MarkIsOneRow(s.rows, m, now, Inbox.Failed);
    hide Inbox.Mark, Inbox.Alone;
  }

  // The first move of a command that ends there, or goes on to fail.
  lemma FirstMove(s: Inbox.State, h: int, m: Inbox.Ident, now: Instant)
    requires HandlerAt(s, h, m, now, Inbox.Acting) && RowHeld(s.rows, m, now, Inbox.Processing)
    requires !s.holders[h].command.Answer?
    ensures var c, s1 := s.holders[h], Inbox.Next(s, Inbox.Act(h, now, Inbox.Fine));
            if StatusAfter(s.actions, c.user, c.command, true) == Inbox.Failed
            then s1 == Inbox.MoveTo(s, h, Inbox.Failing)
            else
              && s1.rows == s.rows[m := s.rows[m].(status := Inbox.Processed)]
              && s1.holders == (if c.command.NowNote? then s.holders[h := c.(point := Inbox.Enriching)]
                                else if c.command == Inbox.BadFinish(true) then s.holders[h := c.(point := Inbox.Marking)]
                                else s.holders - {h})
  {
    TransactMatches(s, h, m, now);
    Inbox.CommitShape(s, h, now, Inbox.Fine);
    hide Inbox.Transact, Inbox.CommitStep, StatusAfter, RowHeld;
  }

  // The transaction fails exactly if the command does, and otherwise marks the row.
  lemma TransactMatches(s: Inbox.State, h: int, m: Inbox.Ident, now: Instant)
    requires h in s.holders && s.holders[h].ident == m && s.holders[h].token == now && RowHeld(s.rows, m, now, Inbox.Processing)
    requires !s.holders[h].command.Answer?
    ensures var c, transacted := s.holders[h], Inbox.Transact(s, s.holders[h], now);
            && (transacted.None? <==> StatusAfter(s.actions, c.user, c.command, true) == Inbox.Failed)
            && (transacted.Some? ==>
                  && transacted.value.rows == s.rows[m := s.rows[m].(status := Inbox.Processed)]
                  && transacted.value.holders == s.holders)
  {
    Inbox.MarkIsOneRow(s.rows, m, now, Inbox.Processed);
    hide Inbox.Mark, Inbox.Alone;
  }

  lemma MarkingTwiceFails(s: Inbox.State, h: int, m: Inbox.Ident, now: Instant)
    requires HandlerAt(s, h, m, now, Inbox.Marking) && RowHeld(s.rows, m, now, Inbox.Processed)
    ensures Inbox.Next(s, Inbox.Act(h, now, Inbox.Fine)) == Inbox.MoveTo(s, h, Inbox.Failing)
  {
    Inbox.MarkIsOneRow(s.rows, m, now, Inbox.Processed);
    hide Inbox.Mark, Inbox.Alone;
  }

  lemma MarkingSettles(s: Inbox.State, h: int, m: Inbox.Ident, now: Instant)
    requires HandlerAt(s, h, m, now, Inbox.Marking) && RowHeld(s.rows, m, now, Inbox.Processing) && s.holders[h].command.Answer?
    ensures SettledAs(s, Inbox.Next(s, Inbox.Act(h, now, Inbox.Fine)), h, m, Inbox.Processed)
  {
    Inbox.MarkIsOneRow(s.rows, m, now, Inbox.Processed);
    hide Inbox.Mark, Inbox.Alone;
  }

  lemma GoneStays(s: Inbox.State, h: int, now: Instant)
    requires h !in s.holders
    ensures Inbox.Next(s, Inbox.Act(h, now, Inbox.Fine)) == s
  {
  }

  lemma AnswerMoves(s: Inbox.State, h: int, m: Inbox.Ident, now: Instant, answered: bool)
    requires HandlerAt(s, h, m, now, Inbox.Acting) && s.holders[h].command.Answer?
    ensures Inbox.Next(s, Inbox.Act(h, now, if answered then Inbox.Fine else Inbox.Lost))
         == Inbox.MoveTo(s, h, if answered then Inbox.Marking else Inbox.Failing)
  {
  }

  lemma EnrichingEnds(s: Inbox.State, h: int, m: Inbox.Ident, now: Instant)
    requires HandlerAt(s, h, m, now, Inbox.Enriching)
    ensures Inbox.Next(s, Inbox.Act(h, now, Inbox.Fine)) == Inbox.Drop(s, h)
  {
  }

  // The notes and actions that the command leaves, apart from a later enrichment.
  function NotesWritten(notes: map<int, Queue.Note>, id: int, user: int, c: Inbox.Command, now: Instant): map<int, Queue.Note> {
    match c
    case Capture(raw) => notes[id := Queue.Note(user, raw, None, [], Queue.Pending, now, None, None, None, 0)]
    case NowNote(raw) => notes[id := Queue.Note(user, raw, None, [], Queue.Processing, now, Some(now), None, None, 1)]
    case _ => notes
  }

  function ActionsWritten(actions: map<int, Action>, user: int, c: Inbox.Command): map<int, Action> {
    if c.Finish? && c.action in actions && actions[c.action].user == user && actions[c.action].open
    then actions[c.action := actions[c.action].(open := false)] else actions
  }

  lemma TransactWrites(s: Inbox.State, h: int, m: Inbox.Ident, now: Instant)
    requires h in s.holders && s.holders[h].ident == m && s.holders[h].token == now && RowHeld(s.rows, m, now, Inbox.Processing)
    requires !s.holders[h].command.Answer?
    ensures var c, transacted := s.holders[h], Inbox.Transact(s, s.holders[h], now);
            var s1 := if transacted.Some? then transacted.value else s;
            && s1.holders == s.holders
            && s1.notes == NotesWritten(s.notes, s.nextNote, c.user, c.command, now)
            && s1.actions == ActionsWritten(s.actions, c.user, c.command)
  {
    Inbox.MarkIsOneRow(s.rows, m, now, Inbox.Processed);
    hide Inbox.Mark, Inbox.Alone;
  }

  lemma FirstMoveWrites(s: Inbox.State, h: int, m: Inbox.Ident, now: Instant, first: Inbox.Luck)
    requires HandlerAt(s, h, m, now, Inbox.Acting) && RowHeld(s.rows, m, now, Inbox.Processing)
    requires s.holders[h].command.Answer? || first == Inbox.Fine
    ensures var c, s1 := s.holders[h], Inbox.Next(s, Inbox.Act(h, now, first));
            && s1.notes == NotesWritten(s.notes, s.nextNote, c.user, c.command, now)
            && s1.actions == ActionsWritten(s.actions, c.user, c.command)
            && Quiet(s1, h)
  {
    if s.holders[h].command.Answer? {
      hide RowHeld;
    } else {
      FirstTransactionWrites(s, h, m, now);
      hide *;
    }
  }

  lemma FirstTransactionWrites(s: Inbox.State, h: int, m: Inbox.Ident, now: Instant)
    requires HandlerAt(s, h, m, now, Inbox.Acting) && RowHeld(s.rows, m, now, Inbox.Processing)
    requires !s.holders[h].command.Answer?
    ensures var c, s1 := s.holders[h], Inbox.Next(s, Inbox.Act(h, now, Inbox.Fine));
            && s1.notes == NotesWritten(s.notes, s.nextNote, c.user, c.command, now)
            && s1.actions == ActionsWritten(s.actions, c.user, c.command)
            && Quiet(s1, h)
  {
    hide RowHeld, Inbox.CommitStep, NotesWritten, ActionsWritten, Inbox.DeliverStep, Inbox.RecordStep;
    CommitWrites(s, h, m, now);
  }

  lemma CommitWrites(s: Inbox.State, h: int, m: Inbox.Ident, now: Instant)
    requires HandlerAt(s, h, m, now, Inbox.Acting) && RowHeld(s.rows, m, now, Inbox.Processing)
    requires !s.holders[h].command.Answer?
    ensures var c, s1 := s.holders[h], Inbox.CommitStep(s, h, now, Inbox.Fine);
            && s1.notes == NotesWritten(s.notes, s.nextNote, c.user, c.command, now)
            && s1.actions == ActionsWritten(s.actions, c.user, c.command)
            && Quiet(s1, h)
  {
    hide RowHeld, Inbox.Transact, Inbox.CommitStep, NotesWritten, ActionsWritten;
    TransactWrites(s, h, m, now);
    Inbox.CommitShape(s, h, now, Inbox.Fine);
  }

  // The handler, if it is still there, has its own work behind it.
  predicate Quiet(s: Inbox.State, h: int) {
    h in s.holders ==> s.holders[h].point != Inbox.Acting && (s.holders[h].point == Inbox.Marking ==> !Inbox.Carries(s.holders[h].command))
  }

  lemma QuietTransaction(s: Inbox.State, c: Inbox.Holder, now: Instant)
    requires !Inbox.Carries(c.command)
    ensures var transacted := Inbox.Transact(s, c, now);
            transacted.Some? ==>
              transacted.value.notes == s.notes && transacted.value.actions == s.actions && transacted.value.holders == s.holders
  {
    hide Inbox.Mark;
  }

  lemma LaterMoveWritesNothing(s: Inbox.State, h: int, now: Instant)
    requires Quiet(s, h)
    ensures var s1 := Inbox.Next(s, Inbox.Act(h, now, Inbox.Fine)); s1.notes == s.notes && s1.actions == s.actions && Quiet(s1, h)
  {
    if h in s.holders {
      var c := s.holders[h];
      hide Inbox.Mark, Inbox.Transact, Inbox.CommitStep;
      if c.point == Inbox.Marking {
        QuietTransaction(s, c, now);
        Inbox.CommitShape(s, h, now, Inbox.Fine);
      }
    }
  }

  lemma ThreeActsWrite(s: Inbox.State, h: int, m: Inbox.Ident, now: Instant, first: Inbox.Luck)
    requires HandlerAt(s, h, m, now, Inbox.Acting) && RowHeld(s.rows, m, now, Inbox.Processing)
    requires s.holders[h].command.Answer? || first == Inbox.Fine
    ensures var c, s3 := s.holders[h], ThreeActs(s, h, now, first);
            && s3.notes == NotesWritten(s.notes, s.nextNote, c.user, c.command, now)
            && s3.actions == ActionsWritten(s.actions, c.user, c.command)
  {
    hide Inbox.Next, RowHeld, Quiet, NotesWritten, ActionsWritten;
    FirstMoveWrites(s, h, m, now, first);
    var s1 := Inbox.Next(s, Inbox.Act(h, now, first));
    LaterMoveWritesNothing(s1, h, now);
    LaterMoveWritesNothing(Inbox.Next(s1, Inbox.Act(h, now, Inbox.Fine)), h, now);
  }

  // Three moves of the process of Inbox settle the update exactly as the method HandleUpdate does,
  // and leave the same new note or closed action, but for the enrichment of a /now.
  lemma ProcessAgreesWithMethod(s: Inbox.State, h: int, m: Inbox.Ident, now: Instant, answered: bool)
    requires HandlerAt(s, h, m, now, Inbox.Acting) && RowHeld(s.rows, m, now, Inbox.Processing)
    ensures var c := s.holders[h];
            var first := if c.command.Answer? && !answered then Inbox.Lost else Inbox.Fine;
            && SettledAs(s, ThreeActs(s, h, now, first), h, m, StatusAfter(s.actions, c.user, c.command, answered))
            && ThreeActs(s, h, now, first).notes == NotesWritten(s.notes, s.nextNote, c.user, c.command, now)
            && ThreeActs(s, h, now, first).actions == ActionsWritten(s.actions, c.user, c.command)
  {
    hide Inbox.Next, Inbox.Alone, NotesWritten, ActionsWritten;
    var c := s.holders[h];
    ThreeActsWrite(s, h, m, now, if c.command.Answer? && !answered then Inbox.Lost else Inbox.Fine);
    if c.command.Answer? {
      AnswerMoves(s, h, m, now, answered);
      var s1 := Inbox.MoveTo(s, h, if answered then Inbox.Marking else Inbox.Failing);
      if answered {
        MarkingSettles(s1, h, m, now);
      } else {
        FailingSettles(s1, h, m, now, Inbox.Processing);
      }
      GoneStays(Inbox.Next(s1, Inbox.Act(h, now, Inbox.Fine)), h, now);
    } else {
      FirstMove(s, h, m, now);
      OtherMoves(s, Inbox.Next(s, Inbox.Act(h, now, Inbox.Fine)), h, m, now);
    }
  }

  lemma OtherMoves(s: Inbox.State, s1: Inbox.State, h: int, m: Inbox.Ident, now: Instant)
    requires HandlerAt(s, h, m, now, Inbox.Acting) && RowHeld(s.rows, m, now, Inbox.Processing) && !s.holders[h].command.Answer?
    requires var c := s.holders[h];
             if StatusAfter(s.actions, c.user, c.command, true) == Inbox.Failed then s1 == Inbox.MoveTo(s, h, Inbox.Failing)
             else
               && s1.rows == s.rows[m := s.rows[m].(status := Inbox.Processed)]
               && s1.holders == (if c.command.NowNote? then s.holders[h := c.(point := Inbox.Enriching)]
                                 else if c.command == Inbox.BadFinish(true) then s.holders[h := c.(point := Inbox.Marking)]
                                 else s.holders - {h})
    ensures var c := s.holders[h];
            var s2 := Inbox.Next(s1, Inbox.Act(h, now, Inbox.Fine));
            SettledAs(s, Inbox.Next(s2, Inbox.Act(h, now, Inbox.Fine)), h, m, StatusAfter(s.actions, c.user, c.command, true))
  {
    hide Inbox.Next;
    var c := s.holders[h];
    var s2 := Inbox.Next(s1, Inbox.Act(h, now, Inbox.Fine));
    if h !in s1.holders {
      GoneStays(s1, h, now);
    } else if s1.holders[h].point == Inbox.Failing {
      FailingSettles(s1, h, m, now, Inbox.Processing);
      GoneStays(s2, h, now);
    } else if c.command.NowNote? {
      EnrichingEnds(s1, h, m, now);
      GoneStays(s2, h, now);
    } else {
      MarkingTwiceFails(s1, h, m, now);
      FailingSettles(s2, h, m, now, Inbox.Processed);
    }
  }
}
