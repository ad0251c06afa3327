// internal/scheduler/daily.go and internal/scheduler/weekly.go in a zone with a fixed offset.
module Schedule {
  import opened Options
  import opened Weeks

  datatype Mode = PreviousWorkday | CurrentDay

  predicate IsWeekend(d: Day) {
    Weekday(d) == 6 || Weekday(d) == 0
  }

  // ---- The next daily run ----

  // An instant at which the mode runs: runAt after midnight, in previous-workday mode not on a weekend.
  predicate IsRun(t: Instant, runAt: int, zone: int, mode: Mode) {
    && t == Midnight(DayOf(t, zone), zone) + runAt
    && (mode == PreviousWorkday ==> !IsWeekend(DayOf(t, zone)))
  }

  // next is the least run instant strictly after now.
  ghost predicate IsNextRun(now: Instant, next: Instant, runAt: int, zone: int, mode: Mode) {
    && now < next && IsRun(next, runAt, zone, mode)
    && forall t :: now < t < next ==> !IsRun(t, runAt, zone, mode)
  }

  lemma RunDay(d: Day, runAt: int, zone: int)
    requires 0 <= runAt < DAY
    ensures DayOf(Midnight(d, zone) + runAt, zone) == d
  {
    DayHoldsInstant(Midnight(d, zone) + runAt, zone, d);
  }

  // No run lies strictly between now and the run time of day d if none of the days between has one.
  lemma NoRunBetween(now: Instant, d: Day, runAt: int, zone: int, mode: Mode)
    requires 0 <= runAt < DAY
    requires forall e :: DayOf(now, zone) <= e < d && now < Midnight(e, zone) + runAt ==> mode == PreviousWorkday && IsWeekend(e)
    ensures forall t :: now < t < Midnight(d, zone) + runAt ==> !IsRun(t, runAt, zone, mode)
  {
    forall t | now < t < Midnight(d, zone) + runAt ensures !IsRun(t, runAt, zone, mode) {
      var e := DayOf(t, zone);
      DayHoldsInstant(t, zone, e);
      DayHoldsInstant(now, zone, DayOf(now, zone));
    }
  }

  function DaysToMonday(d: Day): nat {
    (8 - Weekday(d)) % 7
  }

  lemma WeekendEnds(d: Day)
    requires IsWeekend(d)
    ensures DaysToMonday(d + 1) < DaysToMonday(d)
  {
  }

  method NextRun(now: Instant, runAt: int, zone: int, mode: Mode) returns (next: Instant)
    requires 0 <= runAt < DAY
    ensures IsNextRun(now, next, runAt, zone, mode)
  {
    hide DayOf, IsWeekend, Weekday;
    var today := DayOf(now, zone);
    ghost var d := today;
    DayHoldsInstant(now, zone, today);
    next := Midnight(today, zone) + runAt;
    if !(next > now) {
      next := next + DAY;
      d := d + 1;
    }
    RunDay(d, runAt, zone);
    if mode == PreviousWorkday {
      while IsWeekend(DayOf(next, zone))
        invariant next == Midnight(d, zone) + runAt && next > now && DayOf(next, zone) == d
        invariant forall e :: today <= e < d && now < Midnight(e, zone) + runAt ==> IsWeekend(e)
        decreases DaysToMonday(d)
      {
        WeekendEnds(d);
        next := next + DAY;
        d := d + 1;
        RunDay(d, runAt, zone);
      }
    }
    NoRunBetween(now, d, runAt, zone, mode);
  }

  // ---- The day that a run recaps ----

  // The source day, and whether the run is skipped for the weekend.
  function SourceDateForRun(run: Instant, mode: Mode, zone: int): (Day, bool) {
    var day := DayOf(run, zone);
    if mode == CurrentDay then (day, false)
    else if IsWeekend(day) then (day, true)
    else if Weekday(day) == 1 then (day - 3, false)
    else (day - 1, false)
  }

  // A run recaps the last workday before its own day.
  lemma SourceIsLastWorkday(run: Instant, runAt: int, zone: int)
    requires IsRun(run, runAt, zone, PreviousWorkday)
    ensures var (source, skipped) := SourceDateForRun(run, PreviousWorkday, zone);
            && !skipped && source < DayOf(run, zone) && !IsWeekend(source)
            && forall e :: source < e < DayOf(run, zone) ==> IsWeekend(e)
  {
    hide DayOf;
  }

  // The day that a trigger at any instant recaps: its own day, or in previous-workday mode the last
  // workday before; on a weekend that mode skips. Days 0 to 4 of each seven are Monday to Friday.
  lemma SourceOfEveryRun(run: Instant, mode: Mode, zone: int)
    ensures var (source, skipped) := SourceDateForRun(run, mode, zone);
            var day := DayOf(run, zone);
            match mode
            case CurrentDay => source == day && !skipped
            case PreviousWorkday =>
              && (skipped <==> day % 7 >= 5)
              && (!skipped ==> source < day && source % 7 < 5 && forall e :: source < e < day ==> e % 7 >= 5)
  {
    hide DayOf;
  }

  // A run made at now recaps the day of an earlier run r exactly if it is the run that follows r,
  // that is, if the scheduler came back before that run was due.
  lemma NextRunRecapsLast(r: Instant, now: Instant, next: Instant, runAt: int, zone: int)
    requires 0 <= runAt < DAY && IsRun(r, runAt, zone, PreviousWorkday) && r <= now
    requires IsNextRun(now, next, runAt, zone, PreviousWorkday)
    ensures SourceDateForRun(next, PreviousWorkday, zone) == (DayOf(r, zone), false)
            <==> IsNextRun(r, next, runAt, zone, PreviousWorkday)
  {
    SourceIsLastWorkday(next, runAt, zone);
    var source := SourceDateForRun(next, PreviousWorkday, zone).0;
    var d := DayOf(r, zone);
    DayHoldsInstant(r, zone, d);
    DayHoldsInstant(next, zone, DayOf(next, zone));
    RunDay(source, runAt, zone);
    hide SourceDateForRun, IsWeekend;
    assert d < DayOf(next, zone);
    if d == source {
      forall t | r < t < next ensures !IsRun(t, runAt, zone, PreviousWorkday) {
        DayHoldsInstant(t, zone, DayOf(t, zone));
      }
    } else {
      assert d < source;
      assert IsRun(Midnight(source, zone) + runAt, runAt, zone, PreviousWorkday);
    }
  }

  // Runs of a scheduler that is back before each next run is due.
  ghost predicate Successive(runs: seq<Instant>, runAt: int, zone: int) {
    && (forall i :: 0 <= i < |runs| ==> IsRun(runs[i], runAt, zone, PreviousWorkday))
    && (forall i :: 0 < i < |runs| ==> IsNextRun(runs[i - 1], runs[i], runAt, zone, PreviousWorkday))
  }

  function Source(run: Instant, zone: int): Day {
    SourceDateForRun(run, PreviousWorkday, zone).0
  }

  lemma {:induction false} RunsAscend(runs: seq<Instant>, runAt: int, zone: int, i: nat, j: nat)
    requires 0 <= runAt < DAY && Successive(runs, runAt, zone) && i <= j < |runs|
    ensures DayOf(runs[i], zone) + (j - i) <= DayOf(runs[j], zone)
    decreases j
  {
    if i < j {
      RunsAscend(runs, runAt, zone, i, j - 1);
      NextDayIsLater(runs[j - 1], runs[j], runAt, zone);
    }
  }

  lemma NextDayIsLater(r: Instant, next: Instant, runAt: int, zone: int)
    requires 0 <= runAt < DAY && IsRun(r, runAt, zone, PreviousWorkday) && IsNextRun(r, next, runAt, zone, PreviousWorkday)
    ensures DayOf(r, zone) < DayOf(next, zone)
  {
    DayHoldsInstant(r, zone, DayOf(r, zone));
    DayHoldsInstant(next, zone, DayOf(next, zone));
  }

  // Successive runs recap every workday exactly once: each workday from the first run's day up to
  // the last run's day is the source of exactly one run after the first.
  lemma EveryWorkdayOnce(runs: seq<Instant>, runAt: int, zone: int, d: Day)
    requires 0 <= runAt < DAY && runs != [] && Successive(runs, runAt, zone)
    requires DayOf(runs[0], zone) <= d < DayOf(runs[|runs| - 1], zone) && d % 7 < 5
    ensures exists i :: 0 < i < |runs| && Source(runs[i], zone) == d
    ensures forall i, j :: 0 < i < |runs| && 0 < j < |runs| && Source(runs[i], zone) == d == Source(runs[j], zone) ==> i == j
  {
    hide Source, IsNextRun, IsRun, DayOf, Successive;
    assert !IsWeekend(d);
    hide IsWeekend, Weekday;
    RunsRecapTheLast(runs, runAt, zone);
    var i := RunOnWorkday(runs, runAt, zone, d, |runs| - 1);
    assert Source(runs[i + 1], zone) == d;
    forall i, j | 0 < i < j < |runs| && Source(runs[i], zone) == Source(runs[j], zone) ensures false {
      RunsAscend(runs, runAt, zone, i - 1, j - 1);
    }
  }

  // Some run before run n falls on the workday d.
  lemma RunsRecapTheLast(runs: seq<Instant>, runAt: int, zone: int)
    requires 0 <= runAt < DAY && Successive(runs, runAt, zone)
    ensures forall i :: 0 < i < |runs| ==> Source(runs[i], zone) == DayOf(runs[i - 1], zone)
  {
    forall i | 0 < i < |runs| ensures Source(runs[i], zone) == DayOf(runs[i - 1], zone) {
      hide IsWeekend, DayOf;
      NextRunRecapsLast(runs[i - 1], runs[i - 1], runs[i], runAt, zone);
    }
  }

  lemma {:induction false} RunOnWorkday(runs: seq<Instant>, runAt: int, zone: int, d: Day, n: nat) returns (i: nat)
    requires 0 <= runAt < DAY && n < |runs| && Successive(runs, runAt, zone)
    requires DayOf(runs[0], zone) <= d < DayOf(runs[n], zone) && !IsWeekend(d)
    ensures i < n && DayOf(runs[i], zone) == d
    decreases n
  {
    var last := DayOf(runs[n - 1], zone);
    if d < last {
      i := RunOnWorkday(runs, runAt, zone, d, n - 1);
    } else {
      i := n - 1;
      if d > last {
        NextRunRecapsLast(runs[n - 1], runs[n - 1], runs[n], runAt, zone);
        SourceIsLastWorkday(runs[n], runAt, zone);
      }
    }
  }

  // ---- The next weekly run ----

  predicate IsWeeklyRun(t: Instant, runAt: int, zone: int) {
    t == Midnight(DayOf(t, zone), zone) + runAt && Weekday(DayOf(t, zone)) == 1
  }

  // Runs read off the local clock: the time of day is runAt, on Monday to Friday if weekends are
  // left out, and for a weekly run on Monday. Local time starts on a Monday.
  lemma RunsReadOffTheClock(t: Instant, runAt: int, zone: int)
    requires 0 <= runAt < 86_400_000_000_000
    ensures var clock, day := (t + zone) % 86_400_000_000_000, (t + zone) / 86_400_000_000_000;
            && (IsRun(t, runAt, zone, CurrentDay) <==> clock == runAt)
            && (IsRun(t, runAt, zone, PreviousWorkday) <==> clock == runAt && day % 7 < 5)
            && (IsWeeklyRun(t, runAt, zone) <==> clock == runAt && day % 7 == 0)
  {
    DayHoldsInstant(t, zone, DayOf(t, zone));
  }

  ghost predicate IsNextWeeklyRun(now: Instant, next: Instant, runAt: int, zone: int) {
    now < next && IsWeeklyRun(next, runAt, zone) && forall t :: now < t < next ==> !IsWeeklyRun(t, runAt, zone)
  }

  method NextWeeklyRun(now: Instant, runAt: int, zone: int) returns (next: Instant)
    requires 0 <= runAt < DAY
    ensures IsNextWeeklyRun(now, next, runAt, zone)
  {
    var today := DayOf(now, zone);
    var base := Midnight(today, zone) + runAt;
    RunDay(today, runAt, zone);
    var wd := (Weekday(DayOf(base, zone)) + 6) % 7;
    next := base - wd * DAY;
    ghost var d := today - wd;
    if !(next > now) {
      next := next + 7 * DAY;
      d := d + 7;
    }
    DayHoldsInstant(now, zone, today);
    assert next == Midnight(d, zone) + runAt;
    RunDay(d, runAt, zone);
    MondayRunIsNext(now, d, runAt, zone);
  }

  lemma MondayRunIsNext(now: Instant, d: Day, runAt: int, zone: int)
    requires 0 <= runAt < DAY && Weekday(d) == 1
    requires now < Midnight(d, zone) + runAt && Midnight(d - 7, zone) + runAt <= now
    ensures IsNextWeeklyRun(now, Midnight(d, zone) + runAt, runAt, zone)
  {
    RunDay(d, runAt, zone);
    forall t | now < t < Midnight(d, zone) + runAt ensures !IsWeeklyRun(t, runAt, zone) {
      NoRunWithinWeek(t, d, runAt, zone);
    }
  }

  lemma NoRunWithinWeek(t: Instant, d: Day, runAt: int, zone: int)
    requires 0 <= runAt < DAY && Weekday(d) == 1
    requires Midnight(d - 7, zone) + runAt < t < Midnight(d, zone) + runAt
    ensures !IsWeeklyRun(t, runAt, zone)
  {
    DayHoldsInstant(t, zone, DayOf(t, zone));
  }

  // The weekly run that follows r summarizes the week that r lies in, so successive weekly runs
  // cover every week once.
  lemma NextWeeklyRunCoversWeek(r: Instant, next: Instant, runAt: int, zone: int)
    requires 0 <= runAt < DAY && IsWeeklyRun(r, runAt, zone) && IsNextWeeklyRun(r, next, runAt, zone)
    ensures ResolvePreviousCompletedWeek(next, zone) == ResolveContainingWeek(r, zone)
    ensures ResolveContainingWeek(next, zone).start == ResolveContainingWeek(r, zone).exclusiveEnd
  {
    hide *;
    var d := DayOf(r, zone);
    NextRunIsAWeekLater(r, next, runAt, zone);
    MondayStartsItsWeek(d);
    MondayStartsItsWeek(d + 7);
    WeekStarts(r, next, zone, d);
  }

  lemma WeekStarts(r: Instant, next: Instant, zone: int, d: Day)
    requires DayOf(r, zone) == d && DayOf(next, zone) == d + 7 && MondayOf(d) == d && MondayOf(d + 7) == d + 7
    ensures ResolvePreviousCompletedWeek(next, zone) == ResolveContainingWeek(r, zone)
    ensures ResolveContainingWeek(next, zone).start == ResolveContainingWeek(r, zone).exclusiveEnd
  {
    hide ScopeKey, ResolveContainingWeek, ResolvePreviousCompletedWeek, DayOf, MondayOf;
    WeekIs(r, zone, d);
    WeekIs(next, zone, d + 7);
    PreviousWeekIs(next, zone, d + 7);
  }

  lemma NextRunIsAWeekLater(r: Instant, next: Instant, runAt: int, zone: int)
    requires 0 <= runAt < DAY && IsWeeklyRun(r, runAt, zone) && IsNextWeeklyRun(r, next, runAt, zone)
    ensures DayOf(next, zone) == DayOf(r, zone) + 7 && Weekday(DayOf(r, zone)) == 1 && Weekday(DayOf(next, zone)) == 1
  {
    var d, e := DayOf(r, zone), DayOf(next, zone);
    RunDay(d + 7, runAt, zone);
    assert Weekday(d + 7) == 1;
    hide DayOf;
    assert IsWeeklyRun(Midnight(d + 7, zone) + runAt, runAt, zone);
    assert next <= Midnight(d + 7, zone) + runAt;
    MondaysAreAWeekApart(d, e);
  }

  lemma MondayStartsItsWeek(d: Day)
    requires Weekday(d) == 1
    ensures MondayOf(d) == d
  {
  }

  lemma MondaysAreAWeekApart(d: Day, e: Day)
    requires Weekday(d) == 1 && Weekday(e) == 1 && d < e
    ensures e >= d + 7
  {
  }

  // ---- Sending ----

  // How the calls made for one user end: the user's id, whether the check succeeds, the notes
  // found, and whether the message and its record go through.
  datatype Fate = Fate(user: Option<int>, checked: bool, notes: Option<nat>, sent: bool, recorded: bool)

  datatype Ledger = Ledger(sent: map<(int, Day), nat>, recorded: set<(int, Day)>, unrecorded: map<(int, Day), nat>)

  function Count(m: map<(int, Day), nat>, k: (int, Day)): nat {
    if k in m then m[k] else 0
  }

  function SendOne(l: Ledger, day: Day, f: Fate): Ledger {
    if f.user.None? || !f.checked || (f.user.value, day) in l.recorded || f.notes.None? || f.notes.value == 0 || !f.sent then l
    else
      var k := (f.user.value, day);
      var l1 := l.(sent := l.sent[k := Count(l.sent, k) + 1]);
      if f.recorded then l1.(recorded := l1.recorded + {k})
      else l1.(unrecorded := l1.unrecorded[k := Count(l1.unrecorded, k) + 1])
  }

  function SendAll(l: Ledger, day: Day, fates: seq<Fate>): Ledger {
    if fates == [] then l else SendOne(SendAll(l, day, fates[..|fates| - 1]), day, fates[|fates| - 1])
  }

  // One trigger of the scheduler: the run, and how the calls end for each user reached before
  // the scheduler is cancelled.
  datatype Trigger = Trigger(run: Instant, fates: seq<Fate>)

  function Triggered(l: Ledger, t: Trigger, mode: Mode, zone: int): Ledger {
    var (day, weekend) := SourceDateForRun(t.run, mode, zone);
    if weekend then l else SendAll(l, day, t.fates)
  }

  function AllTriggered(l: Ledger, ts: seq<Trigger>, mode: Mode, zone: int): Ledger {
    if ts == [] then l else Triggered(AllTriggered(l, ts[..|ts| - 1], mode, zone), ts[|ts| - 1], mode, zone)
  }

  class DailySummary {
    var sent: map<(int, Day), nat>
    var recorded: set<(int, Day)>
    var unrecorded: map<(int, Day), nat>
    const zone: int
    const mode: Mode

    constructor (zone: int, mode: Mode)
      ensures this.zone == zone && this.mode == mode && View() == Ledger(map[], {}, map[])
    {
      this.zone, this.mode := zone, mode;
      sent, recorded, unrecorded := map[], {}, map[];
    }

    function View(): Ledger
      reads this
    {
      Ledger(sent, recorded, unrecorded)
    }

    method SendForAll(run: Instant, fates: seq<Fate>)
      modifies `sent, `recorded, `unrecorded
      ensures View() == Triggered(old(View()), Trigger(run, fates), mode, zone)
    {
      var (day, weekend) := SourceDateForRun(run, mode, zone);
      if weekend {
        return;
      }
      for i := 0 to |fates|
        invariant View() == SendAll(old(View()), day, fates[..i])
      {
        assert fates[..i + 1][..i] == fates[..i];
        var f := fates[i];
        if f.user == None {
          continue;
        }
        var k := (f.user.value, day);
        if !f.checked || k in recorded {
          continue;
        }
        if f.notes == None || f.notes == Some(0) {
          continue;
        }
        if !f.sent {
          continue;
        }
        sent := sent[k := Count(sent, k) + 1];
        if !f.recorded {
          unrecorded := unrecorded[k := Count(unrecorded, k) + 1];
          continue;
        }
        recorded := recorded + {k};
      }
      assert fates[..|fates|] == fates;
    }
  }

  // Sends of a user's day are those that were not recorded, and one more if one was.
  ghost predicate Balanced(l: Ledger) {
    forall k :: Count(l.sent, k) == Count(l.unrecorded, k) + (if k in l.recorded then 1 else 0)
  }

  lemma {:induction false} SendAllKeepsBalance(l: Ledger, day: Day, fates: seq<Fate>)
    requires Balanced(l)
    ensures Balanced(SendAll(l, day, fates))
  {
    if fates != [] {
      SendAllKeepsBalance(l, day, fates[..|fates| - 1]);
    }
  }

  // Over all triggers, sends per user and day never exceed one plus the failed send records.
  lemma {:induction false} SendsAreBounded(ts: seq<Trigger>, mode: Mode, zone: int)
    ensures var l := AllTriggered(Ledger(map[], {}, map[]), ts, mode, zone);
            && Balanced(l)
            && forall k :: Count(l.sent, k) <= 1 + Count(l.unrecorded, k)
  {
    if ts != [] {
      hide SourceDateForRun;
      var n := |ts| - 1;
      SendsAreBounded(ts[..n], mode, zone);
      var l := AllTriggered(Ledger(map[], {}, map[]), ts[..n], mode, zone);
      SendAllKeepsBalance(l, SourceDateForRun(ts[n].run, mode, zone).0, ts[n].fates);
    }
  }

  // The trigger says nothing of the user.
  predicate Unreached(fates: seq<Fate>, user: int) {
    forall i :: 0 <= i < |fates| ==> fates[i].user != Some(user)
  }

  predicate SameAt(m: map<(int, Day), nat>, m1: map<(int, Day), nat>, k: (int, Day)) {
    (k in m1 <==> k in m) && (k in m ==> m1[k] == m[k])
  }

  predicate OneMoreAt(m: map<(int, Day), nat>, m1: map<(int, Day), nat>, k: (int, Day)) {
    k in m1 && m1[k] == if k in m then m[k] + 1 else 1
  }

  // What the ledgers hold under one key.
  predicate SameEntry(l: Ledger, l1: Ledger, k: (int, Day)) {
    SameAt(l.sent, l1.sent, k) && SameAt(l.unrecorded, l1.unrecorded, k) && (k in l1.recorded <==> k in l.recorded)
  }

  lemma {:induction false} OthersKeepEntry(l: Ledger, day: Day, fates: seq<Fate>, k: (int, Day))
    requires k.1 != day || Unreached(fates, k.0)
    ensures SameEntry(l, SendAll(l, day, fates), k)
  {
    if fates != [] {
      OthersKeepEntry(l, day, fates[..|fates| - 1], k);
      assert k.1 == day ==> fates[|fates| - 1].user != Some(k.0);
    }
  }

  // The user's summary goes out: the check succeeds and finds no record, there are notes, and the
  // message goes through.
  predicate Goes(l: Ledger, day: Day, f: Fate) {
    match f
    case Fate(Some(user), true, Some(notes), true, _) => notes > 0 && (user, day) !in l.recorded
    case _ => false
  }

  // The entry under k after one more send, recorded or not.
  predicate OneMore(l: Ledger, l1: Ledger, k: (int, Day), recorded: bool) {
    && OneMoreAt(l.sent, l1.sent, k)
    && (k in l1.recorded <==> k in l.recorded || recorded)
    && (if recorded then SameAt(l.unrecorded, l1.unrecorded, k) else OneMoreAt(l.unrecorded, l1.unrecorded, k))
  }

  lemma {:induction false} ReachedOnce(l: Ledger, day: Day, fates: seq<Fate>, i: nat, user: int)
    requires i < |fates| && fates[i].user == Some(user) && forall j :: 0 <= j < |fates| && j != i ==> fates[j].user != Some(user)
    ensures if Goes(l, day, fates[i]) then OneMore(l, SendAll(l, day, fates), (user, day), fates[i].recorded)
            else SameEntry(l, SendAll(l, day, fates), (user, day))
    decreases |fates|
  {
    var n := |fates| - 1;
    var before := SendAll(l, day, fates[..n]);
    if i == n {
      OthersKeepEntry(l, day, fates[..n], (user, day));
    } else {
      ReachedOnce(l, day, fates[..n], i, user);
      assert fates[n].user != Some(user);
    }
  }

  // What one trigger does for a user whom it reaches once: exactly one message for the source day
  // if the summary goes out, recorded if the record goes through; nothing on a skipped day or
  // otherwise. Nothing changes for a user whom it does not reach, or for any other day.
  lemma TriggerServesEachOnce(l: Ledger, t: Trigger, mode: Mode, zone: int, i: nat, user: int, k: (int, Day))
    requires i < |t.fates| && t.fates[i].user == Some(user)
    requires forall j :: 0 <= j < |t.fates| && j != i ==> t.fates[j].user != Some(user)
    ensures var (day, skipped) := SourceDateForRun(t.run, mode, zone);
            var l1 := Triggered(l, t, mode, zone);
            && (if !skipped && Goes(l, day, t.fates[i]) then OneMore(l, l1, (user, day), t.fates[i].recorded)
                else SameEntry(l, l1, (user, day)))
            && (k.1 != day || Unreached(t.fates, k.0) ==> SameEntry(l, l1, k))
  {
    hide SourceDateForRun, SendAll;
    var (day, skipped) := SourceDateForRun(t.run, mode, zone);
    ReachedOnce(l, day, t.fates, i, user);
    if k.1 != day || Unreached(t.fates, k.0) {
      OthersKeepEntry(l, day, t.fates, k);
    }
  }
}
