// internal/domain/periods/week.go: Monday-to-Sunday weeks in a zone with a fixed offset, and
// their scope keys by ISO 8601:2004, section 4.1.4.
module Weeks {
  import opened Options
  import opened Text

  // Nanoseconds, and days counted from Monday, 1 January of year 1.
  type Instant = int
  type Day = int

  const DAY := 86_400_000_000_000

  function DayOf(t: Instant, zone: int): Day {
    (t + zone) / DAY
  }

  function Midnight(d: Day, zone: int): Instant {
    d * DAY - zone
  }

  // time.Weekday, with Sunday as 0.
  function Weekday(d: Day): int {
    (d + 1) % 7
  }

  lemma DayHoldsInstant(t: Instant, zone: int, d: Day)
    ensures DayOf(t, zone) == d <==> Midnight(d, zone) <= t < Midnight(d + 1, zone)
  {
  }

  // ---- The Gregorian calendar ----

  function Floor(y: int, k: int): int
    requires k > 0
  {
    y / k
  }

  predicate Divides(k: int, y: int)
    requires k > 0
  {
    y % k == 0
  }

  // Days before 1 January of year y.
  function DaysBefore(y: int): int {
    365 * (y - 1) + Floor(y - 1, 4) - Floor(y - 1, 100) + Floor(y - 1, 400)
  }

  predicate IsLeap(y: int) {
    Divides(4, y) && (!Divides(100, y) || Divides(400, y))
  }

  lemma YearLength(y: int)
    ensures DaysBefore(y + 1) - DaysBefore(y) == if IsLeap(y) then 366 else 365
  {
    hide Floor, Divides;
    FloorStep(y, 4);
    FloorStep(y, 100);
    FloorStep(y, 400);
    MultiplesNest(y);
  }

  lemma MultiplesNest(y: int)
    ensures Divides(400, y) ==> Divides(100, y)
    ensures Divides(100, y) ==> Divides(4, y)
  {
    if Divides(400, y) { FloorIs(y, 100, 4 * (y / 400), 0); }
    if Divides(100, y) { FloorIs(y, 4, 25 * (y / 100), 0); }
  }

  lemma FloorStep(y: int, k: int)
    requires k > 1
    ensures Floor(y, k) - Floor(y - 1, k) == if Divides(k, y) then 1 else 0
  {
    var q, r := y / k, y % k;
    assert y == q * k + r;
    if r == 0 {
      FloorIs(y - 1, k, q - 1, k - 1);
    } else {
      FloorIs(y - 1, k, q, r - 1);
    }
  }

  lemma FloorIs(y: int, k: int, q: int, r: int)
    requires k > 0 && y == q * k + r && 0 <= r < k
    ensures Floor(y, k) == q && y / k == q && y % k == r
  {
    var d := y / k - q;
    assert y == (y / k) * k + y % k;
    assert d * k == r - y % k;
    MultipleIsFar(d, k);
  }

  lemma MultipleIsFar(d: int, k: int)
    requires k > 0
    ensures d >= 1 ==> d * k >= k
    ensures d <= -1 ==> d * k <= -k
  {
  }

  // The full cycles of 100, 4 and 1 years in a part of a 400-year cycle, and the days that are left.
  datatype Parts = Parts(n100: int, n4: int, n1: int, rest: int)

  function PartsOf(d400: int): Parts {
    var n100 := if d400 / 36524 == 4 then 3 else d400 / 36524;
    var d100 := d400 - 36524 * n100;
    var n4, d4 := d100 / 1461, d100 % 1461;
    var n1 := if d4 / 365 == 4 then 3 else d4 / 365;
    Parts(n100, n4, n1, d4 - 365 * n1)
  }

  // The year that a day falls into, by cycles of 400, 100, 4 and 1 years.
  function YearOf(d: Day): int {
    var p := PartsOf(d % 146097);
    400 * (d / 146097) + 100 * p.n100 + 4 * p.n4 + p.n1 + 1
  }

  lemma {:induction false} YearsAscend(y: int, z: int)
    requires y <= z
    ensures DaysBefore(y) + 365 * (z - y) <= DaysBefore(z)
    decreases z - y
  {
    if y < z {
      YearsAscend(y, z - 1);
      YearLength(z - 1);
    }
  }

  lemma CycleShift(n: int, c: int)
    ensures DaysBefore(400 * n + c + 1) == 146097 * n + DaysBefore(c + 1)
  {
    hide Floor;
    FloorShifts(c, 4, 100 * n);
    FloorShifts(c, 100, 4 * n);
    FloorShifts(c, 400, n);
  }

  lemma FloorShifts(c: int, k: int, n: int)
    requires k > 0
    ensures Floor(n * k + c, k) == n + Floor(c, k)
  {
    FloorIs(n * k + c, k, n + c / k, c % k);
  }

  lemma DaysInCycle(n100: int, n4: int, n1: int)
    requires 0 <= n100 <= 3 && 0 <= n4 <= 24 && 0 <= n1 <= 3
    ensures DaysBefore(100 * n100 + 4 * n4 + n1 + 1) == 36524 * n100 + 1461 * n4 + 365 * n1
  {
    hide Floor;
    var c := 100 * n100 + 4 * n4 + n1;
    FloorIs(c, 4, 25 * n100 + n4, n1);
    FloorIs(c, 100, n100, 4 * n4 + n1);
    FloorIs(c, 400, 0, c);
  }

  // YearOf gives the one year whose days include d.
  lemma YearHoldsDay(d: Day, y: int)
    ensures YearOf(d) == y <==> DaysBefore(y) <= d < DaysBefore(y + 1)
    ensures DaysBefore(1) == 0
  {
    YearOfHolds(d);
    var z := YearOf(d);
    if y < z { YearsAscend(y + 1, z); }
    if z < y { YearsAscend(z + 1, y); }
  }

  lemma YearOfHolds(d: Day)
    ensures DaysBefore(YearOf(d)) <= d < DaysBefore(YearOf(d) + 1)
  {
    var n400, p := d / 146097, PartsOf(d % 146097);
    var c := 100 * p.n100 + 4 * p.n4 + p.n1;
    PartsAddUp(d % 146097);
    hide DaysBefore, PartsOf;
    CycleShift(n400, c);
    DaysInCycle(p.n100, p.n4, p.n1);
    CycleEnd(n400, p.n100, p.n4, p.n1, p.rest);
    assert YearOf(d) == 400 * n400 + c + 1;
  }

  lemma PartsAddUp(d400: int)
    requires 0 <= d400 < 146097
    ensures var p := PartsOf(d400);
            && 0 <= p.n100 <= 3 && 0 <= p.n4 <= 24 && 0 <= p.n1 <= 3 && 0 <= p.rest
            && (p.rest < 365 || (p.rest == 365 && p.n1 == 3 && (p.n4 < 24 || p.n100 == 3)))
            && d400 == 36524 * p.n100 + 1461 * p.n4 + 365 * p.n1 + p.rest
  {
  }

  lemma CycleEnd(n400: int, n100: int, n4: int, n1: int, rest: int)
    requires 0 <= n100 <= 3 && 0 <= n4 <= 24 && 0 <= n1 <= 3 && 0 <= rest
    requires rest < 365 || (rest == 365 && n1 == 3 && (n4 < 24 || n100 == 3))
    ensures var y := 400 * n400 + 100 * n100 + 4 * n4 + n1 + 1; rest < DaysBefore(y + 1) - DaysBefore(y)
  {
    var y := 400 * n400 + 100 * n100 + 4 * n4 + n1 + 1;
    YearLength(y);
    hide DaysBefore;
    if rest == 365 {
      FloorIs(y, 4, 100 * n400 + 25 * n100 + n4 + 1, 0);
      if n4 < 24 {
        FloorIs(y, 100, 4 * n400 + n100, 4 * n4 + 4);
      } else {
        FloorIs(y, 400, n400 + 1, 0);
      }
    }
  }

  // ---- ISO week dates ----

  function MondayOf(d: Day): Day {
    d - (Weekday(d) + 6) % 7
  }

  // The year of the week's Thursday, and the week's number in it.
  function IsoYear(d: Day): int {
    YearOf(MondayOf(d) + 3)
  }

  function IsoWeek(d: Day): int {
    (MondayOf(d) + 3 - DaysBefore(IsoYear(d))) / 7 + 1
  }

  // The Monday of week w of year y: week 1 is the week of 4 January.
  function WeekStart(y: int, w: int): Day {
    MondayOf(DaysBefore(y) + 3) + 7 * (w - 1)
  }

  function TwoDigits(n: nat): string {
    if n < 10 then "0" + Decimal(n) else Decimal(n)
  }

  function ScopeKey(d: Day): string {
    Signed(IsoYear(d)) + "-W" + if IsoWeek(d) >= 0 then TwoDigits(IsoWeek(d)) else Signed(IsoWeek(d))
  }

  // The week date of a Monday leads back to it.
  lemma WeekDateRoundTrip(d: Day)
    ensures WeekStart(IsoYear(d), IsoWeek(d)) == MondayOf(d)
    ensures 1 <= IsoWeek(d) <= 53
  {
    hide DaysBefore, YearOf, MondayOf;
    var t := MondayOf(d) + 3;
    YearHoldsDay(t, YearOf(t));
    YearLength(YearOf(t));
    ThursdayOf(d);
    ThursdayWeek(t, DaysBefore(IsoYear(d)));
  }

  lemma ThursdayOf(d: Day)
    ensures (MondayOf(d) + 3) % 7 == 3
  {
  }

  // Thursday t of the year of at most 366 days that starts with day first.
  lemma ThursdayWeek(t: int, first: int)
    requires t % 7 == 3 && first <= t < first + 366
    ensures MondayOf(first + 3) + 7 * ((t - first) / 7) == t - 3 && 0 <= (t - first) / 7 <= 52
  {
  }

  // The days from Monday m to Sunday that lie in year y.
  function DaysInYear(m: Day, y: int): set<Day> {
    set d: Day | m <= d < m + 7 && LiesIn(d, y)
  }

  predicate LiesIn(d: Day, y: int) { DaysBefore(y) <= d < DaysBefore(y + 1) }

  lemma {:induction false} IntervalSize(s: set<int>, lo: int, hi: int)
    requires lo <= hi && forall k :: k in s <==> lo <= k < hi
    ensures |s| == hi - lo
    decreases hi - lo
  {
    if lo < hi {
      assert forall k :: k in s - {lo} <==> lo + 1 <= k < hi;
      IntervalSize(s - {lo}, lo + 1, hi);
    } else {
      assert forall k :: k !in s;
      assert s == {};
    }
  }

  // A week has four days or more in a year exactly if its Thursday lies there.
  lemma MostDaysHoldThursday(m: Day, y: int)
    ensures |DaysInYear(m, y)| >= 4 <==> LiesIn(m + 3, y)
  {
    YearLength(y);
    hide DaysBefore;
    var first, after := DaysBefore(y), DaysBefore(y + 1);
    var lo, hi := if first < m then m else first, if after > m + 7 then m + 7 else after;
    if lo <= hi {
      IntervalSize(DaysInYear(m, y), lo, hi);
    } else {
      assert DaysInYear(m, y) == {};
    }
  }

  // The year of a week is the one that holds most of its days, and its weeks run from its first
  // week up to the first week of the next year.
  lemma IsoYearHoldsMostDays(d: Day, y: int)
    ensures IsoYear(d) == y <==> |DaysInYear(MondayOf(d), y)| >= 4
    ensures WeekStart(IsoYear(d), 1) <= MondayOf(d) < WeekStart(IsoYear(d) + 1, 1)
  {
    var m := MondayOf(d);
    YearHoldsDay(m + 3, y);
    MostDaysHoldThursday(m, y);
    YearHoldsDay(m + 3, IsoYear(d));
    ThursdayOf(d);
    hide DaysBefore, YearOf, MondayOf;
    ThursdayBetween(m + 3, DaysBefore(IsoYear(d)), DaysBefore(IsoYear(d) + 1));
  }

  lemma ThursdayBetween(t: int, first: int, after: int)
    requires t % 7 == 3 && first <= t < after
    ensures MondayOf(first + 3) <= t - 3 < MondayOf(after + 3)
  {
  }

  // A scope key is the year, "-W" and the number of the week in two digits.
  lemma ScopeKeyReads(d: Day)
    ensures |ScopeKey(d)| >= 5
    ensures var key := ScopeKey(d);
            var n := |key| - 4;
            && key[n..n + 2] == "-W"
            && Digits(key[n + 2..]) == Some(IsoWeek(d))
            && (IsoYear(d) >= 0 ==> Digits(key[..n]) == Some(IsoYear(d)))
            && (IsoYear(d) < 0 ==> key[0] == '-' && Digits(key[1..n]) == Some(-IsoYear(d)))
  {
    WeekDateRoundTrip(d);
    hide IsoYear, IsoWeek, MondayOf, WeekStart;
    var y, w := Signed(IsoYear(d)), TwoDigits(IsoWeek(d));
    TwoDigitsRead(IsoWeek(d));
    DigitsOfDecimal(if IsoYear(d) < 0 then -IsoYear(d) else IsoYear(d));
    assert IsoYear(d) < 0 ==> y[1..] == Decimal(-IsoYear(d));
    hide TwoDigits, Decimal, Digits;
    var key := y + "-W" + w;
    assert key[..|y|] == y && key[|y|..|y| + 2] == "-W" && key[|y| + 2..] == w && key[1..|y|] == y[1..];
  }

  lemma TwoDigitsRead(n: nat)
    requires n < 100
    ensures |TwoDigits(n)| == 2 && Digits(TwoDigits(n)) == Some(n)
  {
    DigitsOfDecimal(n);
    if n < 10 {
      assert TwoDigits(n)[..1] == "0" && "0"[..0] == "";
    } else {
      assert Decimal(n) == Decimal(n / 10) + [Digit(n % 10)];
    }
  }

  lemma TwoDigitsAreInjective(a: nat, b: nat)
    requires a < 100 && b < 100
    ensures |TwoDigits(a)| == 2
    ensures TwoDigits(a) == TwoDigits(b) ==> a == b
  {
    DigitsOfDecimal(a);
    DigitsOfDecimal(b);
    assert a < 10 ==> TwoDigits(a)[1..] == Decimal(a);
    assert b < 10 ==> TwoDigits(b)[1..] == Decimal(b);
    assert a >= 10 ==> TwoDigits(a)[0] == Digit(a / 10) && Digit(a / 10) != '0';
    assert b >= 10 ==> TwoDigits(b)[0] == Digit(b / 10) && Digit(b / 10) != '0';
  }

  lemma KeyParts(y: string, w: string, y1: string, w1: string)
    requires |w| == 2 && |w1| == 2 && y + "-W" + w == y1 + "-W" + w1
    ensures y == y1 && w == w1
  {
    var k, k1 := y + "-W" + w, y1 + "-W" + w1;
    assert |k| == |y| + 4 && |k1| == |y1| + 4;
    assert k[..|y|] == y && k1[..|y1|] == y1;
    assert k[|y| + 2..] == w && k1[|y1| + 2..] == w1;
  }

  // Two days share a scope key exactly if they lie in one Monday-to-Sunday week.
  lemma ScopeKeyIsInjective(a: Day, b: Day)
    ensures ScopeKey(a) == ScopeKey(b) <==> MondayOf(a) == MondayOf(b)
  {
    if MondayOf(a) == MondayOf(b) {
      hide YearOf, DaysBefore, TwoDigits, Signed, MondayOf;
      assert IsoYear(a) == IsoYear(b) && IsoWeek(a) == IsoWeek(b);
    } else {
      SameKeySameWeek(a, b);
    }
  }

  lemma SameKeySameWeek(a: Day, b: Day)
    ensures ScopeKey(a) == ScopeKey(b) ==> MondayOf(a) == MondayOf(b)
  {
    hide IsoYear, IsoWeek, TwoDigits, Signed, MondayOf, WeekStart;
    WeekDateRoundTrip(a);
    WeekDateRoundTrip(b);
    TwoDigitsAreInjective(IsoWeek(a), IsoWeek(b));
    TwoDigitsAreInjective(IsoWeek(b), IsoWeek(a));
    if ScopeKey(a) == ScopeKey(b) {
      KeyParts(Signed(IsoYear(a)), TwoDigits(IsoWeek(a)), Signed(IsoYear(b)), TwoDigits(IsoWeek(b)));
      SignedIsInjective(IsoYear(a), IsoYear(b));
    }
  }

  // ---- Resolving weeks ----

  datatype Week = Week(start: Instant, endDate: Instant, exclusiveEnd: Instant, scopeKey: string)

  function ResolveContainingWeek(anchor: Instant, zone: int): Week {
    var today := DayOf(anchor, zone);
    var daysSinceMonday := (Weekday(today) + 6) % 7;
    var weekStart := today - daysSinceMonday;
    Week(Midnight(weekStart, zone), Midnight(weekStart + 6, zone), Midnight(weekStart + 7, zone), ScopeKey(weekStart))
  }

  function ResolvePreviousCompletedWeek(now: Instant, zone: int): Week {
    var current := ResolveContainingWeek(now, zone);
    ResolveContainingWeek(Midnight(DayOf(current.start, zone) - 1, zone), zone)
  }

  predicate Within(t: Instant, w: Week) {
    w.start <= t < w.exclusiveEnd
  }

  lemma MondayIsWeekStart(d: Day, m: Day)
    ensures MondayOf(d) == m <==> m % 7 == 0 && m <= d < m + 7
  {
  }

  lemma WeekHoldsDay(anchor: Instant, zone: int, t: Instant)
    ensures Within(t, ResolveContainingWeek(anchor, zone)) <==> MondayOf(DayOf(t, zone)) == MondayOf(DayOf(anchor, zone))
  {
    var m := MondayOf(DayOf(anchor, zone));
    MondayIsWeekStart(DayOf(anchor, zone), m);
    MondayIsWeekStart(DayOf(t, zone), m);
    DayHoldsInstant(t, zone, DayOf(t, zone));
    assert Midnight(m, zone) <= t <==> m <= DayOf(t, zone);
    assert t < Midnight(m + 7, zone) <==> DayOf(t, zone) < m + 7;
  }

  // Weeks partition time: the instants of a resolved week are exactly those that resolve to it,
  // and two resolved weeks with one key are one week.
  lemma WeeksPartitionTime(a: Instant, b: Instant, zone: int)
    ensures var w, v := ResolveContainingWeek(a, zone), ResolveContainingWeek(b, zone);
            && Within(a, w)
            && DayOf(w.start, zone) % 7 == 0 && w.start == Midnight(DayOf(w.start, zone), zone)
            && (Within(b, w) <==> v == w)
            && (v.scopeKey == w.scopeKey <==> v == w)
            && w.exclusiveEnd - w.start == 7 * DAY && w.exclusiveEnd - w.endDate == DAY
  {
    hide ScopeKey;
    WeekHoldsDay(a, zone, a);
    WeekHoldsDay(a, zone, b);
    var m, n := MondayOf(DayOf(a, zone)), MondayOf(DayOf(b, zone));
    MondayIsWeekStart(DayOf(a, zone), m);
    MondayIsWeekStart(DayOf(b, zone), n);
    MondayIsWeekStart(m, m);
    MondayIsWeekStart(n, n);
    ScopeKeyIsInjective(n, m);
  }

  // The previous week ends where the current one starts.
  lemma PreviousWeekIsAdjacent(now: Instant, zone: int)
    ensures var w, p := ResolveContainingWeek(now, zone), ResolvePreviousCompletedWeek(now, zone);
            p.exclusiveEnd == w.start && p.exclusiveEnd - p.start == 7 * DAY && p.scopeKey != w.scopeKey
  {
    var m := MondayOf(DayOf(now, zone));
    MondayIsWeekStart(DayOf(now, zone), m);
    hide ScopeKey, ResolveContainingWeek, DayOf, MondayOf;
    WeekIs(now, zone, DayOf(now, zone));
    PreviousWeekIs(now, zone, m);
    MondayIsWeekStart(m - 7, m - 7);
    MondayIsWeekStart(m, m);
    ScopeKeyIsInjective(m - 7, m);
  }

  // The week from Monday m.
  function WeekFrom(m: Day, zone: int): Week {
    Week(Midnight(m, zone), Midnight(m + 6, zone), Midnight(m + 7, zone), ScopeKey(m))
  }

  lemma WeekIs(t: Instant, zone: int, d: Day)
    requires DayOf(t, zone) == d
    ensures ResolveContainingWeek(t, zone) == WeekFrom(MondayOf(d), zone)
  {
    hide ScopeKey, DayOf;
  }

  lemma PreviousWeekIs(now: Instant, zone: int, m: Day)
    requires m == MondayOf(DayOf(now, zone))
    ensures ResolvePreviousCompletedWeek(now, zone) == WeekFrom(m - 7, zone)
  {
    MondayIsWeekStart(DayOf(now, zone), m);
    DayHoldsInstant(Midnight(m, zone), zone, m);
    DayHoldsInstant(Midnight(m - 1, zone), zone, m - 1);
    hide ScopeKey, ResolveContainingWeek, DayOf, MondayOf;
    WeekIs(now, zone, DayOf(now, zone));
    WeekIs(Midnight(m - 1, zone), zone, m - 1);
    MondayIsWeekStart(m - 1, m - 7);
  }
}
