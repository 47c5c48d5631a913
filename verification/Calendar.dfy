/** Calendar periods: the day a period starts and the day it ends, in the proleptic Gregorian
    calendar of the years 1 to 9999. */
module Calendars {
  import opened Models

  datatype Granularity = SECOND | MINUTE | HOUR | DAY | WEEK | WEEK_SUNDAY | MONTH | QUARTER | YEAR

  datatype Date = Date(year: int, month: int, day: int)

  const MAX_YEAR := 9999

  predicate IsLeap(y: int) {
    y % 4 == 0 && (y % 100 != 0 || y % 400 == 0)
  }

  function DaysInMonth(y: int, m: int): int {
    if m == 2 then (if IsLeap(y) then 29 else 28) else if m in {4, 6, 9, 11} then 30 else 31
  }

  predicate IsDate(d: Date) {
    1 <= d.year <= MAX_YEAR && 1 <= d.month <= 12 && 1 <= d.day <= DaysInMonth(d.year, d.month)
  }

  // ---------------------------------------------------------------- ordinals

  function YearLength(y: int): int {
    if IsLeap(y) then 366 else 365
  }

  /** A leap day every 4 years, but not every 100 unless every 400. */
  function DaysBeforeYear(y: int): int {
    (y - 1) * 365 + (y - 1) / 4 - (y - 1) / 100 + (y - 1) / 400
  }

  function DaysBeforeMonth(y: int, m: int): int
    requires 1 <= m <= 13
  {
    if m == 1 then 0 else DaysBeforeMonth(y, m - 1) + DaysInMonth(y, m - 1)
  }

  /** The number of the day; 1 is the first of January of the year 1. */
  function Ordinal(d: Date): int
    requires IsDate(d)
  {
    DaysBeforeYear(d.year) + DaysBeforeMonth(d.year, d.month) + d.day
  }

  const LAST := Date(9999, 12, 31)
  const MAX_ORDINAL := 3652059
  const FIRST := Date(1, 1, 1)

  /** Monday is 0. */
  function Weekday(d: Date): int
    requires IsDate(d)
  {
    (Ordinal(d) + 6) % 7
  }

  lemma FourthYear(y: int)
    requires y >= 1
    ensures y / 4 == (y - 1) / 4 + (if y % 4 == 0 then 1 else 0)
    ensures y / 100 == (y - 1) / 100 + (if y % 100 == 0 then 1 else 0)
    ensures y / 400 == (y - 1) / 400 + (if y % 400 == 0 then 1 else 0)
  {
  }

  lemma CenturyYear(y: int)
    ensures y % 100 == 0 ==> y % 4 == 0
    ensures y % 400 == 0 ==> y % 100 == 0
  {
    if y % 100 == 0 { assert y == 4 * (25 * (y / 100)); }
    if y % 400 == 0 { assert y == 100 * (4 * (y / 400)); }
  }

  lemma YearHasItsDays(y: int)
    requires y >= 1
    ensures DaysBeforeYear(y + 1) == DaysBeforeYear(y) + YearLength(y)
  {
    FourthYear(y);
    CenturyYear(y);
  }

  lemma MonthsOfYear(y: int)
    ensures DaysBeforeMonth(y, 13) == YearLength(y)
    ensures DaysBeforeMonth(y, 4) == DaysBeforeMonth(y, 3) + 31 && DaysBeforeMonth(y, 7) == DaysBeforeMonth(y, 6) + 30
    ensures DaysBeforeMonth(y, 10) == DaysBeforeMonth(y, 9) + 30
  {
    var feb := DaysInMonth(y, 2);
    assert DaysBeforeMonth(y, 2) == 31;
    assert DaysBeforeMonth(y, 3) == 31 + feb;
    assert DaysBeforeMonth(y, 4) == 62 + feb;
    assert DaysBeforeMonth(y, 5) == 92 + feb;
    assert DaysBeforeMonth(y, 6) == 123 + feb;
    assert DaysBeforeMonth(y, 7) == 153 + feb;
    assert DaysBeforeMonth(y, 8) == 184 + feb;
    assert DaysBeforeMonth(y, 9) == 215 + feb;
    assert DaysBeforeMonth(y, 10) == 245 + feb;
    assert DaysBeforeMonth(y, 11) == 276 + feb;
    assert DaysBeforeMonth(y, 12) == 306 + feb;
    assert DaysBeforeMonth(y, 13) == 337 + feb;
  }

  lemma {:induction false} MonthsGrow(y: int, m: int, n: int)
    requires 1 <= m < n <= 13
    ensures DaysBeforeMonth(y, m) + DaysInMonth(y, m) <= DaysBeforeMonth(y, n)
    decreases n
  {
    if n > m + 1 { MonthsGrow(y, m, n - 1); }
  }

  lemma {:induction false} YearsGrow(y: int, z: int)
    requires 1 <= y < z
    ensures DaysBeforeYear(y) + YearLength(y) <= DaysBeforeYear(z)
    decreases z
  {
    YearHasItsDays(z - 1);
    if z > y + 1 { YearsGrow(y, z - 1); }
  }

  predicate Earlier(a: Date, b: Date) {
    a.year < b.year || (a.year == b.year && (a.month < b.month || (a.month == b.month && a.day < b.day)))
  }

  lemma EarlierIsLess(a: Date, b: Date)
    requires IsDate(a) && IsDate(b) && Earlier(a, b)
    ensures Ordinal(a) < Ordinal(b)
  {
    if a.year < b.year {
      YearsGrow(a.year, b.year);
      MonthsOfYear(a.year);
      MonthsGrow(a.year, a.month, 13);
      if b.month > 1 { MonthsGrow(b.year, 1, b.month); }
    } else if a.month < b.month {
      MonthsGrow(a.year, a.month, b.month);
    }
  }

  /** Days are numbered in the order of year, month and day. */
  lemma OrdinalsAreOrdered(a: Date, b: Date)
    requires IsDate(a) && IsDate(b)
    ensures Ordinal(a) < Ordinal(b) <==> Earlier(a, b)
    ensures Ordinal(a) == Ordinal(b) <==> a == b
  {
    if Earlier(a, b) { EarlierIsLess(a, b); } else if Earlier(b, a) { EarlierIsLess(b, a); }
  }

  /** The last day of the year 9999 has this number, and is a Friday. */
  lemma LastOrdinal(last: Date)
    requires last == LAST
    ensures Ordinal(last) == MAX_ORDINAL && Weekday(last) == 4
  {
    MonthsOfYear(last.year);
    assert DaysBeforeMonth(last.year, 13) == DaysBeforeMonth(last.year, 12) + DaysInMonth(last.year, 12);
    assert last.year - 1 == 9998 && !IsLeap(last.year);
  }

  lemma OrdinalRange(d: Date)
    requires IsDate(d)
    ensures 1 <= Ordinal(d) <= MAX_ORDINAL
    ensures Ordinal(d) == MAX_ORDINAL <==> d == LAST
    ensures Ordinal(d) == 1 <==> d == FIRST
  {
    Between(d, FIRST, LAST);
  }

  lemma Between(d: Date, first: Date, last: Date)
    requires IsDate(d) && first == FIRST && last == LAST
    ensures 1 <= Ordinal(d) <= MAX_ORDINAL
    ensures Ordinal(d) == MAX_ORDINAL <==> d == last
    ensures Ordinal(d) == 1 <==> d == first
  {
    LastOrdinal(last);
    OrdinalsAreOrdered(d, last);
    OrdinalsAreOrdered(first, d);
    assert Ordinal(first) == 1;
  }

  // --------------------------------------------------------------- arithmetic

  function NextDay(d: Date): Option<Date> {
    if d.day < DaysInMonth(d.year, d.month) then Some(Date(d.year, d.month, d.day + 1))
    else if d.month < 12 then Some(Date(d.year, d.month + 1, 1))
    else if d.year < MAX_YEAR then Some(Date(d.year + 1, 1, 1))
    else None
  }

  function PreviousDay(d: Date): Option<Date> {
    if d.day > 1 then Some(Date(d.year, d.month, d.day - 1))
    else if d.month > 1 then Some(Date(d.year, d.month - 1, DaysInMonth(d.year, d.month - 1)))
    else if d.year > 1 then Some(Date(d.year - 1, 12, 31))
    else None
  }

  /** The date some days later, or earlier; None if the calendar does not reach that far. */
  function AddDays(d: Date, k: int): Option<Date>
    decreases if k < 0 then -k else k
  {
    if k == 0 then Some(d)
    else
      var next := if k > 0 then NextDay(d) else PreviousDay(d);
      if next.None? then None else AddDays(next.value, if k > 0 then k - 1 else k + 1)
  }

  lemma NextIsOneMore(d: Date)
    requires IsDate(d)
    ensures NextDay(d).Some? ==> IsDate(NextDay(d).value) && Ordinal(NextDay(d).value) == Ordinal(d) + 1
    ensures NextDay(d).None? <==> d == LAST
  {
    if d.month == 12 && d.day == 31 {
      YearHasItsDays(d.year);
      MonthsOfYear(d.year);
      assert DaysBeforeMonth(d.year, 13) == DaysBeforeMonth(d.year, 12) + 31;
    }
  }

  lemma PreviousIsOneLess(d: Date)
    requires IsDate(d)
    ensures PreviousDay(d).Some? ==> IsDate(PreviousDay(d).value) && Ordinal(PreviousDay(d).value) == Ordinal(d) - 1
    ensures PreviousDay(d).None? <==> d == FIRST
  {
    if d.month == 1 && d.day == 1 && d.year > 1 {
      YearHasItsDays(d.year - 1);
      MonthsOfYear(d.year - 1);
      assert DaysBeforeMonth(d.year - 1, 13) == DaysBeforeMonth(d.year - 1, 12) + 31;
    }
  }

  lemma {:induction false} AddDaysForward(d: Date, k: nat)
    requires IsDate(d)
    ensures AddDays(d, k).Some? <==> Ordinal(d) + k <= MAX_ORDINAL
    ensures AddDays(d, k).Some? ==> IsDate(AddDays(d, k).value) && Ordinal(AddDays(d, k).value) == Ordinal(d) + k
    decreases k
  {
    OrdinalRange(d);
    if k > 0 {
      NextIsOneMore(d);
      var next := NextDay(d);
      if next.Some? { AddDaysForward(next.value, k - 1); }
    }
  }

  lemma OneDayBack(d: Date, k: nat)
    requires k > 0
    ensures AddDays(d, 0 - k) ==
      if PreviousDay(d).None? then None else AddDays(PreviousDay(d).value, 0 - (k - 1))
  {
    var n := 0 - k;
    assert n != 0 && n + 1 == 0 - (k - 1);
  }

  lemma {:induction false} AddDaysBack(d: Date, k: nat)
    requires IsDate(d)
    ensures AddDays(d, 0 - k).Some? <==> Ordinal(d) - k >= 1
    ensures AddDays(d, 0 - k).Some? ==>
      IsDate(AddDays(d, 0 - k).value) && Ordinal(AddDays(d, 0 - k).value) == Ordinal(d) - k
    decreases k
  {
    PreviousOrFirst(d);
    var previous := PreviousDay(d);
    if k > 0 {
      OneDayBack(d, k);
      if previous.Some? { AddDaysBack(previous.value, k - 1); }
    }
  }

  lemma PreviousOrFirst(d: Date)
    requires IsDate(d)
    ensures Ordinal(d) >= 1 && (PreviousDay(d).None? <==> Ordinal(d) == 1)
    ensures PreviousDay(d).Some? ==> IsDate(PreviousDay(d).value) && Ordinal(PreviousDay(d).value) == Ordinal(d) - 1
  {
    PreviousIsOneLess(d);
    OrdinalRange(d);
  }

  /** Adding days adds to the ordinal, and fails exactly if that leaves the calendar. */
  lemma AddDaysAdds(d: Date, k: int)
    requires IsDate(d)
    ensures AddDays(d, k).Some? <==> 1 <= Ordinal(d) + k <= MAX_ORDINAL
    ensures AddDays(d, k).Some? ==> IsDate(AddDays(d, k).value) && Ordinal(AddDays(d, k).value) == Ordinal(d) + k
  {
    OrdinalRange(d);
    if k >= 0 { AddDaysForward(d, k); } else { AddDaysBack(d, -k); }
  }

  // ------------------------------------------------------------------ periods

  /** None where the date arithmetic raises. */
  function PeriodStart(g: Granularity, d: Date): Option<Date>
    requires IsDate(d)
  {
    match g
    case WEEK => AddDays(d, -Weekday(d))
    case WEEK_SUNDAY => AddDays(d, -((Weekday(d) + 1) % 7))
    case MONTH => Some(Date(d.year, d.month, 1))
    case QUARTER => Some(Date(d.year, (d.month - 1) / 3 * 3 + 1, 1))
    case YEAR => Some(Date(d.year, 1, 1))
    case _ => Some(d)
  }

  function PeriodEnd(g: Granularity, d: Date): Option<Date>
    requires IsDate(d)
  {
    match g
    case WEEK => AddDays(d, 6 - Weekday(d))
    case WEEK_SUNDAY => AddDays(d, (5 - Weekday(d)) % 7)
    case MONTH =>
      if d.month == 12 then (if d.year + 1 > MAX_YEAR then None else AddDays(Date(d.year + 1, 1, 1), -1))
      else AddDays(Date(d.year, d.month + 1, 1), -1)
    case QUARTER =>
      var last := (d.month - 1) / 3 * 3 + 3;
      if last == 12 then Some(Date(d.year, 12, 31)) else AddDays(Date(d.year, last + 1, 1), -1)
    case YEAR => Some(Date(d.year, 12, 31))
    case _ => Some(d)
  }

  /** Only Sunday weeks can start before the calendar does. */
  lemma StartExists(g: Granularity, d: Date)
    requires IsDate(d)
    ensures PeriodStart(g, d).None? <==> g == WEEK_SUNDAY && Ordinal(d) < 7
    ensures PeriodStart(g, d).Some? ==> IsDate(PeriodStart(g, d).value)
  {
    if g == WEEK || g == WEEK_SUNDAY {
      WeekOrdinals(g, d);
      OrdinalRange(d);
      WeekBaseIs(g, Ordinal(d));
    }
  }

  /** The last weeks, and the last December when taken as a month, end beyond the calendar. */
  lemma EndExists(g: Granularity, d: Date)
    requires IsDate(d)
    ensures PeriodEnd(g, d).None? <==>
      || (g == WEEK && !Earlier(d, Date(9999, 12, 27)))
      || (g == WEEK_SUNDAY && !Earlier(d, Date(9999, 12, 26)))
      || (g == MONTH && d.year == 9999 && d.month == 12)
    ensures PeriodEnd(g, d).Some? ==> IsDate(PeriodEnd(g, d).value)
  {
    match g
    case WEEK => WeekEndExists(g, d, Date(9999, 12, 27), Date(9999, 12, 26));
    case WEEK_SUNDAY => WeekEndExists(g, d, Date(9999, 12, 27), Date(9999, 12, 26));
    case MONTH => MonthEnd(d);
    case QUARTER => QuarterEnd(d);
    case YEAR =>
    case _ =>
  }

  lemma WeekEndExists(g: Granularity, d: Date, monday: Date, sunday: Date)
    requires IsDate(d) && monday == Date(9999, 12, 27) && sunday == Date(9999, 12, 26)
    requires g == WEEK || g == WEEK_SUNDAY
    ensures PeriodEnd(g, d).None? <==> !Earlier(d, if g == WEEK then monday else sunday)
    ensures PeriodEnd(g, d).Some? ==> IsDate(PeriodEnd(g, d).value)
  {
    WeekOrdinals(g, d);
    OrdinalRange(d);
    NearTheEnd(d, monday, sunday);
    WeekBaseIs(g, Ordinal(d));
  }

  lemma NearTheEnd(d: Date, monday: Date, sunday: Date)
    requires IsDate(d) && monday == Date(9999, 12, 27) && sunday == Date(9999, 12, 26)
    ensures Earlier(d, monday) <==> Ordinal(d) < MAX_ORDINAL - 4
    ensures Earlier(d, sunday) <==> Ordinal(d) < MAX_ORDINAL - 5
  {
    var last := Date(monday.year, 12, 31);
    LastOrdinal(last);
    OrdinalsAreOrdered(d, monday);
    OrdinalsAreOrdered(d, sunday);
  }

  /** The day before the first of the next month is the last of this. */
  lemma DayBeforeNext(y: int, m: int)
    requires 1 <= y <= MAX_YEAR && 1 <= m <= 12 && (m < 12 || y < MAX_YEAR)
    ensures var next := if m == 12 then Date(y + 1, 1, 1) else Date(y, m + 1, 1);
      AddDays(next, -1) == Some(Date(y, m, DaysInMonth(y, m)))
  {
    var next := if m == 12 then Date(y + 1, 1, 1) else Date(y, m + 1, 1);
    assert AddDays(next, -1) == AddDays(PreviousDay(next).value, 0);
  }

  lemma MonthEnd(d: Date)
    requires IsDate(d)
    ensures PeriodEnd(MONTH, d) ==
      if d.year == MAX_YEAR && d.month == 12 then None else Some(Date(d.year, d.month, DaysInMonth(d.year, d.month)))
  {
    if !(d.year == MAX_YEAR && d.month == 12) { DayBeforeNext(d.year, d.month); }
  }

  lemma QuarterEnd(d: Date)
    requires IsDate(d)
    ensures var last := (d.month - 1) / 3 * 3 + 3;
      PeriodEnd(QUARTER, d) == Some(Date(d.year, last, DaysInMonth(d.year, last)))
  {
    var last := (d.month - 1) / 3 * 3 + 3;
    if last < 12 { DayBeforeNext(d.year, last); }
  }

  // ------------------------------------------------------------------- tiling

  predicate Within(x: Date, s: Date, e: Date)
    requires IsDate(x) && IsDate(s) && IsDate(e)
  {
    Ordinal(s) <= Ordinal(x) <= Ordinal(e)
  }

  /** A day lies in its period, and the days of the period are exactly those that start where it
      starts. */
  lemma PeriodsTile(g: Granularity, d: Date, s: Date, e: Date, x: Date)
    requires IsDate(d) && IsDate(x) && IsDate(s) && IsDate(e)
    requires PeriodStart(g, d) == Some(s) && PeriodEnd(g, d) == Some(e)
    ensures Within(d, s, e)
    ensures Within(x, s, e) <==> PeriodStart(g, x) == Some(s)
    ensures Within(x, s, e) ==> PeriodEnd(g, x) == Some(e)
  {
    match g
    case WEEK => WeeksTile(g, d, s, e, x);
    case WEEK_SUNDAY => WeeksTile(g, d, s, e, x);
    case MONTH => MonthsTile(d, s, e, x);
    case QUARTER => QuartersTile(d, s, e, x);
    case YEAR => OrderedThrice(d, s, e, x);
    case _ => OrdinalsAreOrdered(x, d);
  }

  lemma MonthsTile(d: Date, s: Date, e: Date, x: Date)
    requires IsDate(d) && IsDate(x) && IsDate(s) && IsDate(e)
    requires PeriodStart(MONTH, d) == Some(s) && PeriodEnd(MONTH, d) == Some(e)
    ensures Within(d, s, e)
    ensures Within(x, s, e) <==> PeriodStart(MONTH, x) == Some(s)
    ensures Within(x, s, e) ==> PeriodEnd(MONTH, x) == Some(e)
  {
    MonthEnd(d);
    MonthEnd(x);
    OrderedThrice(d, s, e, x);
  }

  /** The number of the quarter, from 0. */
  function QuarterOf(m: int): int {
    (m - 1) / 3
  }

  lemma QuarterMonths(m: int, n: int)
    ensures QuarterOf(m) * 3 + 1 <= n <= QuarterOf(m) * 3 + 3 <==> QuarterOf(n) == QuarterOf(m)
    ensures QuarterOf(m) * 3 + 1 <= m <= QuarterOf(m) * 3 + 3
  {
  }

  lemma QuartersTile(d: Date, s: Date, e: Date, x: Date)
    requires IsDate(d) && IsDate(x) && IsDate(s) && IsDate(e)
    requires PeriodStart(QUARTER, d) == Some(s) && PeriodEnd(QUARTER, d) == Some(e)
    ensures Within(d, s, e)
    ensures Within(x, s, e) <==> PeriodStart(QUARTER, x) == Some(s)
    ensures Within(x, s, e) ==> PeriodEnd(QUARTER, x) == Some(e)
  {
    QuarterEnd(d);
    QuarterEnd(x);
    QuarterMonths(d.month, x.month);
    OrderedThrice(d, s, e, x);
  }

  lemma OrderedThrice(d: Date, s: Date, e: Date, x: Date)
    requires IsDate(d) && IsDate(x) && IsDate(s) && IsDate(e)
    ensures Within(x, s, e) <==> !Earlier(x, s) && !Earlier(e, x)
    ensures Within(d, s, e) <==> !Earlier(d, s) && !Earlier(e, d)
  {
    OrdinalsAreOrdered(x, s);
    OrdinalsAreOrdered(e, x);
    OrdinalsAreOrdered(d, s);
    OrdinalsAreOrdered(e, d);
  }

  /** The first ordinal of the week a day is in. */
  function WeekBase(g: Granularity, o: int): int {
    if g == WEEK then o - (o + 6) % 7 else o - o % 7
  }

  lemma WeekOffsets(o: int)
    ensures ((o + 6) % 7 + 1) % 7 == o % 7
    ensures (5 - (o + 6) % 7) % 7 == 6 - o % 7
  {
  }

  lemma WeekDays(g: Granularity, o: int)
    ensures WeekBase(g, WeekBase(g, o) + 7) == WeekBase(g, o) + 7
    ensures (WeekBase(g, o) + 6) % 7 == (if g == WEEK then 0 else 6)
    ensures (WeekBase(g, o) + 6 + 6) % 7 == (if g == WEEK then 6 else 5)
  {
    if g == WEEK {
      var q := (o + 6) / 7;
      assert WeekBase(g, o) + 6 == 7 * q;
    } else {
      var q := o / 7;
      assert WeekBase(g, o) == 7 * q;
    }
  }

  lemma WeekBaseIs(g: Granularity, o: int)
    ensures 0 <= o - WeekBase(g, o) <= 6
    ensures 1 <= o ==> (WeekBase(g, o) < 1 <==> g != WEEK && o < 7)
    ensures o <= MAX_ORDINAL ==>
      (WeekBase(g, o) + 6 > MAX_ORDINAL <==> o >= (if g == WEEK then MAX_ORDINAL - 4 else MAX_ORDINAL - 5))
  {
  }

  lemma WeekOrdinals(g: Granularity, d: Date)
    requires IsDate(d) && (g == WEEK || g == WEEK_SUNDAY)
    ensures PeriodStart(g, d).Some? ==>
      IsDate(PeriodStart(g, d).value) && Ordinal(PeriodStart(g, d).value) == WeekBase(g, Ordinal(d))
    ensures PeriodStart(g, d).Some? <==> WeekBase(g, Ordinal(d)) >= 1
    ensures PeriodEnd(g, d).Some? ==>
      IsDate(PeriodEnd(g, d).value) && Ordinal(PeriodEnd(g, d).value) == WeekBase(g, Ordinal(d)) + 6
    ensures PeriodEnd(g, d).Some? <==> WeekBase(g, Ordinal(d)) + 6 <= MAX_ORDINAL
  {
    OrdinalRange(d);
    WeekOffsets(Ordinal(d));
    WeekBaseIs(g, Ordinal(d));
    if g == WEEK {
      WeekStartOrdinal(g, d, Weekday(d));
      WeekEndOrdinal(g, d, 6 - Weekday(d));
    } else {
      WeekStartOrdinal(g, d, (Weekday(d) + 1) % 7);
      WeekEndOrdinal(g, d, (5 - Weekday(d)) % 7);
    }
  }

  lemma WeekStartOrdinal(g: Granularity, d: Date, back: int)
    requires IsDate(d) && PeriodStart(g, d) == AddDays(d, -back) && back == Ordinal(d) - WeekBase(g, Ordinal(d))
    requires 0 <= back <= 6
    ensures PeriodStart(g, d).Some? <==> WeekBase(g, Ordinal(d)) >= 1
    ensures PeriodStart(g, d).Some? ==>
      IsDate(PeriodStart(g, d).value) && Ordinal(PeriodStart(g, d).value) == WeekBase(g, Ordinal(d))
  {
    AddDaysBack(d, back);
  }

  lemma WeekEndOrdinal(g: Granularity, d: Date, on: int)
    requires IsDate(d) && PeriodEnd(g, d) == AddDays(d, on) && on == WeekBase(g, Ordinal(d)) + 6 - Ordinal(d)
    requires 0 <= on <= 6
    ensures PeriodEnd(g, d).Some? <==> WeekBase(g, Ordinal(d)) + 6 <= MAX_ORDINAL
    ensures PeriodEnd(g, d).Some? ==>
      IsDate(PeriodEnd(g, d).value) && Ordinal(PeriodEnd(g, d).value) == WeekBase(g, Ordinal(d)) + 6
  {
    AddDaysForward(d, on);
  }

  lemma WeeksTile(g: Granularity, d: Date, s: Date, e: Date, x: Date)
    requires IsDate(d) && IsDate(x) && IsDate(s) && IsDate(e) && (g == WEEK || g == WEEK_SUNDAY)
    requires PeriodStart(g, d) == Some(s) && PeriodEnd(g, d) == Some(e)
    ensures Within(d, s, e)
    ensures Within(x, s, e) <==> PeriodStart(g, x) == Some(s)
    ensures Within(x, s, e) ==> PeriodEnd(g, x) == Some(e)
  {
    WeekOrdinals(g, d);
    WeekOrdinals(g, x);
    SameWeek(g, Ordinal(d), Ordinal(x));
    if Within(x, s, e) {
      OrdinalsAreOrdered(PeriodStart(g, x).value, s);
      OrdinalsAreOrdered(PeriodEnd(g, x).value, e);
    }
  }

  lemma SameWeek(g: Granularity, o: int, p: int)
    ensures WeekBase(g, o) <= p <= WeekBase(g, o) + 6 <==> WeekBase(g, p) == WeekBase(g, o)
    ensures WeekBase(g, o) <= o <= WeekBase(g, o) + 6
  {
  }

  /** The day after a period is the first of its own. */
  lemma NextPeriodStarts(g: Granularity, d: Date, e: Date, next: Date)
    requires IsDate(d) && IsDate(e) && PeriodEnd(g, d) == Some(e) && AddDays(e, 1) == Some(next)
    ensures IsDate(next) && PeriodStart(g, next) == Some(next)
  {
    AddDaysAdds(e, 1);
    assert next == NextDay(e).value by { assert AddDays(e, 1) == AddDays(NextDay(e).value, 0); }
    match g
    case WEEK => WeekFollows(g, d, e, next);
    case WEEK_SUNDAY => WeekFollows(g, d, e, next);
    case MONTH => MonthEnd(d);
    case QUARTER => QuarterFollows(d, e, next);
    case YEAR =>
    case _ =>
  }

  lemma QuarterFollows(d: Date, e: Date, next: Date)
    requires IsDate(d) && PeriodEnd(QUARTER, d) == Some(e) && NextDay(e) == Some(next)
    ensures PeriodStart(QUARTER, next) == Some(next)
  {
    QuarterEnd(d);
  }

  lemma SameDay(a: Date, b: Date)
    requires IsDate(a) && IsDate(b) && Ordinal(a) == Ordinal(b)
    ensures a == b
  {
    OrdinalsAreOrdered(a, b);
  }

  lemma WeekFollows(g: Granularity, d: Date, e: Date, next: Date)
    requires IsDate(d) && IsDate(e) && IsDate(next) && (g == WEEK || g == WEEK_SUNDAY)
    requires PeriodEnd(g, d) == Some(e) && Ordinal(next) == Ordinal(e) + 1
    ensures PeriodStart(g, next) == Some(next)
  {
    WeekOrdinals(g, d);
    WeekOrdinals(g, next);
    PreviousOrFirst(next);
    WeekDays(g, Ordinal(d));
    SameDay(PeriodStart(g, next).value, next);
  }

  /** WEEK runs from Monday to Sunday, as in section 3.2.2 of ISO 8601:2004; WEEK_SUNDAY from Sunday
      to Saturday. Both have seven days. */
  lemma WeeksAreWeeks(g: Granularity, d: Date, s: Date, e: Date)
    requires IsDate(d) && IsDate(s) && IsDate(e) && (g == WEEK || g == WEEK_SUNDAY)
    requires PeriodStart(g, d) == Some(s) && PeriodEnd(g, d) == Some(e)
    ensures Weekday(s) == (if g == WEEK then 0 else 6) && Weekday(e) == (if g == WEEK then 6 else 5)
    ensures Ordinal(e) == Ordinal(s) + 6
  {
    WeekOrdinals(g, d);
    WeekDays(g, Ordinal(d));
  }

  /** What two days have in common if they share a period: the calendar fields, or the seven days from
      a Monday or a Sunday on. */
  ghost predicate Alike(g: Granularity, d: Date, x: Date)
    requires IsDate(d) && IsDate(x)
  {
    match g
    case YEAR => x.year == d.year
    case QUARTER => x.year == d.year && exists k :: k in {1, 4, 7, 10} && InBlock(k, d.month) && InBlock(k, x.month)
    case MONTH => x.year == d.year && x.month == d.month
    case WEEK => exists s :: IsDate(s) && Weekday(s) == 0 && SevenDaysFrom(s, d) && SevenDaysFrom(s, x)
    case WEEK_SUNDAY => exists s :: IsDate(s) && Weekday(s) == 6 && SevenDaysFrom(s, d) && SevenDaysFrom(s, x)
    case _ => x == d
  }

  /** The three months from `k` on. */
  predicate InBlock(k: int, month: int) {
    k <= month <= k + 2
  }

  predicate SevenDaysFrom(s: Date, d: Date)
    requires IsDate(s) && IsDate(d)
  {
    Ordinal(s) <= Ordinal(d) < Ordinal(s) + 7
  }

  /** Two days have the same period exactly if they are alike; so the days of a period, which are
      those that start where it does, are known by their fields. */
  lemma SamePeriodIffAlike(g: Granularity, d: Date, s: Date, x: Date)
    requires IsDate(d) && IsDate(x) && IsDate(s) && PeriodStart(g, d) == Some(s)
    ensures PeriodStart(g, x) == Some(s) <==> Alike(g, d, x)
    ensures Alike(g, d, s) && !Earlier(d, s)
  {
    match g
    case WEEK => SameWeekIffAlike(g, d, s, x); SameWeekIffAlike(g, d, s, s);
    case WEEK_SUNDAY => SameWeekIffAlike(g, d, s, x); SameWeekIffAlike(g, d, s, s);
    case QUARTER => SameQuarterIffAlike(d, x); SameQuarterIffAlike(d, s);
    case _ =>
  }

  lemma SameQuarterIffAlike(d: Date, x: Date)
    requires IsDate(d) && IsDate(x)
    ensures Alike(QUARTER, d, x) <==> PeriodStart(QUARTER, x) == PeriodStart(QUARTER, d)
    ensures PeriodStart(QUARTER, d).value.month <= d.month
  {
    var k := QuarterOf(d.month) * 3 + 1;
    QuarterMonths(d.month, x.month);
    assert k in {1, 4, 7, 10} && InBlock(k, d.month);
  }

  lemma SameWeekIffAlike(g: Granularity, d: Date, s: Date, x: Date)
    requires IsDate(d) && IsDate(x) && IsDate(s) && PeriodStart(g, d) == Some(s) && (g == WEEK || g == WEEK_SUNDAY)
    ensures PeriodStart(g, x) == Some(s) <==> Alike(g, d, x)
    ensures PeriodStart(g, s) == Some(s) && !Earlier(d, s)
  {
    WeekOf(g, d, s);
    WeekOf(g, x, s);
    WeekOf(g, s, s);
    SameWeek(g, Ordinal(d), Ordinal(x));
    OneWeekBase(g, Ordinal(d));
    OrdinalsAreOrdered(d, s);
    WeekStartsRight(g, d, s);
    assert SevenDaysFrom(s, x) <==> WeekBase(g, Ordinal(x)) == Ordinal(s);
    forall w | IsDate(w) && Weekday(w) == Weekday(s) && SevenDaysFrom(w, d) ensures w == s {
      StartsItsWeek(g, Ordinal(w), Ordinal(d));
      SameDay(w, s);
    }
  }

  /** A day's week starts on `s` exactly if its base is the number of `s`. */
  lemma WeekOf(g: Granularity, x: Date, s: Date)
    requires IsDate(x) && IsDate(s) && (g == WEEK || g == WEEK_SUNDAY)
    ensures PeriodStart(g, x) == Some(s) <==> WeekBase(g, Ordinal(x)) == Ordinal(s)
  {
    WeekOrdinals(g, x);
    OrdinalRange(s);
    var t := PeriodStart(g, x);
    if t.Some? && Ordinal(t.value) == Ordinal(s) { SameDay(t.value, s); }
  }

  lemma WeekStartsRight(g: Granularity, d: Date, s: Date)
    requires IsDate(d) && IsDate(s) && (g == WEEK || g == WEEK_SUNDAY) && WeekBase(g, Ordinal(d)) == Ordinal(s)
    ensures Weekday(s) == (if g == WEEK then 0 else 6) && SevenDaysFrom(s, d)
  {
    WeekDays(g, Ordinal(d));
    WeekBaseIs(g, Ordinal(d));
  }

  lemma OneWeekBase(g: Granularity, o: int)
    ensures WeekBase(g, WeekBase(g, o)) == WeekBase(g, o)
  {
    SameWeek(g, o, WeekBase(g, o));
  }

  lemma StartsItsWeek(g: Granularity, w: int, o: int)
    requires (w + 6) % 7 == (if g == WEEK then 0 else 6) && w <= o < w + 7
    ensures WeekBase(g, o) == w
  {
  }

  /** The first day of the calendar was a Monday. */
  lemma FirstDay(d: Date, y: int)
    requires IsDate(d) && d == Date(y, 1, 1) && y == 1
    ensures Ordinal(d) == 1 && Weekday(d) == 0
  {
    assert DaysBeforeYear(y) == 0;
    assert DaysBeforeMonth(y, 1) == 0;
  }

  /** The first of January 1970, day 719163, was a Thursday. */
  lemma Epoch(d: Date, y: int)
    requires IsDate(d) && d == Date(y, 1, 1) && y == 1970
    ensures Ordinal(d) == 719163 && Weekday(d) == 3
  {
    EpochYear(y);
    assert DaysBeforeMonth(y, 1) == 0;
  }

  lemma EpochYear(y: int)
    requires y == 1970
    ensures DaysBeforeYear(y) == 719162
  {
  }

  /** Months lie within quarters, and quarters within years. */
  lemma PeriodsRefine(d: Date, x: Date)
    requires IsDate(d) && IsDate(x)
    ensures PeriodStart(MONTH, x) == PeriodStart(MONTH, d) ==> PeriodStart(QUARTER, x) == PeriodStart(QUARTER, d)
    ensures PeriodStart(QUARTER, x) == PeriodStart(QUARTER, d) ==> PeriodStart(YEAR, x) == PeriodStart(YEAR, d)
  {
  }

  /** So a quarter begins with a month and ends with one, and a year with a quarter. */
  lemma StartsAndEndsRefine(d: Date, m: Date, q: Date, y: Date, qe: Date)
    requires IsDate(d) && PeriodStart(MONTH, d) == Some(m) && PeriodStart(QUARTER, d) == Some(q)
    requires PeriodStart(YEAR, d) == Some(y) && PeriodEnd(QUARTER, d) == Some(qe)
    ensures IsDate(q) && PeriodStart(MONTH, q) == Some(q) && PeriodStart(QUARTER, m) == Some(q)
    ensures IsDate(y) && PeriodStart(QUARTER, y) == Some(y) && PeriodStart(YEAR, q) == Some(y)
    ensures IsDate(qe) && (PeriodEnd(MONTH, qe) == Some(qe) || (qe == LAST && PeriodEnd(MONTH, qe) == None))
    ensures PeriodEnd(YEAR, qe) == PeriodEnd(YEAR, d)
  {
    QuarterEnd(d);
    MonthEnd(qe);
  }

  // -------------------------------------------------------- whole periods only

  /** The last day before the period that a day is in. */
  function Cutoff(g: Granularity, today: Date): Option<Date>
    requires IsDate(today)
  {
    match PeriodStart(g, today)
    case None => None
    case Some(start) =>
      match AddDays(start, -1)
      case None => None
      case Some(before) => if IsDate(before) then PeriodEnd(g, before) else None
  }

  /** The cutoff is the day before the current period: itself the end of a period, with every later
      day up to today in the current one. */
  lemma CutoffIsTheDayBefore(g: Granularity, today: Date, start: Date)
    requires IsDate(today) && IsDate(start) && PeriodStart(g, today) == Some(start)
    ensures Cutoff(g, today).Some? <==> Ordinal(start) > 1
    ensures Cutoff(g, today).Some? ==>
      IsDate(Cutoff(g, today).value) && Ordinal(Cutoff(g, today).value) == Ordinal(start) - 1
  {
    OneDayBack(start, 1);
    PreviousOrFirst(start);
    var before := PreviousDay(start);
    assert AddDays(start, -1) == before by { if before.Some? { assert AddDays(before.value, 0) == before; } }
    if before.Some? { PeriodEndsBefore(g, today, start, before.value); }
  }

  /** The day before a period is the last of its own. */
  lemma PeriodEndsBefore(g: Granularity, today: Date, start: Date, before: Date)
    requires IsDate(today) && IsDate(start) && IsDate(before) && PeriodStart(g, today) == Some(start)
    requires PreviousDay(start) == Some(before)
    ensures PeriodEnd(g, before) == Some(before)
  {
    match g
    case WEEK => PreviousOrFirst(start); WeekPrecedes(g, today, start, before);
    case WEEK_SUNDAY => PreviousOrFirst(start); WeekPrecedes(g, today, start, before);
    case MONTH => MonthEnd(before);
    case QUARTER => QuarterEnd(before);
    case YEAR =>
    case _ =>
  }

  lemma WeekPrecedes(g: Granularity, today: Date, start: Date, before: Date)
    requires IsDate(today) && IsDate(start) && IsDate(before) && (g == WEEK || g == WEEK_SUNDAY)
    requires PeriodStart(g, today) == Some(start) && Ordinal(before) == Ordinal(start) - 1
    ensures PeriodEnd(g, before) == Some(before)
  {
    WeekOrdinals(g, today);
    WeekOrdinals(g, before);
    WeekBefore(g, Ordinal(today));
    OrdinalRange(before);
    SameDay(PeriodEnd(g, before).value, before);
  }

  lemma WeekBefore(g: Granularity, o: int)
    ensures WeekBase(g, WeekBase(g, o) - 1) == WeekBase(g, o) - 7
  {
    if g == WEEK { assert WeekBase(g, o) + 6 == 7 * ((o + 6) / 7); } else { assert WeekBase(g, o) == 7 * (o / 7); }
  }
}
