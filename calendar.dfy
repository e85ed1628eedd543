/** Dates and ISO 8601 week dates.
    A timestamp is a proleptic Gregorian day ordinal (day 1 is Monday,
    0001-01-01, the numbering of Python's date.toordinal) plus a second of
    that day.  IsoCalendar follows the steps of Python's date.isocalendar. */
module Calendar {

  datatype DateTime = DateTime(day: int, second: int)

  /** What a Python datetime can hold (no upper year bound is modelled). */
  predicate ValidDateTime(t: DateTime) {
    t.day >= 1 && 0 <= t.second < 86400
  }

  /** t <= u, exact to the second. */
  predicate LessEq(t: DateTime, u: DateTime) {
    t.day < u.day || (t.day == u.day && t.second <= u.second)
  }

  /** t + timedelta(days=n) */
  function AddDays(t: DateTime, n: int): (r: DateTime)
    ensures r.second == t.second && r.day == t.day + n
  {
    DateTime(t.day + n, t.second)
  }

  /** Adding days composes, n days back undo n days on, and a whole number
      of weeks keeps the time of day and the weekday, as plus_one_week and
      minus_one_week rely on. */
  lemma AddDaysShift(t: DateTime, a: int, b: int)
    ensures AddDays(AddDays(t, a), b) == AddDays(t, a + b)
    ensures AddDays(AddDays(t, a), -a) == t
    ensures ValidDateTime(t) && t.day + a >= 1 ==> ValidDateTime(AddDays(t, a))
    ensures Weekday(AddDays(t, 7 * a).day) == Weekday(t.day)
  {
    var d := t.day + 6;
    assert (d + 7 * a) % 7 == d % 7 by {
      assert d + 7 * a == (d / 7 + a) * 7 + d % 7;
    }
  }

  predicate IsLeap(y: int) {
    y % 4 == 0 && (y % 100 != 0 || y % 400 == 0)
  }

  /** Number of days in the years before year y (see DaysBeforeYearSpec). */
  function DaysBeforeYear(y: int): int {
    DaysBeforeYearCountdown(y, 2)
  }

  function DaysBeforeYearCountdown(y: int, n: nat): int {
    if n == 0 then PythonDaysBeforeYear(y) else DaysBeforeYearCountdown(y, n - 1)
  }

  /** _days_before_year(y): 365 days a year plus one for each leap year. */
  function PythonDaysBeforeYear(y: int): int {
    var p := y - 1;
    p * 365 + p / 4 - p / 100 + p / 400
  }

  lemma DaysBeforeYearSpec(y: int)
    ensures DaysBeforeYear(y) == PythonDaysBeforeYear(y)
  {
    assert DaysBeforeYearCountdown(y, 1) == DaysBeforeYearCountdown(y, 0);
  }

  function DaysBeforeMonth(y: int, m: int): int
    requires 1 <= m <= 12
  {
    [0, 31, 59, 90, 120, 151, 181, 212, 243, 273, 304, 334][m - 1]
      + (if m > 2 && IsLeap(y) then 1 else 0)
  }

  /** date(y, m, d).toordinal() */
  function ToOrdinal(y: int, m: int, d: int): int
    requires 1 <= m <= 12
  {
    DaysBeforeYear(y) + DaysBeforeMonth(y, m) + d
  }

  /** date.weekday(): Monday is 0, Sunday is 6. */
  function Weekday(day: int): (r: int)
    ensures 0 <= r < 7
  {
    (day + 6) % 7
  }

  lemma DivStep(x: int)
    ensures (x + 1) / 4 - x / 4 == if (x + 1) % 4 == 0 then 1 else 0
    ensures (x + 1) / 100 - x / 100 == if (x + 1) % 100 == 0 then 1 else 0
    ensures (x + 1) / 400 - x / 400 == if (x + 1) % 400 == 0 then 1 else 0
  {
  }

  lemma YearLength(y: int)
    ensures DaysBeforeYear(y + 1) - DaysBeforeYear(y) == if IsLeap(y) then 366 else 365
  {
    DaysBeforeYearSpec(y);
    DaysBeforeYearSpec(y + 1);
    DivStep(y - 1);
    LeapDivisors(y);
    var a, b, c := y / 4 - (y - 1) / 4, y / 100 - (y - 1) / 100, y / 400 - (y - 1) / 400;
    assert DaysBeforeYear(y + 1) - DaysBeforeYear(y) == 365 + a - b + c;
  }

  lemma YearLengthBounds(y: int)
    ensures 365 <= DaysBeforeYear(y + 1) - DaysBeforeYear(y) <= 366
  {
    YearLength(y);
  }

  lemma LeapDivisors(y: int)
    ensures y % 100 == 0 ==> y % 4 == 0
    ensures y % 400 == 0 ==> y % 100 == 0
  {
  }

  lemma {:induction false} DaysBeforeYearMonotone(y1: int, y2: int)
    requires y1 <= y2
    ensures DaysBeforeYear(y1) + 365 * (y2 - y1) <= DaysBeforeYear(y2)
    decreases y2 - y1
  {
    if y1 < y2 {
      YearLength(y2 - 1);
      DaysBeforeYearMonotone(y1, y2 - 1);
    }
  }

  /** The calendar year holding a day ordinal, found by stepping up from an
      estimate that is never too large. */
  function CalendarYear(d: int): (y: int)
    requires d >= 1
    ensures y >= 1 && DaysBeforeYear(y) < d <= DaysBeforeYear(y + 1)
  {
    var y0 := (d - 1) / 366 + 1;
    DaysBeforeYearSpec(y0);
    assert DaysBeforeYear(y0) <= (y0 - 1) * 366;
    YearFrom(d, y0)
  }

  function YearFrom(d: int, y: int): (r: int)
    requires DaysBeforeYear(y) < d
    ensures r >= y && DaysBeforeYear(r) < d <= DaysBeforeYear(r + 1)
    decreases d - DaysBeforeYear(y)
  {
    YearLength(y);
    if d <= DaysBeforeYear(y + 1) then y else YearFrom(d, y + 1)
  }

  lemma CalendarYearOfOrdinal(y: int, m: int, d: int)
    requires y >= 1 && 1 <= m <= 12 && 1 <= d <= 28
    ensures ToOrdinal(y, m, d) >= 1 && CalendarYear(ToOrdinal(y, m, d)) == y
  {
    DaysBeforeYearSpec(1);
    DaysBeforeYearMonotone(1, y);
    YearLengthBounds(y);
    var o := ToOrdinal(y, m, d);
    assert DaysBeforeYear(y) < o <= DaysBeforeYear(y + 1) by {
      assert DaysBeforeMonth(y, m) <= 335;
    }
    var c := CalendarYear(o);
    if c < y {
      DaysBeforeYearMonotone(c + 1, y);
    } else if c > y {
      DaysBeforeYearMonotone(y + 1, c);
    }
  }

  /** The ordinal of the Monday of ISO week 1 of a year (see
      IsoWeek1MondaySpec). */
  function IsoWeek1Monday(year: int): int {
    Week1MondayCountdown(year, 2)
  }

  function Week1MondayCountdown(year: int, n: nat): int {
    if n == 0 then PythonIsoWeek1Monday(year) else Week1MondayCountdown(year, n - 1)
  }

  lemma IsoWeek1MondaySpec(year: int)
    ensures IsoWeek1Monday(year) == PythonIsoWeek1Monday(year)
  {
    assert Week1MondayCountdown(year, 1) == Week1MondayCountdown(year, 0);
  }

  /** _isoweek1monday(year): the Monday on or before January 1st when that
      falls on Monday to Thursday, else the Monday after it. */
  function PythonIsoWeek1Monday(year: int): int {
    var firstday := DaysBeforeYear(year) + 1;
    var firstweekday := (firstday + 6) % 7;
    var week1monday := firstday - firstweekday;
    if firstweekday > 3 then week1monday + 7 else week1monday
  }

  lemma Week1MondayBounds(y: int)
    ensures DaysBeforeYear(y) - 2 <= IsoWeek1Monday(y) <= DaysBeforeYear(y) + 4
    ensures Weekday(IsoWeek1Monday(y)) == 0
  {
    IsoWeek1MondaySpec(y);
    var firstday := DaysBeforeYear(y) + 1;
    NearestMonday(firstday);
  }

  lemma NearestMonday(firstday: int)
    ensures var fwd := (firstday + 6) % 7;
      var m := if fwd > 3 then firstday - fwd + 7 else firstday - fwd;
      firstday - 3 <= m <= firstday + 3 && (m + 6) % 7 == 0
  {
  }

  /** An ISO year has 52 or 53 weeks. */
  lemma Week1MondayStep(y: int)
    ensures IsoWeek1Monday(y + 1) - IsoWeek1Monday(y) == 364
         || IsoWeek1Monday(y + 1) - IsoWeek1Monday(y) == 371
  {
    YearLength(y);
    Week1MondayBounds(y);
    Week1MondayBounds(y + 1);
    var m0, m1 := IsoWeek1Monday(y), IsoWeek1Monday(y + 1);
    assert 359 <= m1 - m0 <= 372;
    MondayGap(m0, m1);
  }

  lemma MondayGap(m0: int, m1: int)
    requires Weekday(m0) == 0 && Weekday(m1) == 0 && 359 <= m1 - m0 <= 372
    ensures m1 - m0 == 364 || m1 - m0 == 371
  {
  }

  lemma {:induction false} Week1MondayMonotone(y1: int, y2: int)
    requires y1 <= y2
    ensures IsoWeek1Monday(y1) + 364 * (y2 - y1) <= IsoWeek1Monday(y2)
    decreases y2 - y1
  {
    if y1 < y2 {
      Week1MondayStep(y2 - 1);
      Week1MondayMonotone(y1, y2 - 1);
    }
  }

  datatype IsoWeek = IsoWeek(year: int, week: int)

  /** date.isocalendar()[0:2] of the day with this ordinal, as computed by
      PythonIsoCalendar.  The definition is reached through a two-step
      countdown so that the calendar arithmetic stays out of the proofs that
      only need the lemmas below; IsoCalendarSpec says what the result is. */
  function IsoCalendar(d: int): IsoWeek
    requires d >= 1
  {
    Countdown(d, 2)
  }

  function Countdown(d: int, n: nat): IsoWeek
    requires d >= 1
  {
    if n == 0 then PythonIsoCalendar(d) else Countdown(d, n - 1)
  }

  /** The ISO week of a day is d's week within the ISO year whose weeks
      cover d. */
  lemma IsoCalendarSpec(d: int)
    requires d >= 1
    ensures IsoCalendar(d) == PythonIsoCalendar(d)
    ensures var w := IsoCalendar(d);
      IsoWeek1Monday(w.year) <= d < IsoWeek1Monday(w.year + 1) &&
      w.week == (d - IsoWeek1Monday(w.year)) / 7 + 1
  {
    assert Countdown(d, 1) == Countdown(d, 0);
  }

  /** The steps of Python's date.isocalendar: start from the calendar year,
      step back a year when d lies before its week 1, step forward when d lies
      in the next year's week 1. */
  function PythonIsoCalendar(d: int): (w: IsoWeek)
    requires d >= 1
    ensures IsoWeek1Monday(w.year) <= d < IsoWeek1Monday(w.year + 1)
    ensures w.week == (d - IsoWeek1Monday(w.year)) / 7 + 1
  {
    var year := CalendarYear(d);
    IsoStepFacts(year);
    IsoSteps(d, year, DaysBeforeYear(year), DaysBeforeYear(year + 1),
      IsoWeek1Monday(year - 1), IsoWeek1Monday(year), IsoWeek1Monday(year + 1), IsoWeek1Monday(year + 2))
  }

  lemma IsoStepFacts(year: int)
    ensures IsoWeek1Monday(year - 1) <= DaysBeforeYear(year) - 361
    ensures DaysBeforeYear(year) - 2 <= IsoWeek1Monday(year) <= DaysBeforeYear(year) + 4
    ensures DaysBeforeYear(year + 1) - 2 <= IsoWeek1Monday(year + 1) <= DaysBeforeYear(year + 1) + 4
    ensures DaysBeforeYear(year + 1) + 363 <= IsoWeek1Monday(year + 2)
    ensures IsoWeek1Monday(year + 1) - IsoWeek1Monday(year) >= 364
  {
    Week1MondayBounds(year - 1);
    Week1MondayBounds(year);
    Week1MondayBounds(year + 1);
    Week1MondayBounds(year + 2);
    YearLengthBounds(year - 1);
    YearLengthBounds(year + 1);
    Week1MondayStep(year);
  }

  /** The steps of isocalendar once the calendar year of d and the week-1
      Mondays of the neighbouring years are known: each of its three branches
      picks the ISO year whose weeks cover d. */
  function IsoSteps(d: int, year: int, dby: int, dbyNext: int, mPrev: int, m: int, mNext: int, mNext2: int): (w: IsoWeek)
    requires dby < d <= dbyNext
    requires mPrev <= dby - 361
    requires dby - 2 <= m <= dby + 4
    requires dbyNext - 2 <= mNext <= dbyNext + 4
    requires dbyNext + 363 <= mNext2
    requires mNext - m >= 364
    ensures w.year == year - 1 ==> mPrev <= d < m && w.week == (d - mPrev) / 7 + 1
    ensures w.year == year ==> m <= d < mNext && w.week == (d - m) / 7 + 1
    ensures w.year == year + 1 ==> mNext <= d < mNext2 && w.week == (d - mNext) / 7 + 1
    ensures year - 1 <= w.year <= year + 1
  {
    var week := (d - m) / 7;
    if week < 0 then
      IsoWeek(year - 1, (d - mPrev) / 7 + 1)
    else if week >= 52 && d >= mNext then
      IsoWeek(year + 1, 1)
    else
      IsoWeek(year, week + 1)
  }

  /** The ISO year of a day is the one whose weeks cover it. */
  lemma IsoYearUnique(d: int, y: int)
    requires d >= 1
    requires IsoWeek1Monday(y) <= d < IsoWeek1Monday(y + 1)
    ensures IsoCalendar(d) == IsoWeek(y, (d - IsoWeek1Monday(y)) / 7 + 1)
  {
    IsoCalendarSpec(d);
    var w := IsoCalendar(d);
    if w.year < y {
      Week1MondayMonotone(w.year + 1, y);
    } else if w.year > y {
      Week1MondayMonotone(y + 1, w.year);
    }
  }

  /** Number of ISO weeks in an ISO year: 52 or 53. */
  function WeeksInIsoYear(y: int): (n: int)
    ensures n == 52 || n == 53
  {
    Week1MondayStep(y);
    (IsoWeek1Monday(y + 1) - IsoWeek1Monday(y)) / 7
  }

  /** Week numbers lie in 1..53 and ISO years of valid dates are positive. */
  lemma IsoWeekRange(d: int)
    requires d >= 1
    ensures 1 <= IsoCalendar(d).week <= WeeksInIsoYear(IsoCalendar(d).year) <= 53
    ensures IsoCalendar(d).year >= 1
  {
    IsoCalendarSpec(d);
    var w := IsoCalendar(d);
    Week1MondayStep(w.year);
    WeekInRange(d, IsoWeek1Monday(w.year), IsoWeek1Monday(w.year + 1));
    if w.year < 1 {
      Week1MondayMonotone(w.year + 1, 1);
      Week1MondayOfYearOne();
    }
  }

  lemma WeekInRange(d: int, m0: int, m1: int)
    requires m0 <= d < m1 && (m1 - m0 == 364 || m1 - m0 == 371)
    ensures 1 <= (d - m0) / 7 + 1 <= (m1 - m0) / 7 <= 53
  {
  }

  lemma Week1MondayOfYearOne()
    ensures IsoWeek1Monday(1) == 1
  {
    IsoWeek1MondaySpec(1);
    DaysBeforeYearSpec(1);
  }

  /** Index of the Monday-to-Sunday week holding a day (ordinal 1 is a Monday). */
  function AbsWeek(d: int): int {
    (d - 1) / 7
  }

  /** get_week's comparison key year*100 + week. */
  function WeekKey(w: IsoWeek): int {
    w.year * 100 + w.week
  }

  /** Two days of the same Monday-to-Sunday week have the same ISO week. */
  lemma SameWeekSameIso(a: int, b: int)
    requires a >= 1 && b >= 1 && AbsWeek(a) == AbsWeek(b)
    ensures IsoCalendar(a) == IsoCalendar(b)
  {
    IsoCalendarSpec(a);
    var wa := IsoCalendar(a);
    Week1MondayBounds(wa.year);
    Week1MondayBounds(wa.year + 1);
    SameWeekInterval(a, b, IsoWeek1Monday(wa.year), IsoWeek1Monday(wa.year + 1));
    IsoYearUnique(b, wa.year);
  }

  lemma SameWeekInterval(a: int, b: int, m0: int, m1: int)
    requires Weekday(m0) == 0 && Weekday(m1) == 0
    requires m0 <= a < m1 && AbsWeek(a) == AbsWeek(b)
    ensures m0 <= b < m1 && (b - m0) / 7 == (a - m0) / 7
  {
  }

  lemma LaterWeekInterval(a: int, b: int, m0: int)
    requires Weekday(m0) == 0 && m0 <= a && AbsWeek(a) < AbsWeek(b)
    ensures a < b && (a - m0) / 7 < (b - m0) / 7
  {
  }

  /** ISO years never go backwards in time. */
  lemma IsoYearOrder(a: int, b: int)
    requires 1 <= a <= b
    ensures IsoCalendar(a).year <= IsoCalendar(b).year
  {
    IsoCalendarSpec(a);
    IsoCalendarSpec(b);
    var wa, wb := IsoCalendar(a), IsoCalendar(b);
    var ya, yb := wa.year, wb.year;
    var ma: int, mb1: int := IsoWeek1Monday(ya), IsoWeek1Monday(yb + 1);
    assert ma <= a;
    assert b < mb1;
    if yb < ya {
      Week1MondayMonotone(yb + 1, ya);
    }
  }

  /** The key grows strictly from one Monday-to-Sunday week to any later one:
      comparing keys is comparing weeks in time. */
  lemma IsoKeyStrictlyIncreasing(a: int, b: int)
    requires a >= 1 && b >= 1 && AbsWeek(a) < AbsWeek(b)
    ensures WeekKey(IsoCalendar(a)) < WeekKey(IsoCalendar(b))
  {
    IsoWeekRange(a);
    IsoWeekRange(b);
    IsoYearOrder(a, b);
    LaterWeekSameYear(a, b);
    KeyOrder(IsoCalendar(a), IsoCalendar(b));
  }

  /** Within one ISO year, a later Monday-to-Sunday week has a larger number. */
  lemma LaterWeekSameYear(a: int, b: int)
    requires a >= 1 && b >= 1 && AbsWeek(a) < AbsWeek(b)
    ensures IsoCalendar(a).year == IsoCalendar(b).year ==> IsoCalendar(a).week < IsoCalendar(b).week
  {
    IsoCalendarSpec(a);
    IsoCalendarSpec(b);
    var y := IsoCalendar(a).year;
    Week1MondayBounds(y);
    LaterWeekInterval(a, b, IsoWeek1Monday(y));
  }

  lemma KeyOrder(wa: IsoWeek, wb: IsoWeek)
    requires wa.year <= wb.year && 1 <= wa.week <= 53 && 1 <= wb.week <= 53
    requires wa.year == wb.year ==> wa.week < wb.week
    ensures WeekKey(wa) < WeekKey(wb)
  {
  }

  lemma IsoKeyOrder(a: int, b: int)
    requires a >= 1 && b >= 1
    ensures WeekKey(IsoCalendar(a)) <= WeekKey(IsoCalendar(b)) <==> AbsWeek(a) <= AbsWeek(b)
    ensures IsoCalendar(a) == IsoCalendar(b) <==> AbsWeek(a) == AbsWeek(b)
  {
    if AbsWeek(a) < AbsWeek(b) {
      IsoKeyStrictlyIncreasing(a, b);
    } else if AbsWeek(b) < AbsWeek(a) {
      IsoKeyStrictlyIncreasing(b, a);
    } else {
      SameWeekSameIso(a, b);
    }
  }

  /** The ISO week after w: the next number, or week 1 of the next ISO year
      after the year's last week. */
  function NextIsoWeek(w: IsoWeek): IsoWeek {
    if w.week < WeeksInIsoYear(w.year) then IsoWeek(w.year, w.week + 1)
    else IsoWeek(w.year + 1, 1)
  }

  /** Seven days later is the next ISO week, rolling over to week 1 of the
      next ISO year after the year's last week (52 or 53). */
  lemma IsoNextWeek(d: int)
    requires d >= 1
    ensures IsoCalendar(d + 7) == NextIsoWeek(IsoCalendar(d))
  {
    IsoCalendarSpec(d);
    var w := IsoCalendar(d);
    if d + 7 < IsoWeek1Monday(w.year + 1) {
      NextWeekWithin(d, w.year);
    } else {
      NextWeekRollover(d, w.year);
    }
  }

  lemma NextWeekWithin(d: int, y: int)
    requires d >= 1 && IsoWeek1Monday(y) <= d && d + 7 < IsoWeek1Monday(y + 1)
    ensures IsoCalendar(d + 7) == IsoWeek(y, (d - IsoWeek1Monday(y)) / 7 + 2)
    ensures (d - IsoWeek1Monday(y)) / 7 + 1 < WeeksInIsoYear(y)
  {
    NextWeekSameYear(d, y);
    NextWeekNotLast(d, y);
  }

  lemma NextWeekSameYear(d: int, y: int)
    requires d >= 1 && IsoWeek1Monday(y) <= d && d + 7 < IsoWeek1Monday(y + 1)
    ensures IsoCalendar(d + 7) == IsoWeek(y, (d - IsoWeek1Monday(y)) / 7 + 2)
  {
    IsoYearUnique(d + 7, y);
    ShiftWeek(d, IsoWeek1Monday(y));
  }

  lemma NextWeekNotLast(d: int, y: int)
    requires IsoWeek1Monday(y) <= d && d + 7 < IsoWeek1Monday(y + 1)
    ensures (d - IsoWeek1Monday(y)) / 7 + 1 < WeeksInIsoYear(y)
  {
    Week1MondayStep(y);
    NextWeekStep(d, IsoWeek1Monday(y), IsoWeek1Monday(y + 1), IsoWeek1Monday(y + 1) + 364);
  }

  lemma ShiftWeek(d: int, m0: int)
    ensures (d + 7 - m0) / 7 == (d - m0) / 7 + 1
  {
  }

  lemma NextWeekRollover(d: int, y: int)
    requires d >= 1 && IsoWeek1Monday(y) <= d < IsoWeek1Monday(y + 1) <= d + 7
    ensures IsoCalendar(d + 7) == IsoWeek(y + 1, 1)
    ensures (d - IsoWeek1Monday(y)) / 7 + 1 == WeeksInIsoYear(y)
  {
    NextWeekNewYear(d, y);
    NextWeekIsLast(d, y);
  }

  lemma NextWeekNewYear(d: int, y: int)
    requires d >= 1 && d < IsoWeek1Monday(y + 1) <= d + 7
    ensures IsoCalendar(d + 7) == IsoWeek(y + 1, 1)
  {
    Week1MondayStep(y + 1);
    FirstWeek(d + 7, IsoWeek1Monday(y + 1));
    IsoYearUnique(d + 7, y + 1);
  }

  lemma FirstWeek(e: int, m: int)
    requires m <= e < m + 7
    ensures (e - m) / 7 + 1 == 1
  {
  }

  lemma NextWeekIsLast(d: int, y: int)
    requires IsoWeek1Monday(y) <= d < IsoWeek1Monday(y + 1) <= d + 7
    ensures (d - IsoWeek1Monday(y)) / 7 + 1 == WeeksInIsoYear(y)
  {
    Week1MondayStep(y);
    NextWeekStep(d, IsoWeek1Monday(y), IsoWeek1Monday(y + 1), IsoWeek1Monday(y + 1) + 364);
  }

  lemma NextWeekStep(d: int, m0: int, m1: int, m2: int)
    requires m0 <= d < m1 && (m1 - m0 == 364 || m1 - m0 == 371) && m2 - m1 >= 364
    ensures d + 7 < m1 ==> (d + 7 - m0) / 7 + 1 == (d - m0) / 7 + 2 && (d - m0) / 7 + 1 < (m1 - m0) / 7
    ensures d + 7 >= m1 ==> (d - m0) / 7 + 1 == (m1 - m0) / 7 && d + 7 < m2 && (d + 7 - m1) / 7 == 0
  {
  }
}
