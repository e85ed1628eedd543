/** The report wizard (resource_planning_report/models/report_wizard.py):
    the check that the start week is not after the end week, and the list of
    week strings between them taken from the week table. */
module ReportWizard {
  import opened Outcomes
  import opened PyBits

  /** A week.model record as the wizard reads it. */
  datatype WeekEntry = WeekEntry(weekNum: int, year: int, weekString: string)

  /** (year, week) of a comes no later than that of b. */
  predicate NotAfter(a: WeekEntry, b: WeekEntry) {
    a.year < b.year || (a.year == b.year && a.weekNum <= b.weekNum)
  }

  /** start_week_before_end_week as written.  At line 49 `&` binds tighter
      than the comparisons, so Python reads a chain of two comparisons around
      end.year & start.week_num. */
  function StartWeekBeforeEndWeekAsWritten(start: WeekEntry, end: WeekEntry): Result<()> {
    if end.year < start.year then Err("Start week must be before end week")
    else
      var m := PyAnd(end.year, start.weekNum);
      if start.year == m && m > end.weekNum then Err("Start week must be before end week")
      else Ok(())
  }

  /** As written, week 30 of 2020 is accepted as a start before week 20 of
      2020: 2020 & 30 is 4, not 2020. */
  lemma StartWeekAsWrittenAcceptsReversed()
    ensures PyAnd(2020, 30) == 4
    ensures StartWeekBeforeEndWeekAsWritten(WeekEntry(30, 2020, "2020, W30"), WeekEntry(20, 2020, "2020, W20")).Ok?
    ensures !NotAfter(WeekEntry(30, 2020, "2020, W30"), WeekEntry(20, 2020, "2020, W20"))
  {
    AndZero(63);
    assert PyAnd(126, 1) == 0;
    assert PyAnd(252, 3) == 0;
    assert PyAnd(505, 7) == 1;
    assert PyAnd(1010, 15) == 2;
  }

  /** start_week_before_end_week with line 49 read as intended: reject
      an end year before the start year, or the same year with a larger
      start week. */
  function StartWeekBeforeEndWeek(start: WeekEntry, end: WeekEntry): (r: Result<()>)
    ensures r.Ok? <==> NotAfter(start, end)
    ensures r.Err? ==> r.msg == "Start week must be before end week"
  {
    if end.year < start.year then Err("Start week must be before end week")
    else if start.year == end.year && start.weekNum > end.weekNum then Err("Start week must be before end week")
    else Ok(())
  }

  /** Saving the wizard's two weeks as the module registers its check: the
      bare decorator at line 39 names no field, so Odoo runs no constraint
      on save and the weeks are stored whatever their order. */
  function SaveWeeksAsWritten(start: WeekEntry, end: WeekEntry): Result<(WeekEntry, WeekEntry)> {
    Ok((start, end))
  }

  /** As written, a start in week 12 of 2021 is saved with an end in week
      12 of 2020, which the check itself refuses. */
  lemma SaveWeeksAsWrittenAcceptsReversed()
    ensures var start := WeekEntry(12, 2021, "2021, W12");
      var end := WeekEntry(12, 2020, "2020, W12");
      && SaveWeeksAsWritten(start, end) == Ok((start, end))
      && !NotAfter(start, end)
      && StartWeekBeforeEndWeek(start, end) == Err("Start week must be before end week")
  {
  }

  /** Saving the wizard's two weeks with the check registered on both
      fields, as @api.constrains('start_week', 'end_week') would have it:
      the weeks are stored exactly when the start comes no later than the
      end, and otherwise refused with the check's message. */
  function SaveWeeks(start: WeekEntry, end: WeekEntry): (r: Result<(WeekEntry, WeekEntry)>)
    ensures r.Ok? <==> NotAfter(start, end)
    ensures r.Ok? ==> r.value == (start, end)
    ensures r.Err? ==> r.msg == "Start week must be before end week"
  {
    match StartWeekBeforeEndWeek(start, end)
    case Err(msg) => Err(msg)
    case Ok(_) => Ok((start, end))
  }

  /** The first test of get_weeks as written: at line 63 `|` binds tighter
      than the comparisons, giving year < (start.year | year) > end.year. */
  predicate SkipYearAsWritten(year: int, start: WeekEntry, end: WeekEntry) {
    var m := PyOr(start.year, year);
    year < m && m > end.year
  }

  /** The week strings get_weeks returns as written, in table order. */
  function GetWeeksAsWritten(table: seq<WeekEntry>, start: WeekEntry, end: WeekEntry): seq<string> {
    if table == [] then []
    else
      var week := table[0];
      var keep := !SkipYearAsWritten(week.year, start, end)
        && !(week.year == start.year && week.weekNum < start.weekNum)
        && !(week.year == end.year && week.weekNum > end.weekNum);
      (if keep then [week.weekString] else []) + GetWeeksAsWritten(table[1..], start, end)
  }

  /** Whatever the year test does, the two week-number tests keep out the
      weeks of the start year before the start week and the weeks of the
      end year after the end week. */
  lemma {:induction false} GetWeeksAsWrittenEnds(table: seq<WeekEntry>, start: WeekEntry, end: WeekEntry, s: string)
    requires s in GetWeeksAsWritten(table, start, end)
    ensures exists i :: (0 <= i < |table| && table[i].weekString == s
                         && !(table[i].year == start.year && table[i].weekNum < start.weekNum)
                         && !(table[i].year == end.year && table[i].weekNum > end.weekNum))
  {
    var week := table[0];
    var keep := !SkipYearAsWritten(week.year, start, end)
      && !(week.year == start.year && week.weekNum < start.weekNum)
      && !(week.year == end.year && week.weekNum > end.weekNum);
    if keep && s == week.weekString {
      assert table[0].weekString == s;
    } else {
      assert s in GetWeeksAsWritten(table[1..], start, end);
      GetWeeksAsWrittenEnds(table[1..], start, end, s);
      var i :| 0 <= i < |table[1..]| && table[1..][i].weekString == s &&
        !(table[1..][i].year == start.year && table[1..][i].weekNum < start.weekNum) &&
        !(table[1..][i].year == end.year && table[1..][i].weekNum > end.weekNum);
      assert table[i + 1] == table[1..][i];
    }
  }

  /** As written, a report from week 20 to week 21 of 2020 also lists the
      weeks of 2021: 2020 | 2021 is 2021, which is not above 2021. */
  lemma GetWeeksAsWrittenLeaksNextYear()
    ensures PyOr(2020, 2021) == 2021
    ensures GetWeeksAsWritten([WeekEntry(5, 2021, "2021, W05")],
      WeekEntry(20, 2020, "2020, W20"), WeekEntry(21, 2020, "2020, W21")) == ["2021, W05"]
  {
    OrSelf(1010);
  }

  /** A week of the table lies from start to end, ends included. */
  predicate InRange(week: WeekEntry, start: WeekEntry, end: WeekEntry) {
    NotAfter(start, week) && NotAfter(week, end)
  }

  /** The week strings from start to end, in table order. */
  function WeeksInRange(table: seq<WeekEntry>, start: WeekEntry, end: WeekEntry): seq<string> {
    if table == [] then []
    else
      (if InRange(table[0], start, end) then [table[0].weekString] else [])
        + WeeksInRange(table[1..], start, end)
  }

  lemma WeeksInRangeSnoc(table: seq<WeekEntry>, week: WeekEntry, start: WeekEntry, end: WeekEntry)
    ensures WeeksInRange(table + [week], start, end)
      == WeeksInRange(table, start, end) + (if InRange(week, start, end) then [week.weekString] else [])
  {
    if table != [] {
      assert (table + [week])[1..] == table[1..] + [week];
      WeeksInRangeSnoc(table[1..], week, start, end);
    }
  }

  /** get_weeks with line 63 read as intended (skip years before the start
      year or after the end year); it walks the week table with the same
      continue tests. */
  method GetWeeks(table: seq<WeekEntry>, start: WeekEntry, end: WeekEntry) returns (weeks: seq<string>)
    ensures weeks == WeeksInRange(table, start, end)
  {
    weeks := [];
    var k := 0;
    while k < |table|
      invariant 0 <= k <= |table|
      invariant weeks == WeeksInRange(table[..k], start, end)
    {
      var week := table[k];
      assert table[..k + 1] == table[..k] + [week];
      WeeksInRangeSnoc(table[..k], week, start, end);
      k := k + 1;
      if week.year < start.year || week.year > end.year {
        continue;
      }
      if week.year == start.year {
        if week.weekNum < start.weekNum {
          continue;
        }
      }
      if week.year == end.year {
        if week.weekNum > end.weekNum {
          continue;
        }
      }
      weeks := weeks + [week.weekString];
    }
    assert table[..k] == table;
  }

  /** A week string is listed exactly when some week of the table from start
      to end carries it. */
  lemma {:induction false} WeeksInRangeMembers(table: seq<WeekEntry>, start: WeekEntry, end: WeekEntry, s: string)
    ensures s in WeeksInRange(table, start, end) <==>
      exists i :: 0 <= i < |table| && table[i].weekString == s && InRange(table[i], start, end)
  {
    if table != [] {
      WeeksInRangeMembers(table[1..], start, end, s);
      if exists i :: 0 <= i < |table| && table[i].weekString == s && InRange(table[i], start, end) {
        var i :| 0 <= i < |table| && table[i].weekString == s && InRange(table[i], start, end);
        if i > 0 {
          assert table[1..][i - 1] == table[i];
        }
      }
      if s in WeeksInRange(table[1..], start, end) {
        var i :| 0 <= i < |table[1..]| && table[1..][i].weekString == s && InRange(table[1..][i], start, end);
        assert table[i + 1] == table[1..][i];
      }
    }
  }

  /** Within one year, the range is the weeks of that year from the start
      week number to the end week number. */
  lemma SameYearRange(week: WeekEntry, start: WeekEntry, end: WeekEntry)
    requires start.year == end.year
    ensures InRange(week, start, end) <==>
      week.year == start.year && start.weekNum <= week.weekNum <= end.weekNum
  {
  }

  /** From a week to itself the result is that week's string, once per
      table entry of that week. */
  lemma {:induction false} SingleWeekRange(table: seq<WeekEntry>, week: WeekEntry)
    requires forall i :: 0 <= i < |table| ==> (table[i].year == week.year && table[i].weekNum == week.weekNum <==> i == 0)
    requires |table| > 0 && table[0] == week
    ensures WeeksInRange(table, week, week) == [week.weekString]
  {
    NoneInRange(table[1..], week);
  }

  lemma {:induction false} NoneInRange(table: seq<WeekEntry>, week: WeekEntry)
    requires forall i :: 0 <= i < |table| ==> !(table[i].year == week.year && table[i].weekNum == week.weekNum)
    ensures WeeksInRange(table, week, week) == []
  {
    if table != [] {
      assert !(table[0].year == week.year && table[0].weekNum == week.weekNum);
      NoneInRange(table[1..], week);
    }
  }
}
