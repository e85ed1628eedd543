/** The weeks a resource spans (get_week and compute_weeks in
    resource_planning/models/resource.py).  Starting from the earliest
    start date of all resources, the code keeps stepping by seven days while
    the week key year*100+week is at most the key of the latest end date; the
    weeks whose key lies between the resource's own start and end weeks form
    its project weeks. */
module WeekSpan {
  import opened Calendar

  /** get_week(date): the key year*100 + week of the ISO week of a date. */
  function GetWeek(t: DateTime): int
    requires t.day >= 1
  {
    WeekKey(IsoCalendar(t.day))
  }

  /** The ISO weeks of the m Monday-to-Sunday weeks starting with day s's. */
  function Walk(s: int, m: nat): (r: seq<IsoWeek>)
    requires s >= 1
    ensures |r| == m
  {
    if m == 0 then [] else Walk(s, m - 1) + [IsoCalendar(s + 7 * (m - 1))]
  }

  /** The i-th week of a walk is the ISO week of the day 7*i days on. */
  lemma {:induction false} WalkAt(s: int, m: nat, i: int)
    requires s >= 1 && 0 <= i < m
    ensures Walk(s, m)[i] == IsoCalendar(s + 7 * i)
  {
    if i < m - 1 {
      WalkAt(s, m - 1, i);
    }
  }

  /** The number of Monday-to-Sunday weeks from day s's to day e's. */
  function SpanCount(s: int, e: int): nat {
    if AbsWeek(s) <= AbsWeek(e) then AbsWeek(e) - AbsWeek(s) + 1 else 0
  }

  /** The ISO weeks touched by the days from s to e, one per
      Monday-to-Sunday week, in order (empty when s's week is after e's). */
  function Span(s: int, e: int): seq<IsoWeek>
    requires s >= 1 && e >= 1
  {
    Walk(s, SpanCount(s, e))
  }

  /** compute_first_and_last_date: the earliest start and the latest end of
      the given resource's dates and those of the stored resources. */
  function FirstAndLast(start: DateTime, end: DateTime, starts: seq<DateTime>, ends: seq<DateTime>): (r: (DateTime, DateTime))
    requires |starts| == |ends|
    ensures LessEq(r.0, start) && forall i :: 0 <= i < |starts| ==> LessEq(r.0, starts[i])
    ensures r.0 == start || exists i :: 0 <= i < |starts| && r.0 == starts[i]
    ensures LessEq(end, r.1) && forall i :: 0 <= i < |ends| ==> LessEq(ends[i], r.1)
    ensures r.1 == end || exists i :: 0 <= i < |ends| && r.1 == ends[i]
  {
    if starts == [] then (start, end)
    else
      var minDate := MinDate(starts);
      var maxDate := MaxDate(ends);
      (if Before(start, minDate) then start else minDate,
       if Before(maxDate, end) then end else maxDate)
  }

  /** t < u, exact to the second. */
  predicate Before(t: DateTime, u: DateTime) {
    !LessEq(u, t)
  }

  /** Python's min over a non-empty list of datetimes. */
  function MinDate(ts: seq<DateTime>): (m: DateTime)
    requires ts != []
    ensures m in ts && forall i :: 0 <= i < |ts| ==> LessEq(m, ts[i])
  {
    if |ts| == 1 then ts[0]
    else
      var rest := MinDate(ts[1..]);
      if LessEq(ts[0], rest) then ts[0] else rest
  }

  /** Python's max over a non-empty list of datetimes. */
  function MaxDate(ts: seq<DateTime>): (m: DateTime)
    requires ts != []
    ensures m in ts && forall i :: 0 <= i < |ts| ==> LessEq(ts[i], m)
  {
    if |ts| == 1 then ts[0]
    else
      var rest := MaxDate(ts[1..]);
      if LessEq(rest, ts[0]) then ts[0] else rest
  }

  /** How many weeks of the span s..e come before day d's week. */
  function Covered(s: int, e: int, d: int): nat {
    var k := AbsWeek(d) - AbsWeek(s);
    if k <= 0 then 0 else if k >= SpanCount(s, e) then SpanCount(s, e) else k
  }

  /** compute_weeks(start_date, end_date), with the stored resources' start
      and end dates passed in.  The week array covers every week from the
      earliest start to the latest end; the project week array covers the
      resource's own weeks, whatever the other resources' dates are. */
  method ComputeWeeks(start: DateTime, end: DateTime, starts: seq<DateTime>, ends: seq<DateTime>)
      returns (weekArray: seq<IsoWeek>, projectWeekArray: seq<IsoWeek>)
    requires start.day >= 1 && end.day >= 1 && |starts| == |ends|
    requires forall i :: 0 <= i < |starts| ==> starts[i].day >= 1 && ends[i].day >= 1
    ensures var (first, last) := FirstAndLast(start, end, starts, ends);
      weekArray == Span(first.day, last.day)
    ensures projectWeekArray == Span(start.day, end.day)
  {
    var dates := FirstAndLast(start, end, starts, ends);
    assert dates.0.day >= 1 && dates.1.day >= 1;
    weekArray, projectWeekArray := CollectWeeks(dates.0, dates.1, start, end);
  }

  /** The loop of compute_weeks: from the first date, step a week at a time
      while the week key is at most the last date's, collecting every week
      and, apart, those between the resource's start and end weeks. */
  method CollectWeeks(first: DateTime, last: DateTime, start: DateTime, end: DateTime)
      returns (weekArray: seq<IsoWeek>, projectWeekArray: seq<IsoWeek>)
    requires 1 <= first.day <= start.day && 1 <= end.day <= last.day
    ensures weekArray == Span(first.day, last.day)
    ensures projectWeekArray == Span(start.day, end.day)
  {
    var lastWeek := GetWeek(last);
    var startWeek := GetWeek(start);
    var endWeek := GetWeek(end);
    var dateI := first;
    var weekI := GetWeek(dateI);
    weekArray := [];
    projectWeekArray := [];
    while weekI <= lastWeek
      invariant dateI.day >= 1 && weekI == GetWeek(dateI)
      invariant AbsWeek(first.day) <= AbsWeek(dateI.day)
      invariant AbsWeek(dateI.day) == AbsWeek(first.day) || AbsWeek(dateI.day) <= AbsWeek(last.day) + 1
      invariant weekArray == Walk(first.day, AbsWeek(dateI.day) - AbsWeek(first.day))
      invariant projectWeekArray == Walk(start.day, Covered(start.day, end.day, dateI.day))
      decreases lastWeek - weekI
    {
      var weekData := IsoCalendar(dateI.day);
      NextStep(dateI, last);
      WalkExtend(first.day, dateI.day);
      weekArray := weekArray + [weekData];
      if startWeek <= weekI <= endWeek {
        ProjectStepIn(start.day, end.day, dateI.day);
        WalkExtend(start.day, dateI.day);
        projectWeekArray := projectWeekArray + [weekData];
      } else {
        ProjectStepOut(start.day, end.day, dateI.day);
      }
      dateI := AddDays(dateI, 7);
      weekI := GetWeek(dateI);
    }
    WalkDone(first.day, dateI.day, last.day);
    ProjectDone(start.day, end.day, dateI.day, last.day);
  }

  lemma NextStep(t: DateTime, last: DateTime)
    requires t.day >= 1 && last.day >= 1 && GetWeek(t) <= GetWeek(last)
    ensures AddDays(t, 7).day == t.day + 7 && GetWeek(t) < GetWeek(AddDays(t, 7))
    ensures AbsWeek(t.day + 7) == AbsWeek(t.day) + 1 && AbsWeek(t.day) <= AbsWeek(last.day)
  {
    StepKey(t.day, last.day);
  }

  /** One iteration extends the walk by the current week. */
  lemma WalkStep(first: int, d: int, last: int)
    requires 1 <= first && 1 <= d && 1 <= last && AbsWeek(first) <= AbsWeek(d)
    requires WeekKey(IsoCalendar(d)) <= WeekKey(IsoCalendar(last))
    ensures WeekKey(IsoCalendar(d)) < WeekKey(IsoCalendar(d + 7))
    ensures AbsWeek(d + 7) == AbsWeek(d) + 1 && AbsWeek(d) <= AbsWeek(last)
    ensures Walk(first, AbsWeek(d) - AbsWeek(first)) + [IsoCalendar(d)]
         == Walk(first, AbsWeek(d + 7) - AbsWeek(first))
  {
    StepKey(d, last);
    WalkExtend(first, d);
  }

  lemma StepKey(d: int, last: int)
    requires 1 <= d && 1 <= last
    requires WeekKey(IsoCalendar(d)) <= WeekKey(IsoCalendar(last))
    ensures WeekKey(IsoCalendar(d)) < WeekKey(IsoCalendar(d + 7))
    ensures AbsWeek(d + 7) == AbsWeek(d) + 1 && AbsWeek(d) <= AbsWeek(last)
  {
    IsoKeyStrictlyIncreasing(d, d + 7);
    IsoKeyOrder(d, last);
  }

  /** Appending d's week to the walk up to d's week gives the walk one
      week longer. */
  lemma WalkExtend(first: int, d: int)
    requires 1 <= first && 1 <= d && AbsWeek(first) <= AbsWeek(d)
    ensures Walk(first, AbsWeek(d) - AbsWeek(first)) + [IsoCalendar(d)]
         == Walk(first, AbsWeek(d) - AbsWeek(first) + 1)
  {
    var k := AbsWeek(d) - AbsWeek(first);
    SameWeekSameIso(first + 7 * k, d);
  }

  /** A week whose key is in range is the next week of the resource's span. */
  lemma ProjectStepIn(s: int, e: int, d: int)
    requires 1 <= s && 1 <= e && 1 <= d
    requires WeekKey(IsoCalendar(s)) <= WeekKey(IsoCalendar(d)) <= WeekKey(IsoCalendar(e))
    ensures AbsWeek(s) <= AbsWeek(d)
    ensures Covered(s, e, d) == AbsWeek(d) - AbsWeek(s)
    ensures Covered(s, e, d + 7) == AbsWeek(d) - AbsWeek(s) + 1
  {
    IsoKeyOrder(s, d);
    IsoKeyOrder(d, e);
  }

  /** A week whose key is out of range leaves the project weeks alone. */
  lemma ProjectStepOut(s: int, e: int, d: int)
    requires 1 <= s && 1 <= e && 1 <= d
    requires !(WeekKey(IsoCalendar(s)) <= WeekKey(IsoCalendar(d)) <= WeekKey(IsoCalendar(e)))
    ensures Covered(s, e, d) == Covered(s, e, d + 7)
  {
    IsoKeyOrder(s, d);
    IsoKeyOrder(d, e);
  }

  /** When the loop ends the walk has covered every week up to the last's. */
  lemma WalkDone(first: int, d: int, last: int)
    requires 1 <= first && 1 <= d && 1 <= last && AbsWeek(first) <= AbsWeek(d)
    requires WeekKey(IsoCalendar(d)) > WeekKey(IsoCalendar(last))
    requires AbsWeek(d) == AbsWeek(first) || AbsWeek(d) <= AbsWeek(last) + 1
    ensures AbsWeek(d) - AbsWeek(first) == SpanCount(first, last)
  {
    IsoKeyOrder(d, last);
  }

  /** When the loop ends the project weeks are the whole span. */
  lemma ProjectDone(s: int, e: int, d: int, last: int)
    requires 1 <= s && 1 <= e && 1 <= d && 1 <= last && e <= last
    requires WeekKey(IsoCalendar(d)) > WeekKey(IsoCalendar(last))
    ensures Covered(s, e, d) == SpanCount(s, e)
  {
    IsoKeyOrder(d, last);
  }

  /** Stepping seven days moves to the next Monday-to-Sunday week. */
  lemma AbsWeekShift(s: int, i: int)
    ensures AbsWeek(s + 7 * i) == AbsWeek(s) + i
  {
  }

  /** The i-th week of a span is the ISO week of the day 7*i days after its
      start, and there are as many as Monday-to-Sunday weeks from s's to e's. */
  lemma SpanAt(s: int, e: int, i: int)
    requires s >= 1 && e >= 1 && 0 <= i < |Span(s, e)|
    ensures |Span(s, e)| == SpanCount(s, e)
    ensures Span(s, e)[i] == IsoCalendar(s + 7 * i)
    ensures AbsWeek(s + 7 * i) == AbsWeek(s) + i <= AbsWeek(e)
  {
    WalkAt(s, SpanCount(s, e), i);
    AbsWeekShift(s, i);
  }

  /** A day's ISO week is in the span exactly when its key lies between the
      keys of s and e: the span lists every week from week(s) to week(e). */
  lemma SpanMembers(s: int, e: int, d: int)
    requires s >= 1 && e >= 1 && d >= 1
    ensures IsoCalendar(d) in Span(s, e) <==>
      WeekKey(IsoCalendar(s)) <= WeekKey(IsoCalendar(d)) <= WeekKey(IsoCalendar(e))
  {
    IsoKeyOrder(s, d);
    IsoKeyOrder(d, e);
    var span := Span(s, e);
    if WeekKey(IsoCalendar(s)) <= WeekKey(IsoCalendar(d)) <= WeekKey(IsoCalendar(e)) {
      var k := AbsWeek(d) - AbsWeek(s);
      WalkAt(s, SpanCount(s, e), k);
      AbsWeekShift(s, k);
      SameWeekSameIso(s + 7 * k, d);
      assert span[k] == IsoCalendar(d);
    }
    if IsoCalendar(d) in span {
      var i :| 0 <= i < |span| && span[i] == IsoCalendar(d);
      SpanAt(s, e, i);
      IsoKeyOrder(s + 7 * i, d);
    }
  }

  /** Every week of a span lies between week(s) and week(e). */
  lemma SpanBounds(s: int, e: int, i: int)
    requires s >= 1 && e >= 1 && 0 <= i < |Span(s, e)|
    ensures WeekKey(IsoCalendar(s)) <= WeekKey(Span(s, e)[i]) <= WeekKey(IsoCalendar(e))
  {
    SpanAt(s, e, i);
    IsoKeyOrder(s, s + 7 * i);
    IsoKeyOrder(s + 7 * i, e);
  }

  /** A span lies within the span of any wider date range: compute_weeks's
      week array holds every project week of each resource. */
  lemma SpanWithin(s: int, e: int, s': int, e': int, i: int)
    requires 1 <= s' <= s && 1 <= e <= e' && 0 <= i < |Span(s, e)|
    ensures Span(s, e)[i] in Span(s', e')
  {
    SpanAt(s, e, i);
    var d := s + 7 * i;
    assert AbsWeek(s') <= AbsWeek(s) && AbsWeek(e) <= AbsWeek(e');
    IsoKeyOrder(s', d);
    IsoKeyOrder(d, e');
    SpanMembers(s', e', d);
  }

  /** The span is in strictly increasing key order, so no week appears
      twice. */
  lemma SpanIncreasing(s: int, e: int, i: int, j: int)
    requires s >= 1 && e >= 1 && 0 <= i < j < |Span(s, e)|
    ensures WeekKey(Span(s, e)[i]) < WeekKey(Span(s, e)[j])
  {
    SpanAt(s, e, i);
    SpanAt(s, e, j);
    IsoKeyStrictlyIncreasing(s + 7 * i, s + 7 * j);
  }

  /** The span has no gaps: each week is followed by the next ISO week. */
  lemma SpanConsecutive(s: int, e: int, i: int)
    requires s >= 1 && e >= 1 && 0 <= i < |Span(s, e)| - 1
    ensures Span(s, e)[i + 1] == NextIsoWeek(Span(s, e)[i])
  {
    SpanAt(s, e, i);
    SpanAt(s, e, i + 1);
    IsoNextWeek(s + 7 * i);
    assert s + 7 * (i + 1) == s + 7 * i + 7;
  }

  /** When week(s) comes after week(e) the span is empty. */
  lemma SpanEmpty(s: int, e: int)
    requires s >= 1 && e >= 1
    ensures Span(s, e) == [] <==> WeekKey(IsoCalendar(e)) < WeekKey(IsoCalendar(s))
  {
    IsoKeyOrder(s, e);
  }

  /** Two days of one ISO week span exactly that week. */
  lemma SpanOneWeek(s: int, e: int)
    requires s >= 1 && e >= 1 && IsoCalendar(s) == IsoCalendar(e)
    ensures Span(s, e) == [IsoCalendar(s)]
  {
    IsoKeyOrder(s, e);
    WalkAt(s, 1, 0);
  }

  /** 2019-12-27 to 2020-01-17 spans week 52 of 2019 and weeks 1 to 3 of
      2020. */
  lemma YearBoundaryExample(s: int, e: int)
    requires s == ToOrdinal(2019, 12, 27) && e == ToOrdinal(2020, 1, 17)
    ensures s >= 1 && e >= 1
    ensures Span(s, e) == [IsoWeek(2019, 52), IsoWeek(2020, 1), IsoWeek(2020, 2), IsoWeek(2020, 3)]
  {
    DaysBeforeYearSpec(2019);
    DaysBeforeYearSpec(2020);
    assert s == 737420 && e == 737441;
    YearBoundarySpan(s, e);
  }

  lemma YearBoundarySpan(s: int, e: int)
    requires s == 737420 && e == 737441
    ensures Span(s, e) == [IsoWeek(2019, 52), IsoWeek(2020, 1), IsoWeek(2020, 2), IsoWeek(2020, 3)]
  {
    assert AbsWeek(s) == 105345 && AbsWeek(e) == 105348;
    YearBoundaryWeeks(s);
    var span := Span(s, e);
    assert |span| == 4;
    SpanAt(s, e, 0);
    SpanAt(s, e, 1);
    SpanAt(s, e, 2);
    SpanAt(s, e, 3);
    FourWeeks(span, IsoWeek(2019, 52), IsoWeek(2020, 1), IsoWeek(2020, 2), IsoWeek(2020, 3));
  }

  lemma FourWeeks(q: seq<IsoWeek>, a: IsoWeek, b: IsoWeek, c: IsoWeek, d: IsoWeek)
    requires |q| == 4 && q[0] == a && q[1] == b && q[2] == c && q[3] == d
    ensures q == [a, b, c, d]
  {
  }

  lemma YearBoundaryWeeks(s: int)
    requires s == 737420
    ensures IsoCalendar(s + 7 * 0) == IsoWeek(2019, 52)
    ensures IsoCalendar(s + 7 * 1) == IsoWeek(2020, 1)
    ensures IsoCalendar(s + 7 * 2) == IsoWeek(2020, 2)
    ensures IsoCalendar(s + 7 * 3) == IsoWeek(2020, 3)
  {
    Week1Mondays2019To2021();
    IsoYearUnique(s + 7 * 0, 2019);
    IsoYearUnique(s + 7 * 1, 2020);
    IsoYearUnique(s + 7 * 2, 2020);
    IsoYearUnique(s + 7 * 3, 2020);
  }

  lemma Week1Mondays2019To2021()
    ensures IsoWeek1Monday(2019) == 737059
    ensures IsoWeek1Monday(2020) == 737423
    ensures IsoWeek1Monday(2021) == 737794
  {
    DaysBeforeYearSpec(2019);
    DaysBeforeYearSpec(2020);
    DaysBeforeYearSpec(2021);
    IsoWeek1MondaySpec(2019);
    IsoWeek1MondaySpec(2020);
    IsoWeek1MondaySpec(2021);
  }

  /** 1992-03-23 to 1992-07-17 spans 17 weeks. */
  lemma SeventeenWeeksExample(s: int, e: int)
    requires s == ToOrdinal(1992, 3, 23) && e == ToOrdinal(1992, 7, 17)
    ensures s >= 1 && e >= 1 && |Span(s, e)| == 17
  {
    DaysBeforeYearSpec(1992);
    assert s == 727280 && e == 727396;
    assert AbsWeek(s) == 103897 && AbsWeek(e) == 103913;
  }
}
