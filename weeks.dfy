/** Week records (resource_planning/models/weeks.py): the week string shown
    to users, the range check on week numbers and the "in reporting window"
    flag.  A week record's week string and flag are stored computed fields,
    so records are objects whose methods assign them. */
module Weeks {
  import opened Calendar
  import opened Outcomes

  /** str(n) for a natural number: decimal digits, no leading zeros. */
  function NatToString(n: nat): (s: string)
    ensures |s| >= 1 && (|s| == 1) == (n < 10)
  {
    if n < 10 then [Digit(n)] else NatToString(n / 10) + [Digit(n % 10)]
  }

  function Digit(d: nat): (c: char)
    requires d < 10
    ensures '0' <= c <= '9'
  {
    "0123456789"[d]
  }

  /** str(i) for any integer: a minus sign before the digits of a negative. */
  function IntToString(i: int): string {
    if i < 0 then "-" + NatToString(-i) else NatToString(i)
  }

  /** The number part of a week string: two digits below 10, else str. */
  function WeekNumString(weekNum: int): string {
    if weekNum < 10 then "0" + IntToString(weekNum) else IntToString(weekNum)
  }

  /** get_week_string for one record: "<year>, W<week>" with the week
      zero-padded to two digits.  The definition sits behind a two-step
      countdown so that a loop over many records does not unfold it for
      each of them; WeekStringSpec gives it. */
  function WeekString(year: int, weekNum: int): string {
    Spelled(year, weekNum, 2)
  }

  function Spelled(year: int, weekNum: int, n: nat): string {
    if n > 0 then Spelled(year, weekNum, n - 1) else IntToString(year) + ", W" + WeekNumString(weekNum)
  }

  lemma WeekStringSpec(year: int, weekNum: int)
    ensures WeekString(year, weekNum) == IntToString(year) + ", W" + WeekNumString(weekNum)
  {
    assert Spelled(year, weekNum, 1) == Spelled(year, weekNum, 0);
  }

  lemma DigitInjective(a: nat, b: nat)
    requires a < 10 && b < 10 && Digit(a) == Digit(b)
    ensures a == b
  {
  }

  /** Different natural numbers have different decimal strings. */
  lemma {:induction false} NatToStringInjective(a: nat, b: nat)
    requires NatToString(a) == NatToString(b)
    ensures a == b
  {
    if a < 10 || b < 10 {
      DigitInjective(a % 10, b % 10);
    } else {
      var sa, sb := NatToString(a), NatToString(b);
      assert sa[|sa| - 1] == Digit(a % 10) && sb[|sb| - 1] == Digit(b % 10);
      DigitInjective(a % 10, b % 10);
      assert NatToString(a / 10) == sa[..|sa| - 1] == sb[..|sb| - 1] == NatToString(b / 10);
      NatToStringInjective(a / 10, b / 10);
    }
  }

  /** Decimal strings hold no comma. */
  lemma {:induction false} NatToStringNoComma(n: nat)
    ensures ',' !in NatToString(n)
  {
    if n >= 10 {
      NatToStringNoComma(n / 10);
    }
  }

  /** A number of two or more digits does not start with 0. */
  lemma {:induction false} NoLeadingZero(n: nat)
    requires n >= 10
    ensures NatToString(n)[0] != '0' && |NatToString(n)| >= 2
  {
    if n / 10 >= 10 {
      NoLeadingZero(n / 10);
    }
  }

  lemma WeekNumStringInjective(a: nat, b: nat)
    requires WeekNumString(a) == WeekNumString(b)
    ensures a == b
  {
    if a < 10 && b < 10 {
      assert NatToString(a) == WeekNumString(a)[1..] == WeekNumString(b)[1..] == NatToString(b);
      NatToStringInjective(a, b);
    } else if a < 10 {
      NoLeadingZero(b);
    } else if b < 10 {
      NoLeadingZero(a);
    } else {
      NatToStringInjective(a, b);
    }
  }

  /** Cutting two strings at their first comma: the parts before it agree. */
  lemma CommaSplit(a1: string, b1: string, a2: string, b2: string)
    requires ',' !in a1 && ',' !in a2 && |b1| > 0 && |b2| > 0 && b1[0] == ',' && b2[0] == ','
    requires a1 + b1 == a2 + b2
    ensures a1 == a2 && b1 == b2
  {
    assert a1 == (a1 + b1)[..|a1|];
    assert a2 == (a2 + b2)[..|a2|];
  }

  /** For years from 0 on and week numbers from 0 on, the week string
      identifies the week: the report matches rows to weeks by this string. */
  lemma WeekStringInjective(y1: nat, w1: nat, y2: nat, w2: nat)
    requires WeekString(y1, w1) == WeekString(y2, w2)
    ensures y1 == y2 && w1 == w2
  {
    var b1, b2 := ", W" + WeekNumString(w1), ", W" + WeekNumString(w2);
    WeekStringParts(y1, w1);
    WeekStringParts(y2, w2);
    CommaSplit(NatToString(y1), b1, NatToString(y2), b2);
    NatToStringInjective(y1, y2);
    SamePrefixTail(", W", WeekNumString(w1), WeekNumString(w2));
    WeekNumStringInjective(w1, w2);
  }

  lemma WeekStringParts(y: nat, w: nat)
    ensures WeekString(y, w) == NatToString(y) + (", W" + WeekNumString(w))
    ensures ',' !in NatToString(y)
  {
    WeekStringSpec(y, w);
    NatToStringNoComma(y);
  }

  lemma SamePrefixTail(p: string, a: string, b: string)
    requires p + a == p + b
    ensures a == b
  {
    assert a == (p + a)[|p|..];
    assert b == (p + b)[|p|..];
  }

  lemma WeekStringPadded()
    ensures WeekString(2020, 2) == "2020, W02" && WeekString(2020, 9) == "2020, W09"
  {
  }

  lemma WeekStringUnpadded()
    ensures WeekString(2020, 10) == "2020, W10" && WeekString(2020, 11) == "2020, W11"
  {
  }

  /** _check_if_week_num_is_valid over a record set: the first record whose
      week number is out of 1..53 raises. */
  function CheckWeekNums(weekNums: seq<int>): (r: Result<()>)
    ensures r.Ok? <==> forall i :: 0 <= i < |weekNums| ==> 1 <= weekNums[i] <= 53
    ensures r.Err? ==> r.msg in {"Week Number can't be smaller than 1", "Week Number can't be bigger than 53"}
  {
    if weekNums == [] then Ok(())
    else if weekNums[0] < 1 then Err("Week Number can't be smaller than 1")
    else if weekNums[0] > 53 then Err("Week Number can't be bigger than 53")
    else CheckWeekNums(weekNums[1..])
  }

  /** The message names the first bad record's fault. */
  lemma CheckWeekNumsFirst(weekNums: seq<int>, k: int)
    requires 0 <= k < |weekNums| && !(1 <= weekNums[k] <= 53)
    requires forall i :: 0 <= i < k ==> 1 <= weekNums[i] <= 53
    ensures CheckWeekNums(weekNums) ==
      Err(if weekNums[k] < 1 then "Week Number can't be smaller than 1" else "Week Number can't be bigger than 53")
  {
    if k > 0 {
      CheckWeekNumsFirst(weekNums[1..], k - 1);
    }
  }

  /** The day ordinal of the start of week weekNum, as set_is_week_in_period
      computes it: the Monday on or before January 1st, then whole weeks on.
      date(year, 1, 1) exists for years 1 to 9999. */
  function StartOfWeek(year: int, weekNum: int): (d: int)
    requires 1 <= year <= 9999
    ensures Weekday(d) == 0
    ensures var jan1 := ToOrdinal(year, 1, 1);
      jan1 - 6 <= d - 7 * (weekNum - 1) <= jan1
  {
    var temp := ToOrdinal(year, 1, 1);
    var monday := temp - Weekday(temp);
    monday + 7 * (weekNum - 1)
  }

  /** When January 1st falls on Monday to Thursday the start is the Monday of
      ISO week weekNum. */
  lemma StartOfWeekIso(year: int, weekNum: int)
    requires 1 <= year <= 9999 && Weekday(ToOrdinal(year, 1, 1)) <= 3
    ensures StartOfWeek(year, weekNum) == IsoWeek1Monday(year) + 7 * (weekNum - 1)
  {
    IsoWeek1MondaySpec(year);
  }

  /** When January 1st falls on Friday to Sunday the start is a week before
      the ISO week: 2021 starts on a Friday, and week 1 of 2021 begins on
      Monday 2021-01-04, but the formula gives Monday 2020-12-28. */
  lemma StartOfWeekNotIso(year: int, weekNum: int)
    requires 1 <= year <= 9999 && Weekday(ToOrdinal(year, 1, 1)) >= 4
    ensures StartOfWeek(year, weekNum) == IsoWeek1Monday(year) + 7 * (weekNum - 1) - 7
  {
    IsoWeek1MondaySpec(year);
  }

  /** The flag for one record: from this week on for week_delta weeks, or
      back week_delta weeks when it is negative, ends included. */
  predicate InPeriod(thisWeek: int, startOfWeek: int, weekDelta: int) {
    if weekDelta >= 0 then
      thisWeek + 7 * weekDelta >= startOfWeek && thisWeek <= startOfWeek
    else
      thisWeek + 7 * weekDelta <= startOfWeek && thisWeek >= startOfWeek
  }

  /** Counted in weeks from this week, the flagged weeks are the |week_delta|+1
      consecutive weeks from this week towards the sign of week_delta. */
  lemma InPeriodWeeks(thisWeek: int, k: int, weekDelta: int)
    ensures InPeriod(thisWeek, thisWeek + 7 * k, weekDelta) <==>
      if weekDelta >= 0 then 0 <= k <= weekDelta else weekDelta <= k <= 0
  {
  }

  /** With week_delta 0, a week is flagged exactly when it starts this week. */
  lemma InPeriodZero(thisWeek: int, startOfWeek: int)
    ensures InPeriod(thisWeek, startOfWeek, 0) <==> startOfWeek == thisWeek
  {
  }

  /** A week.model record and its stored fields. */
  class WeekRecord {
    var weekNum: int
    var year: int
    var weekString: string
    var weekBool: bool
    var weekDelta: int

    /** A new record: week_delta defaults to 8, the computed fields are set
        when they are computed. */
    constructor (weekNum: int, year: int)
      ensures this.weekNum == weekNum && this.year == year
      ensures weekString == "" && !weekBool && weekDelta == 8
    {
      this.weekNum := weekNum;
      this.year := year;
      weekString := "";
      weekBool := false;
      weekDelta := 8;
    }
  }

  /** A record whose stored week string is up to date. */
  predicate HasWeekString(r: WeekRecord)
    reads r
  {
    r.weekString == WeekString(r.year, r.weekNum)
  }

  /** The string get_week_string builds for one record (weeks.py:79-83). */
  method FormatWeek(year: int, weekNum: int) returns (str: string)
    ensures str == WeekString(year, weekNum)
  {
    WeekStringSpec(year, weekNum);
    str := IntToString(year) + ", W";
    if weekNum < 10 {
      str := str + "0" + IntToString(weekNum);
    } else {
      str := str + IntToString(weekNum);
    }
  }

  /** get_week_string: assigns every record's week string. */
  method GetWeekString(records: seq<WeekRecord>)
    modifies records
    ensures forall r :: r in records ==> HasWeekString(r)
    ensures forall r :: r in records ==>
      r.weekNum == old(r.weekNum) && r.year == old(r.year) && r.weekBool == old(r.weekBool) && r.weekDelta == old(r.weekDelta)
  {
    var i := 0;
    while i < |records|
      invariant 0 <= i <= |records|
      invariant forall j :: 0 <= j < |records| ==>
        records[j].weekNum == old(records[j].weekNum) && records[j].year == old(records[j].year)
        && records[j].weekBool == old(records[j].weekBool) && records[j].weekDelta == old(records[j].weekDelta)
      invariant forall j :: 0 <= j < i ==> HasWeekString(records[j])
    {
      var s := records[i];
      var str := FormatWeek(s.year, s.weekNum);
      s.weekString := str;
      i := i + 1;
    }
  }

  /** set_is_week_in_period(this_week): assigns every record's flag from the
      start of its week, this week's Monday and its week_delta. */
  method SetIsWeekInPeriod(records: seq<WeekRecord>, thisWeek: int)
    requires forall r :: r in records ==> 1 <= r.year <= 9999
    modifies records
    ensures forall r :: r in records ==>
      r.weekNum == old(r.weekNum) && r.year == old(r.year) && r.weekString == old(r.weekString) && r.weekDelta == old(r.weekDelta)
    ensures forall r :: r in records ==>
      r.weekBool == InPeriod(thisWeek, StartOfWeek(r.year, r.weekNum), r.weekDelta)
  {
    var i := 0;
    while i < |records|
      invariant 0 <= i <= |records|
      invariant forall r :: r in records ==>
        r.weekNum == old(r.weekNum) && r.year == old(r.year) && r.weekString == old(r.weekString) && r.weekDelta == old(r.weekDelta)
      invariant forall j :: 0 <= j < i ==>
        records[j].weekBool == InPeriod(thisWeek, StartOfWeek(records[j].year, records[j].weekNum), records[j].weekDelta)
    {
      var week := records[i];
      var year := week.year;
      var temp := ToOrdinal(year, 1, 1);
      temp := temp - Weekday(temp);
      var delta := (week.weekNum - 1) * 7;
      var startDateOfWeek := temp + delta;
      assert startDateOfWeek == StartOfWeek(week.year, week.weekNum);
      if week.weekDelta >= 0 {
        if thisWeek + 7 * week.weekDelta >= startDateOfWeek && thisWeek <= startDateOfWeek {
          week.weekBool := true;
        } else {
          week.weekBool := false;
        }
      } else {
        if thisWeek + 7 * week.weekDelta <= startDateOfWeek && thisWeek >= startDateOfWeek {
          week.weekBool := true;
        } else {
          week.weekBool := false;
        }
      }
      i := i + 1;
    }
  }
}
