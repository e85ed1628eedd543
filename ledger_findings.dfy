/** A resource moved to another employee keeps its weekly rows, and
    add_missing_weekly_resources (resource.py:164-179) re-checks only the
    rows not changed by hand.  A hand-set row therefore moves to the new
    employee unchecked and can plan them above 100 %.  The tables below
    show it; WriteRechecked, which re-checks hand-set rows as well, refuses
    the change. */
module LedgerFindings {
  import opened Outcomes
  import opened Calendar
  import opened WeekSpan
  import opened LedgerModel

  /** Two resources of one project in the week of day d: resource 0 of
      employee 1 at its base of 60 %, resource 1 of employee 2 with base
      40 % and its row set by hand to 60 %. */
  function ManualRowTables(d: int): Tables
    requires d >= 1
  {
    var day := DateTime(d, 0);
    var w := IsoCalendar(d);
    Tables([w], [Resource(0, 1, 1, 60, day, day, 0), Resource(1, 1, 2, 40, day, day, 0)],
           [Row(0, w, 60, false), Row(1, w, 60, true)], 2)
  }

  /** The change that moves resource 1 to employee 1. */
  const ToEmployee1 := NoChanges.(employee := Some(1))

  lemma LoadOfTwo(rs: seq<Resource>, a: Row, b: Row, e: int, w: IsoWeek)
    ensures Load(rs, [a, b], e, w) == Contribution(rs, a, e, w) + Contribution(rs, b, e, w)
  {
    assert [a][..0] == [];
    assert Load(rs, [a], e, w) == Contribution(rs, a, e, w);
    assert [a, b][..1] == [a];
  }

  lemma DeleteSpareOfTwo(a: Row, b: Row, id: nat, span: seq<IsoWeek>)
    requires a.week in span && b.week in span
    ensures DeleteSpare([a, b], id, span) == [a, b]
  {
    assert [a][..0] == [];
    assert DeleteSpare([a], id, span) == [a];
    assert [a, b][..1] == [a];
  }

  lemma ManualRowTablesValid(d: int)
    requires d >= 1
    ensures var t := ManualRowTables(d);
      Valid(t) && Capacity(t) && Synced(t)
  {
    var t := ManualRowTables(d);
    var w := IsoCalendar(d);
    assert Find(t.resources, 0) == Some(t.resources[0]);
    assert Find(t.resources, 1) == Some(t.resources[1]);
    forall e, w' ensures Load(t.resources, t.rows, e, w') <= 100 {
      LoadOfTwo(t.resources, t.rows[0], t.rows[1], e, w');
    }
  }

  /** As written: the tables are valid and nobody is above 100 %, yet the
      write succeeds and plans employee 1 at 120 % in that week. */
  lemma EmployeeChangeOverbooks(d: int)
    requires d >= 1
    ensures var t := ManualRowTables(d);
      var r := Write(t, 1, ToEmployee1);
      && Valid(t) && Capacity(t)
      && r.Ok? && Load(r.value.resources, r.value.rows, 1, IsoCalendar(d)) == 120
  {
    ManualRowTablesValid(d);
    var t := ManualRowTables(d);
    var w := IsoCalendar(d);
    var res := Rewritten(t.resources[1], ToEmployee1);
    assert res == t.resources[1].(employee := 1);
    var rs := Replace(t.resources, res);
    assert rs == [t.resources[0], res];
    WriteWithSpec(t, 1, ToEmployee1, false);
    SpanOneWeek(d, d);
    assert ProjectWeeks(res) == [w];
    assert FindRow(t.rows, 1, w) == Some(1);
    assert AddStep(rs, t.rows, res, w, false) == Ok(t.rows);
    assert AddMissing(rs, t.rows, res, [w], false) == Ok(t.rows);
    DeleteSpareOfTwo(t.rows[0], t.rows[1], 1, [w]);
    var r := Write(t, 1, ToEmployee1);
    assert r.value.resources == rs && r.value.rows == t.rows;
    assert Find(rs, 0) == Some(rs[0]) && Find(rs, 1) == Some(rs[1]);
    LoadOfTwo(rs, t.rows[0], t.rows[1], 1, w);
  }

  /** The re-check of the hand-set row, with resource 1 moved to employee 1,
      finds employee 1 at 120 % in the week of day d. */
  lemma ManualRowRecheckFails(d: int)
    requires d >= 1
    ensures var t := ManualRowTables(d);
      var res := t.resources[1].(employee := 1);
      AddMissing([t.resources[0], res], t.rows, res, [IsoCalendar(d)], true) ==
        Err("The workload in week " + WeekStringOf(IsoCalendar(d)) + " is too high.")
  {
    var t := ManualRowTables(d);
    var w := IsoCalendar(d);
    var res := t.resources[1].(employee := 1);
    var rs := [t.resources[0], res];
    assert FindRow(t.rows, 1, w) == Some(1);
    assert Find(rs, 0) == Some(rs[0]) && Find(rs, 1) == Some(rs[1]);
    LoadOfTwo(rs, t.rows[0], t.rows[1], 1, w);
    assert CheckRow(rs, t.rows, 1) == Err("The workload in week " + WeekStringOf(w) + " is too high.");
  }

  /** Corrected: the same write is refused with the message of the hand-set
      row's week. */
  lemma EmployeeChangeRefused(d: int)
    requires d >= 1
    ensures WriteRechecked(ManualRowTables(d), 1, ToEmployee1) ==
      Err("The workload in week " + WeekStringOf(IsoCalendar(d)) + " is too high.")
  {
    var t := ManualRowTables(d);
    var res := Rewritten(t.resources[1], ToEmployee1);
    assert res == t.resources[1].(employee := 1);
    assert Replace(t.resources, res) == [t.resources[0], res];
    WriteWithSpec(t, 1, ToEmployee1, true);
    SpanOneWeek(d, d);
    ManualRowRecheckFails(d);
  }
}
