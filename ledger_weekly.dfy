/** Assigning a weekly workload by hand (weekly_resource.py:29-51): the
    range checks, the employee's weekly total, the manual flag, and the
    invariants the assignment keeps. */
module LedgerWeekly {
  import opened Outcomes
  import opened Calendar
  import opened LedgerModel
  import opened LedgerLoad
  import opened LedgerLookup

  /** What row i contributes to the totals: its workload, to its owner's
      total of its week, and nothing to any other. */
  lemma ContributionOfRow(t: Tables, i: nat, e: int, w: IsoWeek)
    requires Valid(t) && i < |t.rows|
    ensures var row := t.rows[i];
      Contribution(t.resources, row, e, w) ==
        if w == row.week && e == Find(t.resources, row.resource).value.employee then row.workload else 0
  {
  }

  /** The assignment fails on a value above 100 or below 0 with the range
      messages, in that order; within range it fails exactly when the
      owner's total of the row's week, with the row at the new value, passes
      100 (exactly 100 is allowed).  On success only row i changes: it takes
      the value, and is marked as changed by hand exactly when the value
      differs from the resource's base workload. */
  lemma WeeklyWriteResult(t: Tables, i: nat, v: int)
    requires Valid(t) && i < |t.rows|
    ensures var row := t.rows[i];
      var owner := Find(t.resources, row.resource).value;
      var r := WriteWeeklyWorkload(t, i, v);
      && (v > 100 ==> r == Err("The given workload can't be larger than 100"))
      && (v < 0 ==> r == Err("The given workload can't be smaller than 0"))
      && (0 <= v <= 100 ==>
            (r.Ok? <==> Load(t.resources, t.rows, owner.employee, row.week) - row.workload + v <= 100))
      && (0 <= v <= 100 && r.Err? ==> r.msg == "The workload in week " + WeekStringOf(row.week) + " is too high.")
      && (r.Ok? ==> r.value == t.(rows := t.rows[i := Row(row.resource, row.week, v, v != owner.base)]))
  {
    var row := t.rows[i];
    var owner := Find(t.resources, row.resource).value;
    var row' := Row(row.resource, row.week, v, v != owner.base);
    LoadUpdate(t.resources, t.rows, i, row', owner.employee, row.week);
    ContributionOfRow(t, i, owner.employee, row.week);
  }

  /** A successful assignment keeps the tables valid and keeps rows not
      changed by hand at their base workload (a value equal to the base
      clears the flag). */
  lemma WeeklyWriteValid(t: Tables, i: nat, v: int)
    requires Valid(t) && i < |t.rows|
    ensures var r := WriteWeeklyWorkload(t, i, v);
      r.Ok? ==> Valid(r.value) && (Synced(t) ==> Synced(r.value))
  {
    var r := WriteWeeklyWorkload(t, i, v);
    if r.Ok? {
      WeeklyWriteResult(t, i, v);
      var row := t.rows[i];
      OneRowUpdate(t.rows, i, r.value.rows[i]);
    }
  }

  /** A successful assignment keeps every employee within 100 % in every
      week: only the owner's total of the row's week changes, and that one
      was checked. */
  lemma WeeklyWriteCapacity(t: Tables, i: nat, v: int)
    requires Valid(t) && Capacity(t) && i < |t.rows|
    ensures var r := WriteWeeklyWorkload(t, i, v);
      r.Ok? ==> Capacity(r.value)
  {
    var r := WriteWeeklyWorkload(t, i, v);
    if r.Ok? {
      WeeklyWriteResult(t, i, v);
      var row := t.rows[i];
      var row' := r.value.rows[i];
      forall e, w ensures Load(t.resources, r.value.rows, e, w) <= 100 {
        LoadUpdate(t.resources, t.rows, i, row', e, w);
        ContributionOfRow(t, i, e, w);
        ContributionOfRow(r.value, i, e, w);
      }
    }
  }
}
