/** verify_workload (weekly_resource.py:34) asks the employee for
    get_total_workload, a method the employee model of this add-on does not
    define: employee.py:15 names it compute_total_workload.  As written, the
    constraint therefore raises AttributeError for every row whose workload
    passes the range checks, and with it every weekly assignment in range
    and every row add_missing_weekly_resources creates or resets.  The rest
    of the model (LedgerModel.CheckRow) calls compute_total_workload; the
    functions below are the code as written. */
module WeeklyFindings {
  import opened Outcomes
  import opened Calendar
  import opened LedgerModel

  /** What Python raises for the missing method. */
  const MissingMethod := "AttributeError: 'hr.employee' object has no attribute 'get_total_workload'"

  /** verify_workload as written: the range checks, then the call that
      raises. */
  function CheckRowAsWritten(resources: seq<Resource>, rows: seq<Row>, i: nat): Result<()>
    requires i < |rows|
  {
    var row := rows[i];
    if row.workload > 100 then Err("The given workload can't be larger than 100")
    else if row.workload < 0 then Err("The given workload can't be smaller than 0")
    else Err(MissingMethod)
  }

  /** Assigning weekly_workload := v to row i as written. */
  function WriteRowAsWritten(resources: seq<Resource>, rows: seq<Row>, i: nat, v: int): Result<seq<Row>>
    requires i < |rows|
  {
    var row := rows[i];
    var rows' := rows[i := Row(row.resource, row.week, v, v != BaseOf(resources, row.resource))];
    var check := CheckRowAsWritten(resources, rows', i);
    if check.Err? then Err(check.msg) else Ok(rows')
  }

  /** One iteration of add_missing_weekly_resources as written: resetting a
      row assigns it, and creating one (add_weekly_resource) runs its
      constraints too. */
  function AddStepAsWritten(resources: seq<Resource>, rows: seq<Row>, res: Resource, w: IsoWeek): Result<seq<Row>> {
    match FindRow(rows, res.id, w)
    case Some(k) =>
      if !rows[k].manual then WriteRowAsWritten(resources, rows, k, res.base) else Ok(rows)
    case None =>
      if Load(resources, rows, res.employee, w) + res.base > 100 then
        Err("The workload in week " + WeekStringOf(w) + " is too high")
      else
        var rows' := rows + [Row(res.id, w, res.base, false)];
        var check := CheckRowAsWritten(resources, rows', |rows|);
        if check.Err? then Err(check.msg) else Ok(rows')
  }

  /** add_missing_weekly_resources as written. */
  function AddMissingAsWritten(resources: seq<Resource>, rows: seq<Row>, res: Resource, span: seq<IsoWeek>): Result<seq<Row>>
    decreases |span|
  {
    if span == [] then Ok(rows)
    else
      match AddStepAsWritten(resources, rows, res, span[0])
      case Err(msg) => Err(msg)
      case Ok(rows') => AddMissingAsWritten(resources, rows', res, span[1..])
  }

  /** As written, the check never passes: a row out of range is refused as
      CheckRow refuses it, and any other row raises AttributeError. */
  lemma CheckRowAsWrittenNeverPasses(resources: seq<Resource>, rows: seq<Row>, i: nat)
    requires i < |rows|
    ensures CheckRowAsWritten(resources, rows, i).Err?
    ensures 0 <= rows[i].workload <= 100 ==> CheckRowAsWritten(resources, rows, i).msg == MissingMethod
    ensures !(0 <= rows[i].workload <= 100) ==> CheckRowAsWritten(resources, rows, i) == CheckRow(resources, rows, i)
  {}

  /** As written, every weekly assignment fails: in range with
      AttributeError, out of range with the message WriteRow gives. */
  lemma WriteRowAsWrittenFails(resources: seq<Resource>, rows: seq<Row>, i: nat, v: int)
    requires i < |rows|
    ensures WriteRowAsWritten(resources, rows, i, v).Err?
    ensures 0 <= v <= 100 ==> WriteRowAsWritten(resources, rows, i, v).msg == MissingMethod
    ensures !(0 <= v <= 100) ==> WriteRowAsWritten(resources, rows, i, v) == WriteRow(resources, rows, i, v)
  {
    var row := rows[i];
    var rows' := rows[i := Row(row.resource, row.week, v, v != BaseOf(resources, row.resource))];
    CheckRowAsWrittenNeverPasses(resources, rows', i);
  }

  /** As written, add_missing_weekly_resources fails in its first project
      week unless the resource's row there was changed by hand: with the
      "too high" message when the new row would pass 100, else with
      AttributeError.  So creating a resource with a project week, or
      writing one whose first row is not hand-set, never succeeds. */
  lemma AddMissingAsWrittenFails(resources: seq<Resource>, rows: seq<Row>, res: Resource, span: seq<IsoWeek>)
    requires span != [] && 0 <= res.base <= 100
    requires var f := FindRow(rows, res.id, span[0]); f.None? || !rows[f.value].manual
    ensures var r := AddMissingAsWritten(resources, rows, res, span);
      && r.Err?
      && (r.msg == MissingMethod || r.msg == "The workload in week " + WeekStringOf(span[0]) + " is too high")
      && (FindRow(rows, res.id, span[0]).Some? ==> r.msg == MissingMethod)
  {
    var w := span[0];
    match FindRow(rows, res.id, w)
    case Some(k) =>
      WriteRowAsWrittenFails(resources, rows, k, res.base);
    case None =>
      var rows' := rows + [Row(res.id, w, res.base, false)];
      CheckRowAsWrittenNeverPasses(resources, rows', |rows|);
  }

  /** A lone resource of base 40 in the week of day d: the corrected check
      accepts its row, the check as written raises. */
  lemma LoneRowRefused(d: int)
    requires d >= 1
    ensures var rs := [Resource(0, 1, 1, 40, DateTime(d, 0), DateTime(d, 0), 0)];
      var rows := [Row(0, IsoCalendar(d), 40, false)];
      && CheckRow(rs, rows, 0) == Ok(())
      && CheckRowAsWritten(rs, rows, 0) == Err(MissingMethod)
  {
    var rs := [Resource(0, 1, 1, 40, DateTime(d, 0), DateTime(d, 0), 0)];
    var rows := [Row(0, IsoCalendar(d), 40, false)];
    assert Find(rs, 0) == Some(rs[0]);
    assert rows[..0] == [];
    assert Load(rs, rows, 1, IsoCalendar(d)) == 40;
  }
}
