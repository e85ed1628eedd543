/** The assignment ledger of resource_planning: resources (resource.py),
    their weekly rows (weekly_resource.py) and the week records they refer
    to, as three tables, with the operations of resource.py,
    weekly_resource.py and employee.py as functions from tables to tables.
    A failing operation yields Err and no tables: the database transaction
    is rolled back, so the caller keeps the tables it had. */
module LedgerModel {
  import opened Outcomes
  import opened Calendar
  import opened WeekSpan
  import Weeks

  /** A resource.model record: an employee assigned to a project with a
      weekly base workload (in percent) from start to end. */
  datatype Resource = Resource(id: nat, project: int, employee: int, base: int,
                               start: DateTime, end: DateTime, weeksToBeAdded: int)

  /** A weekly_resource.model record: the workload of one resource in one
      week.  Week records are identified by their (year, week_num). */
  datatype Row = Row(resource: nat, week: IsoWeek, workload: int, manual: bool)

  /** The week records (creation order), the resources (by id) and the
      weekly rows (by id); nextId is the id the next resource gets. */
  datatype Tables = Tables(weeks: seq<IsoWeek>, resources: seq<Resource>, rows: seq<Row>, nextId: nat)

  // ---------------------------------------------------------------------
  // Lookups

  /** The resource with this id, if any. */
  function Find(resources: seq<Resource>, id: nat): (r: Option<Resource>)
    ensures r.Some? ==> r.value in resources && r.value.id == id
    ensures r.None? <==> forall k :: 0 <= k < |resources| ==> resources[k].id != id
  {
    if resources == [] then None
    else if resources[0].id == id then Some(resources[0])
    else Find(resources[1..], id)
  }

  /** The row belongs to a resource of this employee. */
  predicate Owns(resources: seq<Resource>, id: nat, employee: int) {
    Find(resources, id).Some? && Find(resources, id).value.employee == employee
  }

  /** What one row adds to an employee's total of a week. */
  function Contribution(resources: seq<Resource>, row: Row, employee: int, week: IsoWeek): int {
    if row.week == week && Owns(resources, row.resource, employee) then row.workload else 0
  }

  /** The sum of the employee's weekly workloads in the week over all rows
      of the employee's resources. */
  function Load(resources: seq<Resource>, rows: seq<Row>, employee: int, week: IsoWeek): int {
    if rows == [] then 0
    else Load(resources, rows[..|rows| - 1], employee, week) + Contribution(resources, rows[|rows| - 1], employee, week)
  }

  /** The index of the row of this resource and week, if any. */
  function FindRow(rows: seq<Row>, id: nat, week: IsoWeek): (r: Option<nat>)
    ensures r.Some? ==> r.value < |rows| && rows[r.value].resource == id && rows[r.value].week == week
    ensures r.Some? ==> forall k :: 0 <= k < r.value ==> !(rows[k].resource == id && rows[k].week == week)
    ensures r.None? <==> forall k :: 0 <= k < |rows| ==> !(rows[k].resource == id && rows[k].week == week)
  {
    if rows == [] then None
    else if rows[0].resource == id && rows[0].week == week then Some(0)
    else
      match FindRow(rows[1..], id, week)
      case None => None
      case Some(k) => Some(k + 1)
  }

  /** The row of this resource and week, if any. */
  function RowOf(rows: seq<Row>, id: nat, week: IsoWeek): Option<Row> {
    match FindRow(rows, id, week)
    case Some(k) => Some(rows[k])
    case None => None
  }

  function WeekStringOf(w: IsoWeek): string {
    Weeks.WeekString(w.year, w.week)
  }

  // ---------------------------------------------------------------------
  // Resource constraints (resource.py:74-99)

  /** verify_start_and_end_dates (resource.py:83-86); None stands for an
      unset (False) date. */
  function VerifyDates(start: Option<DateTime>, end: Option<DateTime>): (r: Result<()>)
    ensures r.Ok? <==> start.Some? && end.Some? && LessEq(start.value, end.value)
    ensures r.Err? ==> r.msg == if start.None? || end.None? then "Both dates must be filled out"
                                 else "Start date must be before end date"
  {
    if start.None? || end.None? then Err("Both dates must be filled out")
    else if !LessEq(start.value, end.value) then Err("Start date must be before end date")
    else Ok(())
  }

  /** verify_workload of resource.py:96-99. */
  function VerifyBase(base: int): (r: Result<()>)
    ensures r.Ok? <==> 0 <= base <= 100
    ensures r.Err? ==> r.msg == if base > 100 then "The given workload can't be larger than 100 %"
                                 else "The given workload can't be smaller than 0 %"
  {
    if base > 100 then Err("The given workload can't be larger than 100 %")
    else if base < 0 then Err("The given workload can't be smaller than 0 %")
    else Ok(())
  }

  // ---------------------------------------------------------------------
  // Weekly rows (weekly_resource.py)

  /** verify_workload of weekly_resource.py:29-35 for row i: the range
      checks first, then the employee's total in the row's week. */
  function CheckRow(resources: seq<Resource>, rows: seq<Row>, i: nat): Result<()>
    requires i < |rows|
  {
    var row := rows[i];
    if row.workload > 100 then Err("The given workload can't be larger than 100")
    else if row.workload < 0 then Err("The given workload can't be smaller than 0")
    else
      var owner := Find(resources, row.resource);
      var total := if owner.Some? then Load(resources, rows, owner.value.employee, row.week) else row.workload;
      if total > 100 then Err("The workload in week " + WeekStringOf(row.week) + " is too high.")
      else Ok(())
  }

  /** The base workload of a row's resource (0 for a missing resource, as
      an empty Odoo record reads). */
  function BaseOf(resources: seq<Resource>, id: nat): int {
    var r := Find(resources, id);
    if r.Some? then r.value.base else 0
  }

  /** Assigning weekly_workload := v to row i: the write, then its
      constraints, check_if_changed (weekly_resource.py:47-51) setting the
      manual flag and verify_workload (weekly_resource.py:29-35). */
  function WriteRow(resources: seq<Resource>, rows: seq<Row>, i: nat, v: int): Result<seq<Row>>
    requires i < |rows|
  {
    var row := rows[i];
    var rows' := rows[i := Row(row.resource, row.week, v, v != BaseOf(resources, row.resource))];
    var check := CheckRow(resources, rows', i);
    if check.Err? then Err(check.msg) else Ok(rows')
  }

  // ---------------------------------------------------------------------
  // Reconciliation (resource.py:134-198)

  /** One iteration of add_missing_weekly_resources (resource.py:164-179)
      for week w.  An existing row that was not changed by hand gets the
      base workload assigned (so its constraints run); a missing one is
      created at the base workload unless the employee's total with it
      would pass 100.  A row changed by hand is left alone, as resource.py
      has it; with recheckManual its constraints are re-run as well, the
      corrected behaviour of the findings in README.md. */
  function AddStep(resources: seq<Resource>, rows: seq<Row>, res: Resource, w: IsoWeek, recheckManual: bool): Result<seq<Row>> {
    match FindRow(rows, res.id, w)
    case Some(k) =>
      if !rows[k].manual then WriteRow(resources, rows, k, res.base)
      else if recheckManual then
        var check := CheckRow(resources, rows, k);
        if check.Err? then Err(check.msg) else Ok(rows)
      else Ok(rows)
    case None =>
      if Load(resources, rows, res.employee, w) + res.base > 100 then
        Err("The workload in week " + WeekStringOf(w) + " is too high")
      else Ok(rows + [Row(res.id, w, res.base, false)])
  }

  /** add_missing_weekly_resources: AddStep for each project week in
      order, stopping at the first error. */
  function AddMissing(resources: seq<Resource>, rows: seq<Row>, res: Resource, span: seq<IsoWeek>, recheckManual: bool): Result<seq<Row>>
    decreases |span|
  {
    if span == [] then Ok(rows)
    else
      match AddStep(resources, rows, res, span[0], recheckManual)
      case Err(msg) => Err(msg)
      case Ok(rows') => AddMissing(resources, rows', res, span[1..], recheckManual)
  }

  /** delete_spare_weekly_resources (resource.py:189-198): the rows of the
      resource whose week is not a project week are deleted. */
  function DeleteSpare(rows: seq<Row>, id: nat, span: seq<IsoWeek>): seq<Row> {
    if rows == [] then []
    else
      var row := rows[|rows| - 1];
      DeleteSpare(rows[..|rows| - 1], id, span) + (if row.resource == id && row.week !in span then [] else [row])
  }

  /** The week upsert of resource.py:146-149: a week record is created for
      each week not yet in the table. */
  function Upsert(weeks: seq<IsoWeek>, weekArray: seq<IsoWeek>): seq<IsoWeek>
    decreases |weekArray|
  {
    if weekArray == [] then weeks
    else Upsert(if weekArray[0] in weeks then weeks else weeks + [weekArray[0]], weekArray[1..])
  }

  function Starts(resources: seq<Resource>): (r: seq<DateTime>)
    ensures |r| == |resources| && forall i :: 0 <= i < |r| ==> r[i] == resources[i].start
  {
    if resources == [] then [] else [resources[0].start] + Starts(resources[1..])
  }

  function Ends(resources: seq<Resource>): (r: seq<DateTime>)
    ensures |r| == |resources| && forall i :: 0 <= i < |r| ==> r[i] == resources[i].end
  {
    if resources == [] then [] else [resources[0].end] + Ends(resources[1..])
  }

  /** Every stored date is a date (an ordinal of at least 1). */
  predicate DatesValid(resources: seq<Resource>) {
    forall k :: 0 <= k < |resources| ==> ValidDateTime(resources[k].start) && ValidDateTime(resources[k].end)
  }

  /** The week array of compute_weeks (resource.py:236-263): the weeks from
      the earliest start to the latest end over all resources. */
  function AllWeeks(resources: seq<Resource>, res: Resource): seq<IsoWeek>
    requires DatesValid(resources) && ValidDateTime(res.start) && ValidDateTime(res.end)
  {
    FirstAndLastValid(resources, res);
    var (first, last) := FirstAndLast(res.start, res.end, Starts(resources), Ends(resources));
    Span(first.day, last.day)
  }

  lemma FirstAndLastValid(resources: seq<Resource>, res: Resource)
    requires DatesValid(resources) && ValidDateTime(res.start) && ValidDateTime(res.end)
    ensures var (first, last) := FirstAndLast(res.start, res.end, Starts(resources), Ends(resources));
      ValidDateTime(first) && ValidDateTime(last)
  {
    var (first, last) := FirstAndLast(res.start, res.end, Starts(resources), Ends(resources));
    if first != res.start {
      var i :| 0 <= i < |resources| && first == Starts(resources)[i];
    }
    if last != res.end {
      var i :| 0 <= i < |resources| && last == Ends(resources)[i];
    }
  }

  /** The project weeks of a resource: those of its own start and end. */
  function ProjectWeeks(res: Resource): seq<IsoWeek>
    requires ValidDateTime(res.start) && ValidDateTime(res.end)
  {
    Span(res.start.day, res.end.day)
  }

  /** create_corresponding_models (resource.py:134-154) for the resource
      res, already stored in t: the week upsert, add_missing_weekly_resources
      and delete_spare_weekly_resources.  recheckManual as in AddStep. */
  function ReconcileWith(t: Tables, res: Resource, recheckManual: bool): Result<Tables>
    requires DatesValid(t.resources) && ValidDateTime(res.start) && ValidDateTime(res.end)
  {
    var weeks := Upsert(t.weeks, AllWeeks(t.resources, res));
    var span := ProjectWeeks(res);
    match AddMissing(t.resources, t.rows, res, span, recheckManual)
    case Err(msg) => Err(msg)
    case Ok(rows) => Ok(Tables(weeks, t.resources, DeleteSpare(rows, res.id, span), t.nextId))
  }

  /** create_corresponding_models as resource.py words it: the rows of
      the resource changed by hand are not checked again. */
  function Reconcile(t: Tables, res: Resource): Result<Tables>
    requires DatesValid(t.resources) && ValidDateTime(res.start) && ValidDateTime(res.end)
  {
    ReconcileWith(t, res, false)
  }

  /** create_corresponding_models corrected: the rows of the resource
      changed by hand are checked against the employee's weekly total as
      well. */
  function ReconcileRechecked(t: Tables, res: Resource): Result<Tables>
    requires DatesValid(t.resources) && ValidDateTime(res.start) && ValidDateTime(res.end)
  {
    ReconcileWith(t, res, true)
  }

  // ---------------------------------------------------------------------
  // Resource create and write (resource.py:101-132)

  /** The values of a new resource; None stands for a date given as False. */
  datatype NewResource = NewResource(project: int, employee: int, base: int,
                                     start: Option<DateTime>, end: Option<DateTime>)

  predicate DateGiven(d: Option<DateTime>) {
    d.Some? ==> ValidDateTime(d.value)
  }

  /** Resource.create (resource.py:101-116): the record is stored, its
      constraints run (dates, then workload; Odoo runs constraint methods in
      name order), then create_corresponding_models. */
  function Create(t: Tables, v: NewResource): (r: Result<Tables>)
    requires DatesValid(t.resources) && DateGiven(v.start) && DateGiven(v.end)
    ensures v.start.None? || v.end.None? ==> r == Err("Both dates must be filled out")
    ensures v.start.Some? && v.end.Some? && !LessEq(v.start.value, v.end.value) ==>
      r == Err("Start date must be before end date")
    ensures VerifyDates(v.start, v.end).Ok? && v.base > 100 ==> r == Err("The given workload can't be larger than 100 %")
    ensures VerifyDates(v.start, v.end).Ok? && v.base < 0 ==> r == Err("The given workload can't be smaller than 0 %")
    ensures r.Ok? ==> VerifyDates(v.start, v.end).Ok? && VerifyBase(v.base).Ok?
  {
    var dates := VerifyDates(v.start, v.end);
    var base := VerifyBase(v.base);
    if dates.Err? then Err(dates.msg)
    else if base.Err? then Err(base.msg)
    else StoreAndReconcile(t, v, 2)
  }

  /** The tables with the new record stored under the next id. */
  function Stored(t: Tables, v: NewResource): (r: Tables)
    requires DatesValid(t.resources) && v.start.Some? && v.end.Some? && DateGiven(v.start) && DateGiven(v.end)
    ensures DatesValid(r.resources)
  {
    var rs := t.resources + [Created(t, v)];
    assert forall k :: 0 <= k < |t.resources| ==> rs[k] == t.resources[k];
    t.(resources := rs, nextId := t.nextId + 1)
  }

  /** The record stored, then create_corresponding_models.  The call sits
      behind a countdown from n so that a proof about Create does not
      unfold the reconciliation; StoreAndReconcileSpec gives it. */
  function StoreAndReconcile(t: Tables, v: NewResource, n: nat): Result<Tables>
    requires DatesValid(t.resources) && v.start.Some? && v.end.Some? && DateGiven(v.start) && DateGiven(v.end)
  {
    if n > 0 then StoreAndReconcile(t, v, n - 1)
    else Reconcile(Stored(t, v), Created(t, v))
  }

  lemma StoreAndReconcileSpec(t: Tables, v: NewResource)
    requires DatesValid(t.resources) && v.start.Some? && v.end.Some? && DateGiven(v.start) && DateGiven(v.end)
    ensures StoreAndReconcile(t, v, 2) == Reconcile(Stored(t, v), Created(t, v))
  {
    assert StoreAndReconcile(t, v, 1) == StoreAndReconcile(t, v, 0);
  }

  /** The record create stores: the next id, no weeks to be added. */
  function Created(t: Tables, v: NewResource): (r: Resource)
    requires v.start.Some? && v.end.Some?
    ensures r.id == t.nextId && r.weeksToBeAdded == 0
    ensures r.start == v.start.value && r.end == v.end.value
  {
    Resource(t.nextId, v.project, v.employee, v.base, v.start.value, v.end.value, 0)
  }

  /** The fields a write sets; None leaves a field as it is, and a date
      field set to None is set to False. */
  datatype Changes = Changes(project: Option<int>, employee: Option<int>, base: Option<int>,
                             start: Option<Option<DateTime>>, end: Option<Option<DateTime>>,
                             weeksToBeAdded: Option<int>)

  const NoChanges := Changes(None, None, None, None, None, None)

  /** A write that only sets end_date. */
  function EndTo(d: DateTime): Changes {
    NoChanges.(end := Some(Some(d)))
  }

  /** A write that only sets weeks_to_be_added. */
  function CounterTo(n: int): Changes {
    NoChanges.(weeksToBeAdded := Some(n))
  }

  predicate ChangesGiven(c: Changes) {
    (c.start.Some? ==> DateGiven(c.start.value)) && (c.end.Some? ==> DateGiven(c.end.value))
  }

  function Pick<T>(o: Option<T>, old_: T): T {
    if o.Some? then o.value else old_
  }

  /** Every resource with this id replaced by r. */
  function Replace(resources: seq<Resource>, r: Resource): (rs: seq<Resource>)
    ensures |rs| == |resources|
    ensures forall k :: 0 <= k < |rs| ==> rs[k] == if resources[k].id == r.id then r else resources[k]
  {
    if resources == [] then []
    else [if resources[0].id == r.id then r else resources[0]] + Replace(resources[1..], r)
  }

  /** The constraints a write runs (resource.py:118-132): the dates when a
      date is written, then the base workload when it is written. */
  function WriteCheck(old_: Resource, c: Changes): (r: Result<()>)
    ensures r.Ok? <==>
      && ((c.start.Some? || c.end.Some?) ==>
            var start := Pick(c.start, Some(old_.start));
            var end := Pick(c.end, Some(old_.end));
            start.Some? && end.Some? && LessEq(start.value, end.value))
      && (c.base.Some? ==> 0 <= c.base.value <= 100)
    ensures (c.start.Some? || c.end.Some?) && (c.start == Some(None) || c.end == Some(None)) ==>
      r == Err("Both dates must be filled out")
    ensures r.Err? && c.base.Some? && 0 <= c.base.value <= 100 ==>
      r.msg in {"Both dates must be filled out", "Start date must be before end date"}
  {
    var dates := VerifyDates(Pick(c.start, Some(old_.start)), Pick(c.end, Some(old_.end)));
    var base := VerifyBase(Pick(c.base, old_.base));
    if (c.start.Some? || c.end.Some?) && dates.Err? then Err(dates.msg)
    else if c.base.Some? && base.Err? then Err(base.msg)
    else Ok(())
  }

  /** The record after a write that passed its constraints: written fields
      take their new values, the others keep theirs. */
  function Rewritten(old_: Resource, c: Changes): (r: Resource)
    requires WriteCheck(old_, c).Ok?
    ensures r.id == old_.id
    ensures GoodResource(old_) && ChangesGiven(c) ==> GoodResource(r)
  {
    Resource(old_.id, Pick(c.project, old_.project), Pick(c.employee, old_.employee),
             Pick(c.base, old_.base), Pick(c.start, Some(old_.start)).value,
             Pick(c.end, Some(old_.end)).value, Pick(c.weeksToBeAdded, old_.weeksToBeAdded))
  }

  /** Resource.write, as WriteSteps computes it.  The definition is reached
      through a two-step countdown so that a proof about two writes in a row
      does not unfold both; WriteWithSpec gives the equality. */
  function WriteWith(t: Tables, id: nat, c: Changes, recheckManual: bool): (r: Result<Tables>)
    requires DatesValid(t.resources) && Find(t.resources, id).Some? && ChangesGiven(c)
    ensures r.Ok? ==> DatesValid(r.value.resources) && Find(r.value.resources, id).Some?
    ensures WriteCheck(Find(t.resources, id).value, c).Err? ==> r == Err(WriteCheck(Find(t.resources, id).value, c).msg)
  {
    WriteCountdown(t, id, c, recheckManual, 2)
  }

  function WriteCountdown(t: Tables, id: nat, c: Changes, recheckManual: bool, n: nat): (r: Result<Tables>)
    requires DatesValid(t.resources) && Find(t.resources, id).Some? && ChangesGiven(c)
    ensures r.Ok? ==> DatesValid(r.value.resources) && Find(r.value.resources, id).Some?
    ensures WriteCheck(Find(t.resources, id).value, c).Err? ==> r == Err(WriteCheck(Find(t.resources, id).value, c).msg)
  {
    if n == 0 then WriteSteps(t, id, c, recheckManual) else WriteCountdown(t, id, c, recheckManual, n - 1)
  }

  lemma WriteWithSpec(t: Tables, id: nat, c: Changes, recheckManual: bool)
    requires DatesValid(t.resources) && Find(t.resources, id).Some? && ChangesGiven(c)
    ensures WriteWith(t, id, c, recheckManual) == WriteSteps(t, id, c, recheckManual)
  {
    assert WriteCountdown(t, id, c, recheckManual, 1) == WriteCountdown(t, id, c, recheckManual, 0);
  }

  /** Resource.write (resource.py:118-132): the fields are written, the
      constraints of the written fields run, then
      create_corresponding_models (recheckManual as in AddStep). */
  function WriteSteps(t: Tables, id: nat, c: Changes, recheckManual: bool): (r: Result<Tables>)
    requires DatesValid(t.resources) && Find(t.resources, id).Some? && ChangesGiven(c)
    ensures r.Ok? ==> DatesValid(r.value.resources) && Find(r.value.resources, id).Some?
    ensures WriteCheck(Find(t.resources, id).value, c).Err? ==> r == Err(WriteCheck(Find(t.resources, id).value, c).msg)
  {
    var old_ := Find(t.resources, id).value;
    var check := WriteCheck(old_, c);
    if check.Err? then Err(check.msg)
    else
      var res := Rewritten(old_, c);
      assert ValidDateTime(res.start) && ValidDateTime(res.end);
      var resources := Replace(t.resources, res);
      ReplaceFind(t.resources, res);
      ReplaceDatesValid(t.resources, res);
      var result := ReconcileWith(t.(resources := resources), res, recheckManual);
      ReconcileKeepsResources(t.(resources := resources), res, recheckManual);
      result
  }

  /** Resource.write as resource.py words it. */
  function Write(t: Tables, id: nat, c: Changes): (r: Result<Tables>)
    requires DatesValid(t.resources) && Find(t.resources, id).Some? && ChangesGiven(c)
    ensures r.Ok? ==> DatesValid(r.value.resources) && Find(r.value.resources, id).Some?
  {
    WriteWith(t, id, c, false)
  }

  /** Resource.write with the corrected create_corresponding_models. */
  function WriteRechecked(t: Tables, id: nat, c: Changes): (r: Result<Tables>)
    requires DatesValid(t.resources) && Find(t.resources, id).Some? && ChangesGiven(c)
    ensures r.Ok? ==> DatesValid(r.value.resources) && Find(r.value.resources, id).Some?
  {
    WriteWith(t, id, c, true)
  }

  /** The changes leave the resource's employee as it is. */
  predicate KeepsEmployee(r: Resource, c: Changes) {
    c.employee.None? || c.employee == Some(r.employee)
  }

  lemma {:induction false} ReplaceFind(resources: seq<Resource>, r: Resource)
    requires Find(resources, r.id).Some?
    ensures Find(Replace(resources, r), r.id) == Some(r)
    ensures forall j :: j != r.id ==> Find(Replace(resources, r), j) == Find(resources, j)
  {
    if resources[0].id != r.id {
      ReplaceFind(resources[1..], r);
      assert Replace(resources, r)[1..] == Replace(resources[1..], r);
    }
    forall j | j != r.id ensures Find(Replace(resources, r), j) == Find(resources, j) {
      ReplaceOther(resources, r, j);
    }
  }

  lemma ReplaceDatesValid(resources: seq<Resource>, r: Resource)
    requires DatesValid(resources) && ValidDateTime(r.start) && ValidDateTime(r.end)
    ensures DatesValid(Replace(resources, r))
  {
    var rs := Replace(resources, r);
    forall k | 0 <= k < |rs| ensures ValidDateTime(rs[k].start) && ValidDateTime(rs[k].end) {
      assert rs[k] == if resources[k].id == r.id then r else resources[k];
    }
  }

  lemma {:induction false} ReplaceOther(resources: seq<Resource>, r: Resource, j: nat)
    requires j != r.id
    ensures Find(Replace(resources, r), j) == Find(resources, j)
  {
    if resources != [] {
      ReplaceOther(resources[1..], r, j);
      assert Replace(resources, r)[1..] == Replace(resources[1..], r);
    }
  }

  lemma ReconcileKeepsResources(t: Tables, res: Resource, recheckManual: bool)
    requires DatesValid(t.resources) && ValidDateTime(res.start) && ValidDateTime(res.end)
    ensures ReconcileWith(t, res, recheckManual).Ok? ==> ReconcileWith(t, res, recheckManual).value.resources == t.resources
  {
  }

  /** plus_one_week (resource.py:39-46): two field assignments, so two
      writes: end_date one week later, then weeks_to_be_added plus one. */
  function PlusOneWeek(t: Tables, id: nat): (r: Result<Tables>)
    requires DatesValid(t.resources) && Find(t.resources, id).Some?
    ensures r.Ok? ==> DatesValid(r.value.resources) && Find(r.value.resources, id).Some?
  {
    ShiftCountdown(t, id, 7, 1, 2)
  }

  /** minus_one_week (resource.py:48-56): end_date one week earlier, then
      weeks_to_be_added minus one.  Python's datetime arithmetic fails
      below 1 January of year 1. */
  function MinusOneWeek(t: Tables, id: nat): (r: Result<Tables>)
    requires DatesValid(t.resources) && Find(t.resources, id).Some?
    ensures r.Ok? ==> DatesValid(r.value.resources) && Find(r.value.resources, id).Some?
  {
    if Find(t.resources, id).value.end.day - 7 < 1 then Err("date value out of range")
    else ShiftCountdown(t, id, -7, -1, 2)
  }

  /** The two writes of plus_one_week and minus_one_week: end_date moved
      by days, then weeks_to_be_added moved by step, each a write; the first
      failure ends it.  The writes sit behind a countdown from n so that a
      proof about the operation does not unfold them; ShiftSpec gives them. */
  function ShiftCountdown(t: Tables, id: nat, days: int, step: int, n: nat): (r: Result<Tables>)
    requires DatesValid(t.resources) && Find(t.resources, id).Some? && Find(t.resources, id).value.end.day + days >= 1
    ensures r.Ok? ==> DatesValid(r.value.resources) && Find(r.value.resources, id).Some?
  {
    if n > 0 then ShiftCountdown(t, id, days, step, n - 1)
    else
      var r := Find(t.resources, id).value;
      match Write(t, id, EndTo(AddDays(r.end, days)))
      case Err(msg) => Err(msg)
      case Ok(t1) => Write(t1, id, CounterTo(r.weeksToBeAdded + step))
  }

  lemma ShiftSpec(t: Tables, id: nat, days: int, step: int)
    requires DatesValid(t.resources) && Find(t.resources, id).Some? && Find(t.resources, id).value.end.day + days >= 1
    ensures var r := Find(t.resources, id).value;
      var w1 := Write(t, id, EndTo(AddDays(r.end, days)));
      ShiftCountdown(t, id, days, step, 2) == if w1.Err? then Err(w1.msg) else Write(w1.value, id, CounterTo(r.weeksToBeAdded + step))
  {
    assert ShiftCountdown(t, id, days, step, 1) == ShiftCountdown(t, id, days, step, 0);
  }

  /** Assigning weekly_workload := v to row i of the tables. */
  function WriteWeeklyWorkload(t: Tables, i: nat, v: int): Result<Tables>
    requires i < |t.rows|
  {
    match WriteRow(t.resources, t.rows, i, v)
    case Err(msg) => Err(msg)
    case Ok(rows) => Ok(t.(rows := rows))
  }

  // ---------------------------------------------------------------------
  // Deletion with ondelete="cascade" (weekly_resource.py:16-17)

  function RowsNotOf(rows: seq<Row>, id: nat): seq<Row> {
    if rows == [] then []
    else
      var row := rows[|rows| - 1];
      RowsNotOf(rows[..|rows| - 1], id) + (if row.resource == id then [] else [row])
  }

  function RowsNotIn(rows: seq<Row>, w: IsoWeek): seq<Row> {
    if rows == [] then []
    else
      var row := rows[|rows| - 1];
      RowsNotIn(rows[..|rows| - 1], w) + (if row.week == w then [] else [row])
  }

  function ResourcesWithout(resources: seq<Resource>, id: nat): seq<Resource> {
    if resources == [] then []
    else
      var r := resources[|resources| - 1];
      ResourcesWithout(resources[..|resources| - 1], id) + (if r.id == id then [] else [r])
  }

  function WeeksWithout(weeks: seq<IsoWeek>, w: IsoWeek): seq<IsoWeek> {
    if weeks == [] then []
    else
      var x := weeks[|weeks| - 1];
      WeeksWithout(weeks[..|weeks| - 1], w) + (if x == w then [] else [x])
  }

  /** Unlinking a resource unlinks its weekly rows. */
  function DeleteResource(t: Tables, id: nat): Tables {
    Tables(t.weeks, ResourcesWithout(t.resources, id), RowsNotOf(t.rows, id), t.nextId)
  }

  /** Unlinking a week record unlinks the weekly rows of that week. */
  function DeleteWeek(t: Tables, w: IsoWeek): Tables {
    Tables(WeeksWithout(t.weeks, w), t.resources, RowsNotIn(t.rows, w), t.nextId)
  }

  // ---------------------------------------------------------------------
  // Invariants

  predicate UniqueIds(resources: seq<Resource>) {
    forall i, j :: 0 <= i < j < |resources| ==> resources[i].id != resources[j].id
  }

  predicate DistinctWeeks(weeks: seq<IsoWeek>) {
    forall i, j :: 0 <= i < j < |weeks| ==> weeks[i] != weeks[j]
  }

  /** A stored resource passed its constraints. */
  predicate GoodResource(r: Resource) {
    ValidDateTime(r.start) && ValidDateTime(r.end) && LessEq(r.start, r.end) && 0 <= r.base <= 100
  }

  /** At most one row per resource and week. */
  predicate OneRowPerWeek(rows: seq<Row>) {
    forall i, j :: 0 <= i < j < |rows| ==> !(rows[i].resource == rows[j].resource && rows[i].week == rows[j].week)
  }

  /** The tables as the database keeps them: unique resource ids below
      nextId, resources that passed their constraints, one week record per
      week, rows that refer to a stored resource and week record and within
      0..100, at most one row per resource and week. */
  predicate Valid(t: Tables) {
    && UniqueIds(t.resources)
    && (forall k :: 0 <= k < |t.resources| ==> t.resources[k].id < t.nextId && GoodResource(t.resources[k]))
    && DistinctWeeks(t.weeks)
    && (forall k :: 0 <= k < |t.rows| ==>
          Find(t.resources, t.rows[k].resource).Some? && t.rows[k].week in t.weeks
          && 0 <= t.rows[k].workload <= 100)
    && OneRowPerWeek(t.rows)
  }

  /** No employee is planned above 100 % in any week. */
  ghost predicate Capacity(t: Tables) {
    forall e: int, w: IsoWeek :: Load(t.resources, t.rows, e, w) <= 100
  }

  /** A row not changed by hand holds its resource's base workload. */
  predicate Synced(t: Tables) {
    forall k :: 0 <= k < |t.rows| ==> !t.rows[k].manual ==> t.rows[k].workload == BaseOf(t.resources, t.rows[k].resource)
  }
}
