/** The ledger as the database holds it: the week records, the resources
    and the weekly rows, changed in place by the operations of
    resource.py, weekly_resource.py and employee.py.  Each operation is
    proved to leave the tables as the matching function of LedgerModel
    computes them; one that fails leaves them as they were, as Odoo's
    transaction rollback does. */
module ResourceLedger {
  import opened Outcomes
  import opened Calendar
  import opened WeekSpan
  import opened LedgerModel
  import opened LedgerLoad
  import opened EmployeeTotal
  import LedgerOps
  import LedgerShift
  import LedgerDelete
  import LedgerWeekly

  /** An operation ended as the function spec says: with spec's error and
      the tables as before, or with success and spec's tables. */
  predicate Follows<T>(r: Result<T>, spec: Result<Tables>, before: Tables, after: Tables) {
    match spec
    case Err(msg) => r == Err(msg) && after == before
    case Ok(t) => r.Ok? && after == t
  }

  /** What Resource.write needs before create_corresponding_models: the
      rewritten record passed its constraints and is stored in place. */
  lemma WriteStores(before: Tables, id: nat, c: Changes)
    requires Valid(before) && Find(before.resources, id).Some? && ChangesGiven(c)
    requires WriteCheck(Find(before.resources, id).value, c).Ok?
    ensures var res := Rewritten(Find(before.resources, id).value, c);
      var rs := Replace(before.resources, res);
      && ValidDateTime(res.start) && ValidDateTime(res.end)
      && UniqueIds(rs) && DatesValid(rs)
  {
    var res := Rewritten(Find(before.resources, id).value, c);
    LedgerOps.WriteIs(before, id, c, false);
    LedgerOps.StoreRewritten(before, res);
  }

  /** A write whose checks fail changes nothing and reports the check's
      error. */
  lemma WriteRefused(before: Tables, id: nat, c: Changes)
    requires Valid(before) && Find(before.resources, id).Some? && ChangesGiven(c)
    requires WriteCheck(Find(before.resources, id).value, c).Err?
    ensures LedgerModel.Write(before, id, c) == Err(WriteCheck(Find(before.resources, id).value, c).msg)
  {
  }

  /** Capacity and Synced, each carried from before to after when it held
      before.  The two implications sit behind a countdown from 2, so that
      a caller of Write that does not need them does not unfold them;
      KeepsSpec gives them. */
  ghost predicate Keeps(before: Tables, after: Tables) {
    KeepsCountdown(before, after, 2)
  }

  ghost predicate KeepsCountdown(before: Tables, after: Tables, n: nat) {
    if n > 0 then KeepsCountdown(before, after, n - 1)
    else (Capacity(before) ==> Capacity(after)) && (Synced(before) ==> Synced(after))
  }

  lemma KeepsSpec(before: Tables, after: Tables)
    ensures Keeps(before, after) <==> (Capacity(before) ==> Capacity(after)) && (Synced(before) ==> Synced(after))
  {
    assert KeepsCountdown(before, after, 1) == KeepsCountdown(before, after, 0);
  }

  lemma KeepsChain(a: Tables, b: Tables, c: Tables)
    requires Keeps(a, b) && Keeps(b, c)
    ensures Keeps(a, c) && Keeps(a, a)
  {
    KeepsSpec(a, b);
    KeepsSpec(b, c);
    KeepsSpec(a, c);
    KeepsSpec(a, a);
  }

  lemma KeepsSame(t: Tables)
    ensures Keeps(t, t)
  {
    KeepsSpec(t, t);
  }

  /** Resource.write ends as its function says once
      create_corresponding_models has ended as Reconcile does, rolled back
      on failure; on success the tables are valid, and the invariants are
      carried over when the write keeps the employee. */
  lemma WriteFollows(before: Tables, id: nat, c: Changes, res: Resource, r: Result<()>, after: Tables)
    requires Valid(before) && Find(before.resources, id).Some? && ChangesGiven(c)
    requires WriteCheck(Find(before.resources, id).value, c).Ok?
    requires res == Rewritten(Find(before.resources, id).value, c)
    requires ValidDateTime(res.start) && ValidDateTime(res.end) && DatesValid(Replace(before.resources, res))
    requires var spec := Reconcile(before.(resources := Replace(before.resources, res)), res);
      && (r.Err? <==> spec.Err?)
      && (r.Err? ==> r.msg == spec.msg)
      && (r.Ok? ==> after == spec.value)
    ensures Follows(r, LedgerModel.Write(before, id, c), before, if r.Ok? then after else before)
    ensures r.Ok? ==> Valid(after) && Find(after.resources, id).Some?
    ensures KeepsEmployee(Find(before.resources, id).value, c) ==> Keeps(before, if r.Ok? then after else before)
  {
    LedgerOps.WriteIs(before, id, c, false);
    LedgerOps.WriteKeepsInvariants(before, id, c);
    KeepsSpec(before, if r.Ok? then after else before);
  }

  /** plus_one_week ends as its function says once both writes have
      ended as theirs do, the second one rolled back on failure. */
  lemma PlusFollows(before: Tables, id: nat, res: Resource, r1: Result<()>, mid: Tables, r2: Result<()>, after: Tables)
    requires DatesValid(before.resources) && Find(before.resources, id) == Some(res)
    requires Follows(r1, LedgerModel.Write(before, id, EndTo(AddDays(res.end, 7))), before, mid)
    requires r1.Ok? ==> DatesValid(mid.resources) && Find(mid.resources, id).Some?
    requires r1.Ok? ==> Follows(r2, LedgerModel.Write(mid, id, CounterTo(res.weeksToBeAdded + 1)), mid, after)
    ensures r1.Err? ==> Follows(r1, LedgerModel.PlusOneWeek(before, id), before, mid)
    ensures r1.Ok? ==> Follows(r2, LedgerModel.PlusOneWeek(before, id), before, if r2.Ok? then after else before)
  {
    LedgerShift.PlusIs(before, id);
  }

  /** The same for minus_one_week, once its date check has passed. */
  lemma MinusFollows(before: Tables, id: nat, res: Resource, r1: Result<()>, mid: Tables, r2: Result<()>, after: Tables)
    requires DatesValid(before.resources) && Find(before.resources, id) == Some(res) && res.end.day - 7 >= 1
    requires Follows(r1, LedgerModel.Write(before, id, EndTo(AddDays(res.end, -7))), before, mid)
    requires r1.Ok? ==> DatesValid(mid.resources) && Find(mid.resources, id).Some?
    requires r1.Ok? ==> Follows(r2, LedgerModel.Write(mid, id, CounterTo(res.weeksToBeAdded - 1)), mid, after)
    ensures r1.Err? ==> Follows(r1, LedgerModel.MinusOneWeek(before, id), before, mid)
    ensures r1.Ok? ==> Follows(r2, LedgerModel.MinusOneWeek(before, id), before, if r2.Ok? then after else before)
  {
    LedgerShift.MinusIs(before, id);
  }

  /** Where Resource.create runs create_corresponding_models: the new
      record is stored with a fresh id and valid dates. */
  lemma CreateStores(t: Tables, v: NewResource)
    requires Valid(t) && DateGiven(v.start) && DateGiven(v.end)
    requires VerifyDates(v.start, v.end).Ok? && VerifyBase(v.base).Ok?
    ensures var res := Created(t, v);
      UniqueIds(t.resources + [res]) && DatesValid(t.resources + [res])
      && ValidDateTime(res.start) && ValidDateTime(res.end)
  {
    var res := Created(t, v);
    LedgerOps.AppendUnique(t, res);
    var rs := t.resources + [res];
    forall k | 0 <= k < |rs| ensures ValidDateTime(rs[k].start) && ValidDateTime(rs[k].end) {
      if k < |t.resources| {
        assert rs[k] == t.resources[k];
      }
    }
  }

  /** Resource.create with its checks passed is create_corresponding_models
      on the tables with the record stored, and it keeps the invariants. */
  lemma CreateFacts(t: Tables, v: NewResource)
    requires Valid(t) && DateGiven(v.start) && DateGiven(v.end)
    requires VerifyDates(v.start, v.end).Ok? && VerifyBase(v.base).Ok?
    ensures var res := Created(t, v);
      var r := LedgerModel.Create(t, v);
      && r == Reconcile(t.(resources := t.resources + [res], nextId := t.nextId + 1), res)
      && (r.Ok? ==> Valid(r.value) && Keeps(t, r.value))
  {
    LedgerOps.CreateIs(t, v);
    LedgerOps.CreateKeepsValid(t, v);
    var r := LedgerModel.Create(t, v);
    if r.Ok? {
      if Capacity(t) {
        LedgerOps.CreateKeepsCapacity(t, v);
      }
      KeepsSpec(t, r.value);
    }
  }

  class Ledger {
    var weeks: seq<IsoWeek>
    var resources: seq<Resource>
    var rows: seq<Row>
    var nextId: nat

    /** The tables as a value. */
    function State(): Tables
      reads this
    {
      Tables(weeks, resources, rows, nextId)
    }

    /** An empty database. */
    constructor ()
      ensures State() == Tables([], [], [], 0) && Valid(State())
    {
      weeks := [];
      resources := [];
      rows := [];
      nextId := 0;
    }

    /** The rollback of a failed transaction. */
    method Restore(t: Tables)
      modifies this
      ensures State() == t
    {
      weeks := t.weeks;
      resources := t.resources;
      rows := t.rows;
      nextId := t.nextId;
    }

    /** compute_total_workload (employee.py:15-28): for each resource of
        the employee, the workloads of its rows of week w. */
    method TotalWorkload(e: int, w: IsoWeek) returns (total: int)
      requires UniqueIds(resources)
      ensures total == Load(resources, rows, e, w)
    {
      total := 0;
      var i := 0;
      while i < |resources|
        invariant 0 <= i <= |resources|
        invariant total == ByResource(resources[..i], rows, e, w)
      {
        var resource := resources[i];
        if resource.employee == e {
          var j := 0;
          while j < |rows|
            invariant 0 <= j <= |rows|
            invariant total == ByResource(resources[..i], rows, e, w) + MineLoad(rows[..j], resource.id, w)
          {
            if rows[j].resource == resource.id && rows[j].week == w {
              total := total + rows[j].workload;
            }
            assert rows[..j + 1][..j] == rows[..j];
            j := j + 1;
          }
          assert rows[..j] == rows;
        }
        assert resources[..i + 1][..i] == resources[..i];
        i := i + 1;
      }
      assert resources[..i] == resources;
      ByResourceIsLoad(resources, rows, e, w);
    }

    /** verify_workload of weekly_resource.py:21-35 on row i: the range
        checks, then the owner's total of the row's week. */
    method VerifyRowWorkload(i: nat) returns (r: Result<()>)
      requires i < |rows| && UniqueIds(resources)
      ensures r == CheckRow(resources, rows, i)
    {
      var row := rows[i];
      if row.workload > 100 {
        r := Err("The given workload can't be larger than 100");
      } else if row.workload < 0 {
        r := Err("The given workload can't be smaller than 0");
      } else {
        var owner := Find(resources, row.resource);
        var total := row.workload;
        if owner.Some? {
          total := TotalWorkload(owner.value.employee, row.week);
        }
        if total > 100 {
          r := Err("The workload in week " + WeekStringOf(row.week) + " is too high.");
        } else {
          r := Ok(());
        }
      }
    }

    /** Assigning weekly_workload := v to row i: the value is written,
        check_if_changed (weekly_resource.py:39-51) sets the manual flag,
        verify_workload runs, and a failure rolls the write back. */
    method WriteWeeklyWorkload(i: nat, v: int) returns (r: Result<()>)
      requires i < |rows| && UniqueIds(resources)
      modifies this
      ensures Follows(r, LedgerModel.WriteWeeklyWorkload(old(State()), i, v), old(State()), State())
    {
      var before := State();
      var row := rows[i];
      rows := rows[i := row.(workload := v)];
      var changed := v != BaseOf(resources, row.resource);
      rows := rows[i := rows[i].(manual := changed)];
      assert rows == before.rows[i := Row(row.resource, row.week, v, changed)];
      r := VerifyRowWorkload(i);
      if r.Err? {
        Restore(before);
      }
    }

    /** The week upsert of resource.py:146-149: each week of the array
        that has no record yet gets one. */
    method UpsertWeeks(weekArray: seq<IsoWeek>)
      modifies this
      ensures State() == old(State()).(weeks := Upsert(old(weeks), weekArray))
    {
      var i := 0;
      while i < |weekArray|
        invariant 0 <= i <= |weekArray|
        invariant resources == old(resources) && rows == old(rows) && nextId == old(nextId)
        invariant Upsert(old(weeks), weekArray) == Upsert(weeks, weekArray[i..])
      {
        assert weekArray[i..][1..] == weekArray[i + 1..];
        if weekArray[i] !in weeks {
          weeks := weeks + [weekArray[i]];
        }
        i := i + 1;
      }
    }

    /** add_missing_weekly_resources (resource.py:156-179) for resource
        res over the project weeks span: a row not changed by hand is set to
        the base workload, a row changed by hand is left alone, a missing
        row is created after the employee's total is checked.  On failure
        the rows are left half done: the caller rolls back. */
    method AddMissingWeeklyResources(res: Resource, span: seq<IsoWeek>) returns (r: Result<()>)
      requires UniqueIds(resources)
      modifies this
      ensures weeks == old(weeks) && resources == old(resources) && nextId == old(nextId)
      ensures var spec := AddMissing(resources, old(rows), res, span, false);
        && (r.Err? <==> spec.Err?)
        && (r.Err? ==> r.msg == spec.msg)
        && (r.Ok? ==> rows == spec.value)
    {
      var i := 0;
      while i < |span|
        invariant 0 <= i <= |span|
        invariant weeks == old(weeks) && resources == old(resources) && nextId == old(nextId)
        invariant AddMissing(resources, old(rows), res, span, false) == AddMissing(resources, rows, res, span[i..], false)
      {
        var w := span[i];
        assert span[i..][0] == w && span[i..][1..] == span[i + 1..];
        var k := FindRow(rows, res.id, w);
        if k.Some? {
          if !rows[k.value].manual {
            var c := WriteWeeklyWorkload(k.value, res.base);
            if c.Err? {
              return Err(c.msg);
            }
          }
        } else {
          var total := TotalWorkload(res.employee, w);
          if total + res.base > 100 {
            return Err("The workload in week " + WeekStringOf(w) + " is too high");
          }
          rows := rows + [Row(res.id, w, res.base, false)];
        }
        i := i + 1;
      }
      assert span[i..] == [];
      r := Ok(());
    }

    /** delete_spare_weekly_resources (resource.py:182-198): every row of
        resource id whose week is not in span is unlinked. */
    method DeleteSpareWeeklyResources(id: nat, span: seq<IsoWeek>)
      modifies this
      ensures State() == old(State()).(rows := DeleteSpare(old(rows), id, span))
    {
      var kept: seq<Row> := [];
      var i := 0;
      while i < |rows|
        invariant 0 <= i <= |rows|
        invariant kept == DeleteSpare(rows[..i], id, span)
      {
        var row := rows[i];
        var exists_ := false;
        if row.resource == id {
          var j := 0;
          while j < |span|
            invariant 0 <= j <= |span|
            invariant exists_ <==> row.week in span[..j]
          {
            if span[j] == row.week {
              exists_ := true;
            }
            assert span[..j + 1] == span[..j] + [span[j]];
            j := j + 1;
          }
          assert span[..j] == span;
        }
        if !(row.resource == id && !exists_) {
          kept := kept + [row];
        }
        assert rows[..i + 1][..i] == rows[..i];
        i := i + 1;
      }
      assert rows[..i] == rows;
      rows := kept;
    }

    /** create_corresponding_models (resource.py:134-154) for resource res,
        already stored: compute_weeks over the stored resources' dates, the
        week upsert, add_missing_weekly_resources and
        delete_spare_weekly_resources.  On failure the tables are left half
        done: the caller rolls back. */
    method CreateCorrespondingModels(res: Resource) returns (r: Result<()>)
      requires UniqueIds(resources) && DatesValid(resources)
      requires ValidDateTime(res.start) && ValidDateTime(res.end)
      modifies this
      ensures var spec := Reconcile(old(State()), res);
        && (r.Err? <==> spec.Err?)
        && (r.Err? ==> r.msg == spec.msg)
        && (r.Ok? ==> State() == spec.value)
    {
      var weekArray, projectWeekArray := ComputeWeeks(res.start, res.end, Starts(resources), Ends(resources));
      UpsertWeeks(weekArray);
      r := AddMissingWeeklyResources(res, projectWeekArray);
      if r.Ok? {
        DeleteSpareWeeklyResources(res.id, projectWeekArray);
      }
    }

    /** Resource.create (resource.py:101-116): the record is stored under
        the next id, its constraints run, then create_corresponding_models;
        any failure rolls the whole creation back. */
    method Create(v: NewResource) returns (r: Result<nat>)
      requires Valid(State()) && DateGiven(v.start) && DateGiven(v.end)
      modifies this
      ensures Follows(r, LedgerModel.Create(old(State()), v), old(State()), State())
      ensures r.Ok? ==> r.value == old(nextId)
      ensures Valid(State()) && Keeps(old(State()), State())
    {
      var before := State();
      KeepsSame(before);
      var dates := VerifyDates(v.start, v.end);
      if dates.Err? {
        return Err(dates.msg);
      }
      var base := VerifyBase(v.base);
      if base.Err? {
        return Err(base.msg);
      }
      var res := Created(before, v);
      CreateStores(before, v);
      resources := resources + [res];
      nextId := nextId + 1;
      var c := CreateCorrespondingModels(res);
      CreateFacts(before, v);
      if c.Err? {
        Restore(before);
        return Err(c.msg);
      }
      r := Ok(res.id);
    }

    /** Resource.write (resource.py:118-132): the fields are written, their
        constraints run, then create_corresponding_models; any failure
        rolls the whole write back.  A write that moves the resource to
        another employee may leave that employee above 100 % (see the
        findings in README.md), so the invariants are promised only for a
        write that keeps the employee. */
    method Write(id: nat, c: Changes) returns (r: Result<()>)
      requires Valid(State()) && Find(resources, id).Some? && ChangesGiven(c)
      modifies this
      ensures Follows(r, LedgerModel.Write(old(State()), id, c), old(State()), State())
      ensures Valid(State()) && Find(resources, id).Some?
      ensures KeepsEmployee(old(Find(resources, id).value), c) ==> Keeps(old(State()), State())
    {
      var before := State();
      var old_ := Find(resources, id).value;
      var check := WriteCheck(old_, c);
      if check.Err? {
        WriteRefused(before, id, c);
        KeepsSame(before);
        return Err(check.msg);
      }
      var res := Rewritten(old_, c);
      WriteStores(before, id, c);
      resources := Replace(resources, res);
      r := CreateCorrespondingModels(res);
      WriteFollows(before, id, c, res, r, State());
      if r.Err? {
        Restore(before);
      }
    }

    /** plus_one_week (resource.py:38-46): end_date one week later, then
        weeks_to_be_added plus one, each a write; a failure of either rolls
        both back. */
    method PlusOneWeek(id: nat) returns (r: Result<()>)
      requires Valid(State()) && Find(resources, id).Some?
      modifies this
      ensures Follows(r, LedgerModel.PlusOneWeek(old(State()), id), old(State()), State())
      ensures Valid(State()) && Find(resources, id).Some?
      ensures Keeps(old(State()), State())
    {
      var before := State();
      var res := Find(resources, id).value;
      r := Write(id, EndTo(AddDays(res.end, 7)));
      ghost var r1, mid := r, State();
      if r.Err? {
        PlusFollows(before, id, res, r1, mid, r, mid);
        return;
      }
      r := Write(id, CounterTo(res.weeksToBeAdded + 1));
      PlusFollows(before, id, res, r1, mid, r, State());
      KeepsChain(before, mid, State());
      if r.Err? {
        Restore(before);
      }
    }

    /** minus_one_week (resource.py:48-56): end_date one week earlier, then
        weeks_to_be_added minus one, each a write; a date before 1 January
        of year 1 fails as Python's datetime does, and a failure of either
        write rolls both back. */
    method MinusOneWeek(id: nat) returns (r: Result<()>)
      requires Valid(State()) && Find(resources, id).Some?
      modifies this
      ensures Follows(r, LedgerModel.MinusOneWeek(old(State()), id), old(State()), State())
      ensures Valid(State()) && Find(resources, id).Some?
      ensures Keeps(old(State()), State())
    {
      var before := State();
      var res := Find(resources, id).value;
      if res.end.day - 7 < 1 {
        LedgerShift.MinusIs(before, id);
        KeepsSame(before);
        return Err("date value out of range");
      }
      r := Write(id, EndTo(AddDays(res.end, -7)));
      ghost var r1, mid := r, State();
      if r.Err? {
        MinusFollows(before, id, res, r1, mid, r, mid);
        return;
      }
      r := Write(id, CounterTo(res.weeksToBeAdded - 1));
      MinusFollows(before, id, res, r1, mid, r, State());
      KeepsChain(before, mid, State());
      if r.Err? {
        Restore(before);
      }
    }

    /** Unlinking resource id; ondelete="cascade" (weekly_resource.py:17)
        unlinks its weekly rows with it. */
    method Unlink(id: nat)
      requires Valid(State())
      modifies this
      ensures State() == DeleteResource(old(State()), id)
      ensures Valid(State()) && Keeps(old(State()), State())
    {
      LedgerDelete.DeleteResourceKeeps(State(), id);
      resources := ResourcesWithout(resources, id);
      rows := RowsNotOf(rows, id);
      KeepsSpec(old(State()), State());
    }

    /** Unlinking the record of week w; ondelete="cascade"
        (weekly_resource.py:16) unlinks the weekly rows of that week. */
    method UnlinkWeek(w: IsoWeek)
      requires Valid(State())
      modifies this
      ensures State() == DeleteWeek(old(State()), w)
      ensures Valid(State()) && Keeps(old(State()), State())
    {
      LedgerDelete.DeleteWeekKeeps(State(), w);
      weeks := WeeksWithout(weeks, w);
      rows := RowsNotIn(rows, w);
      KeepsSpec(old(State()), State());
    }
  }
}
