/** What Resource.create and Resource.write (resource.py:101-132) do to the
    ledger: when they fail and with which message, the rows they leave, and
    the invariants they keep (valid tables, no employee above 100 % in any
    week, rows not changed by hand at their resource's base workload). */
module LedgerOps {
  import opened Outcomes
  import opened Calendar
  import opened WeekSpan
  import opened LedgerModel
  import opened LedgerLoad
  import opened LedgerLookup
  import opened LedgerReconcile
  import opened LedgerProps

  // ---------------------------------------------------------------------
  // Week records

  /** The week upsert keeps the stored week records in place, adds the
      missing weeks of the week array, and never duplicates a week. */
  lemma {:induction false} UpsertFacts(weeks: seq<IsoWeek>, weekArray: seq<IsoWeek>)
    ensures forall x :: x in Upsert(weeks, weekArray) <==> x in weeks || x in weekArray
    ensures DistinctWeeks(weeks) ==> DistinctWeeks(Upsert(weeks, weekArray))
    ensures |weeks| <= |Upsert(weeks, weekArray)| && Upsert(weeks, weekArray)[..|weeks|] == weeks
    decreases |weekArray|
  {
    if weekArray != [] {
      var x := weekArray[0];
      var ws := if x in weeks then weeks else weeks + [x];
      UpsertFacts(ws, weekArray[1..]);
      assert forall y :: y in weekArray <==> y == x || y in weekArray[1..];
      if x !in weeks {
        forall i, j | 0 <= i < j < |ws| && DistinctWeeks(weeks) ensures ws[i] != ws[j] {
          assert ws[i] == weeks[i];
        }
        assert ws[..|weeks|] == weeks;
      }
      var u := Upsert(weeks, weekArray);
      assert u[..|weeks|] == u[..|ws|][..|weeks|];
    }
  }

  /** The project weeks of a stored resource are among the weeks of
      compute_weeks's week array, so each has a week record after the
      upsert. */
  lemma ProjectWithinAll(rs: seq<Resource>, res: Resource)
    requires DatesValid(rs) && GoodResource(res)
    ensures forall w :: w in ProjectWeeks(res) ==> w in AllWeeks(rs, res)
  {
    FirstAndLastValid(rs, res);
    var (first, last) := FirstAndLast(res.start, res.end, Starts(rs), Ends(rs));
    var span := ProjectWeeks(res);
    forall w | w in span ensures w in AllWeeks(rs, res) {
      var i :| 0 <= i < |span| && span[i] == w;
      SpanWithin(res.start.day, res.end.day, first.day, last.day, i);
    }
  }

  // ---------------------------------------------------------------------
  // Invariants kept by create_corresponding_models

  /** The rows of the resources other than id that were not changed by
      hand hold their resource's base workload. */
  predicate SyncedExcept(t: Tables, id: nat) {
    forall k :: 0 <= k < |t.rows| ==> t.rows[k].resource != id && !t.rows[k].manual ==>
      t.rows[k].workload == BaseOf(t.resources, t.rows[k].resource)
  }

  /** A row of resource id in week w after the reconciliation: a stored row
      changed by hand, or a fresh row at the base workload. */
  lemma TargetRowFacts(rows: seq<Row>, id: nat, w: IsoWeek, base: int)
    ensures var x := TargetRow(rows, id, w, base);
      x.resource == id && x.week == w
      && ((x.manual && x in rows) || x == Row(id, w, base, false))
  {
  }

  /** One row of the reconciled rows: it refers to a stored resource and a
      week record, its workload is within 0..100, and if it was not changed
      by hand it holds its resource's base workload. */
  lemma ReconciledRow(t: Tables, rows': seq<Row>, weeks': seq<IsoWeek>, res: Resource, span: seq<IsoWeek>, x: Row)
    requires Valid(t) && Find(t.resources, res.id) == Some(res) && GoodResource(res)
    requires Reconciled(t.rows, rows', res, span) && x in rows'
    requires forall w :: w in t.weeks ==> w in weeks'
    requires forall w :: w in span ==> w in weeks'
    ensures Find(t.resources, x.resource).Some? && x.week in weeks' && 0 <= x.workload <= 100
    ensures SyncedExcept(t, res.id) && !x.manual ==> x.workload == BaseOf(t.resources, x.resource)
  {
    if x.resource == res.id {
      RowOfMember(rows', x);
      assert x.week in span && x == TargetRow(t.rows, res.id, x.week, res.base);
      TargetRowFacts(t.rows, res.id, x.week, res.base);
      if x.manual {
        var m :| 0 <= m < |t.rows| && t.rows[m] == x;
      }
    } else {
      RowsNotOfMember(rows', res.id, x);
      RowsNotOfElements(t.rows, res.id);
      var j :| 0 <= j < |RowsNotOf(t.rows, res.id)| && RowsNotOf(t.rows, res.id)[j] == x;
      var m :| 0 <= m < |t.rows| && t.rows[m] == x;
    }
  }

  /** create_corresponding_models on valid tables yields valid tables, and
      leaves every row not changed by hand at its resource's base workload
      when the other resources' rows were. */
  lemma ReconcileValid(t: Tables, res: Resource, flag: bool)
    requires Valid(t) && Find(t.resources, res.id) == Some(res) && GoodResource(res)
    ensures var r := ReconcileWith(t, res, flag);
      r.Ok? ==> Valid(r.value) && (SyncedExcept(t, res.id) ==> Synced(r.value))
  {
    var r := ReconcileWith(t, res, flag);
    if r.Ok? {
      ReconcileRows(t, res, flag);
      var span := ProjectWeeks(res);
      var t' := r.value;
      UpsertFacts(t.weeks, AllWeeks(t.resources, res));
      ProjectWithinAll(t.resources, res);
      forall k | 0 <= k < |t'.rows|
        ensures Find(t'.resources, t'.rows[k].resource).Some? && t'.rows[k].week in t'.weeks
          && 0 <= t'.rows[k].workload <= 100
        ensures SyncedExcept(t, res.id) && !t'.rows[k].manual ==>
          t'.rows[k].workload == BaseOf(t'.resources, t'.rows[k].resource)
      {
        ReconciledRow(t, t'.rows, t'.weeks, res, span, t'.rows[k]);
      }
    }
  }

  lemma {:induction false} RowsNotOfKeep(rows: seq<Row>, id: nat)
    requires forall k :: 0 <= k < |rows| ==> rows[k].resource != id
    ensures RowsNotOf(rows, id) == rows
  {
    if rows != [] {
      RowsNotOfKeep(rows[..|rows| - 1], id);
    }
  }

  // ---------------------------------------------------------------------
  // Resource.create

  lemma AppendUnique(t: Tables, res: Resource)
    requires Valid(t) && res.id == t.nextId
    ensures UniqueIds(t.resources + [res])
  {
    var rs1 := t.resources + [res];
    forall i, j | 0 <= i < j < |rs1| ensures rs1[i].id != rs1[j].id {
      if j < |t.resources| {
        assert rs1[i] == t.resources[i] && rs1[j] == t.resources[j];
      } else {
        assert rs1[i] == t.resources[i];
      }
    }
  }

  /** The stored rows keep their owners when a resource is created. */
  lemma AppendOwners(t: Tables, res: Resource)
    requires Valid(t) && res.id == t.nextId
    ensures forall k :: 0 <= k < |t.rows| ==>
      t.rows[k].resource != res.id && Find(t.resources + [res], t.rows[k].resource) == Find(t.resources, t.rows[k].resource)
  {
    forall k | 0 <= k < |t.rows|
      ensures t.rows[k].resource != res.id && Find(t.resources + [res], t.rows[k].resource) == Find(t.resources, t.rows[k].resource)
    {
      FindAppendOther(t.resources, res, t.rows[k].resource);
    }
  }

  lemma AppendLoads(t: Tables, res: Resource)
    requires Valid(t) && res.id == t.nextId
    ensures RowsNotOf(t.rows, res.id) == t.rows
    ensures forall e, w :: Load(t.resources + [res], t.rows, e, w) == Load(t.resources, t.rows, e, w)
  {
    AppendOwners(t, res);
    RowsNotOfKeep(t.rows, res.id);
    forall e, w ensures Load(t.resources + [res], t.rows, e, w) == Load(t.resources, t.rows, e, w) {
      LoadAppendResource(t.resources, res, t.rows, e, w);
    }
  }

  lemma AppendSynced(t: Tables, res: Resource)
    requires Valid(t) && res.id == t.nextId && Synced(t)
    ensures SyncedExcept(t.(resources := t.resources + [res], nextId := t.nextId + 1), res.id)
  {
    AppendOwners(t, res);
  }

  /** Storing a resource that passed its constraints under the next id
      keeps the tables valid. */
  lemma AppendValid(t: Tables, res: Resource)
    requires Valid(t) && res.id == t.nextId && GoodResource(res)
    ensures Valid(t.(resources := t.resources + [res], nextId := t.nextId + 1))
  {
    var t1 := t.(resources := t.resources + [res], nextId := t.nextId + 1);
    AppendUnique(t, res);
    AppendOwners(t, res);
    forall k | 0 <= k < |t1.resources| ensures t1.resources[k].id < t1.nextId && GoodResource(t1.resources[k]) {
      if k < |t.resources| {
        assert t1.resources[k] == t.resources[k];
      }
    }
    forall k | 0 <= k < |t1.rows|
      ensures Find(t1.resources, t1.rows[k].resource).Some? && t1.rows[k].week in t1.weeks
        && 0 <= t1.rows[k].workload <= 100
    {
      assert Find(t1.resources, t.rows[k].resource) == Find(t.resources, t.rows[k].resource);
    }
  }

  /** A created resource has no rows yet, and storing it keeps the tables
      valid and every employee's totals as they were. */
  lemma StoreCreated(t: Tables, res: Resource)
    requires Valid(t) && res.id == t.nextId && GoodResource(res)
    ensures var t1 := t.(resources := t.resources + [res], nextId := t.nextId + 1);
      && Valid(t1) && Find(t1.resources, res.id) == Some(res)
      && RowsNotOf(t.rows, res.id) == t.rows
      && (forall e, w :: Load(t1.resources, t.rows, e, w) == Load(t.resources, t.rows, e, w))
      && (Synced(t) ==> SyncedExcept(t1, res.id))
  {
    assert Find(t.resources, res.id).None?;
    FindAppendNew(t.resources, res);
    AppendValid(t, res);
    AppendLoads(t, res);
    if Synced(t) {
      AppendSynced(t, res);
    }
  }

  /** Resource.create with its checks passed is create_corresponding_models
      on the tables with the new record stored. */
  lemma CreateIs(t: Tables, v: NewResource)
    requires DatesValid(t.resources) && DateGiven(v.start) && DateGiven(v.end)
    requires VerifyDates(v.start, v.end).Ok? && VerifyBase(v.base).Ok?
    ensures var res := Created(t, v);
      Create(t, v) == Reconcile(t.(resources := t.resources + [res], nextId := t.nextId + 1), res)
  {
    StoreAndReconcileSpec(t, v);
    assert Stored(t, v) == t.(resources := t.resources + [Created(t, v)], nextId := t.nextId + 1);
  }

  /** create_corresponding_models for a resource without rows: it fails
      exactly when, in some project week, the employee's total with the base
      workload would pass 100 (FreshFailsAtFirst gives the week reported);
      otherwise the resource gets one row per project week at its base
      workload, and the other rows stay as they were. */
  lemma ReconcileFresh(t: Tables, res: Resource)
    requires DatesValid(t.resources) && ValidDateTime(res.start) && ValidDateTime(res.end)
    requires Context(t.resources, t.rows, res) && forall k :: 0 <= k < |t.rows| ==> t.rows[k].resource != res.id
    ensures var span := ProjectWeeks(res);
      var r := Reconcile(t, res);
      && (r.Ok? <==> forall w :: w in span ==> Load(t.resources, t.rows, res.employee, w) + res.base <= 100)
      && (r.Ok? ==>
            && r.value.resources == t.resources && r.value.nextId == t.nextId
            && r.value.weeks == Upsert(t.weeks, AllWeeks(t.resources, res))
            && RowsNotOf(r.value.rows, res.id) == t.rows
            && forall w :: RowOf(r.value.rows, res.id, w) == if w in span then Some(Row(res.id, w, res.base, false)) else None)
  {
    RowsNotOfKeep(t.rows, res.id);
    ReconcileRows(t, res, false);
    forall w ensures FindRow(t.rows, res.id, w).None? && TargetRow(t.rows, res.id, w, res.base) == Row(res.id, w, res.base, false)
      && (StepOk(t.resources, t.rows, res, w, false) <==> Load(t.resources, t.rows, res.employee, w) + res.base <= 100)
    {
    }
  }

  /** A failed create_corresponding_models for a resource without rows
      reports the first project week in which the employee's total with the
      base workload passes 100. */
  lemma FreshFailsAtFirst(t: Tables, res: Resource)
    requires DatesValid(t.resources) && ValidDateTime(res.start) && ValidDateTime(res.end)
    requires Context(t.resources, t.rows, res) && forall k :: 0 <= k < |t.rows| ==> t.rows[k].resource != res.id
    ensures var span := ProjectWeeks(res);
      var r := Reconcile(t, res);
      r.Err? ==>
        exists i :: 0 <= i < |span| && Load(t.resources, t.rows, res.employee, span[i]) + res.base > 100
          && (forall j :: 0 <= j < i ==> Load(t.resources, t.rows, res.employee, span[j]) + res.base <= 100)
          && r.msg == "The workload in week " + WeekStringOf(span[i]) + " is too high"
  {
    var span := ProjectWeeks(res);
    RowsNotOfKeep(t.rows, res.id);
    ReconcileError(t, res, false);
    var ff := FirstFailure(t.resources, t.rows, res, span, false);
    if ff.Some? {
      FirstFailureFirst(t.resources, t.rows, res, span, false);
      var i :| 0 <= i < |span| && span[i] == ff.value
        && forall j :: 0 <= j < i ==> StepOk(t.resources, t.rows, res, span[j], false);
      forall j | 0 <= j < i ensures Load(t.resources, t.rows, res.employee, span[j]) + res.base <= 100 {
        assert FindRow(t.rows, res.id, span[j]).None?;
      }
      assert FindRow(t.rows, res.id, span[i]).None?;
    }
  }

  /** Resource.create with checks passed fails exactly when, in some
      project week, the employee's total with the new base workload would
      pass 100 (CreateFailsAtFirst gives the week reported); otherwise the
      new resource gets one row per project week at its base workload and
      nothing else changes. */
  lemma CreateResult(t: Tables, v: NewResource)
    requires Valid(t) && DateGiven(v.start) && DateGiven(v.end)
    requires VerifyDates(v.start, v.end).Ok? && VerifyBase(v.base).Ok?
    ensures var res := Created(t, v);
      var span := ProjectWeeks(res);
      var r := Create(t, v);
      && (r.Ok? <==> forall w :: w in span ==> Load(t.resources, t.rows, v.employee, w) + v.base <= 100)
      && (r.Ok? ==>
            && r.value.resources == t.resources + [res] && r.value.nextId == t.nextId + 1
            && r.value.weeks == Upsert(t.weeks, AllWeeks(t.resources + [res], res))
            && RowsNotOf(r.value.rows, res.id) == t.rows
            && forall w :: RowOf(r.value.rows, res.id, w) == if w in span then Some(Row(res.id, w, v.base, false)) else None)
  {
    CreateIs(t, v);
    StoredFresh(t, Created(t, v));
  }

  /** ReconcileFresh for a new record stored under the next id, stated on
      the tables before it was stored. */
  lemma StoredFresh(t: Tables, res: Resource)
    requires Valid(t) && res.id == t.nextId && GoodResource(res)
    ensures var t1 := t.(resources := t.resources + [res], nextId := t.nextId + 1);
      var span := ProjectWeeks(res);
      var r := Reconcile(t1, res);
      && DatesValid(t1.resources)
      && (r.Ok? <==> forall w :: w in span ==> Load(t.resources, t.rows, res.employee, w) + res.base <= 100)
      && (r.Ok? ==>
            && r.value.resources == t.resources + [res] && r.value.nextId == t.nextId + 1
            && r.value.weeks == Upsert(t.weeks, AllWeeks(t.resources + [res], res))
            && RowsNotOf(r.value.rows, res.id) == t.rows
            && forall w :: RowOf(r.value.rows, res.id, w) == if w in span then Some(Row(res.id, w, res.base, false)) else None)
  {
    var t1 := t.(resources := t.resources + [res], nextId := t.nextId + 1);
    CreatedContext(t, res);
    ReconcileFresh(t1, res);
    forall w ensures Load(t1.resources, t.rows, res.employee, w) == Load(t.resources, t.rows, res.employee, w) {
      LoadAppendResource(t.resources, res, t.rows, res.employee, w);
    }
  }

  /** A refused Resource.create reports the first project week in which
      the employee's total with the new base workload would pass 100. */
  lemma CreateFailsAtFirst(t: Tables, v: NewResource)
    requires Valid(t) && DateGiven(v.start) && DateGiven(v.end)
    requires VerifyDates(v.start, v.end).Ok? && VerifyBase(v.base).Ok?
    ensures var span := ProjectWeeks(Created(t, v));
      var r := Create(t, v);
      r.Err? ==>
        exists i :: 0 <= i < |span| && Load(t.resources, t.rows, v.employee, span[i]) + v.base > 100
          && (forall j :: 0 <= j < i ==> Load(t.resources, t.rows, v.employee, span[j]) + v.base <= 100)
          && r.msg == "The workload in week " + WeekStringOf(span[i]) + " is too high"
  {
    var res := Created(t, v);
    var t1 := t.(resources := t.resources + [res], nextId := t.nextId + 1);
    CreateIs(t, v);
    CreatedContext(t, res);
    FreshFailsAtFirst(t1, res);
    forall w ensures Load(t1.resources, t.rows, v.employee, w) == Load(t.resources, t.rows, v.employee, w) {
      LoadAppendResource(t.resources, res, t.rows, v.employee, w);
    }
  }

  /** Resource.create keeps the tables valid, and keeps rows not changed
      by hand at their resource's base workload. */
  lemma CreateKeepsValid(t: Tables, v: NewResource)
    requires Valid(t) && DateGiven(v.start) && DateGiven(v.end)
    ensures var r := Create(t, v);
      r.Ok? ==> Valid(r.value) && (Synced(t) ==> Synced(r.value))
  {
    var r := Create(t, v);
    if r.Ok? {
      var res := Created(t, v);
      var t1 := t.(resources := t.resources + [res], nextId := t.nextId + 1);
      CreateIs(t, v);
      StoreCreated(t, res);
      ReconcileValid(t1, res, false);
    }
  }

  /** Where create_corresponding_models runs for a new resource: it is
      stored, and no row refers to it yet. */
  lemma CreatedContext(t: Tables, res: Resource)
    requires Valid(t) && res.id == t.nextId && GoodResource(res)
    ensures Context(t.resources + [res], t.rows, res) && DatesValid(t.resources + [res])
    ensures forall k :: 0 <= k < |t.rows| ==> t.rows[k].resource != res.id
  {
    assert Find(t.resources, res.id).None?;
    FindAppendNew(t.resources, res);
    AppendOwners(t, res);
  }

  /** Before a new resource has rows, the other resources' share of every
      total is the whole total. */
  lemma CreatedOthers(t: Tables, res: Resource)
    requires Capacity(t) && forall k :: 0 <= k < |t.rows| ==> t.rows[k].resource != res.id
    ensures forall e, w :: Others(t.resources + [res], t.rows, res.id, e, w) <= 100
  {
    RowsNotOfKeep(t.rows, res.id);
    forall e, w ensures Others(t.resources + [res], t.rows, res.id, e, w) <= 100 {
      LoadAppendResource(t.resources, res, t.rows, e, w);
    }
  }

  /** A resource without rows has no hand-set row to fit. */
  lemma FreshFit(rs: seq<Resource>, rows: seq<Row>, res: Resource)
    requires forall k :: 0 <= k < |rows| ==> rows[k].resource != res.id
    ensures HandSetFit(rs, rows, res)
  {
    forall w ensures FindRow(rows, res.id, w).None? {
    }
  }

  /** Resource.create keeps every employee within 100 % in every week. */
  lemma CreateKeepsCapacity(t: Tables, v: NewResource)
    requires Valid(t) && Capacity(t) && DateGiven(v.start) && DateGiven(v.end)
    ensures var r := Create(t, v);
      r.Ok? ==> Capacity(r.value)
  {
    var r := Create(t, v);
    if r.Ok? {
      var res := Created(t, v);
      var t1 := t.(resources := t.resources + [res], nextId := t.nextId + 1);
      CreateIs(t, v);
      CreatedContext(t, res);
      CreatedOthers(t, res);
      FreshFit(t1.resources, t.rows, res);
      ReconcileCapacity(t1, res, false);
    }
  }

  // ---------------------------------------------------------------------
  // Resource.write

  lemma ReplaceUnique(t: Tables, res: Resource)
    requires Valid(t) && Find(t.resources, res.id).Some? && GoodResource(res)
    ensures UniqueIds(Replace(t.resources, res))
    ensures forall k :: 0 <= k < |Replace(t.resources, res)| ==>
      Replace(t.resources, res)[k].id < t.nextId && GoodResource(Replace(t.resources, res)[k])
  {
    var rs1 := Replace(t.resources, res);
    forall i, j | 0 <= i < j < |rs1| ensures rs1[i].id != rs1[j].id {
      assert rs1[i].id == t.resources[i].id && rs1[j].id == t.resources[j].id;
    }
    forall k | 0 <= k < |rs1| ensures rs1[k].id < t.nextId && GoodResource(rs1[k]) {
      assert rs1[k] == if t.resources[k].id == res.id then res else t.resources[k];
      if t.resources[k].id == res.id {
        assert Find(t.resources, res.id).value.id < t.nextId;
      }
    }
  }

  lemma ReplaceOwners(t: Tables, res: Resource)
    requires Valid(t) && Find(t.resources, res.id).Some?
    ensures Find(Replace(t.resources, res), res.id) == Some(res)
    ensures forall k :: 0 <= k < |t.rows| ==> Find(Replace(t.resources, res), t.rows[k].resource).Some?
    ensures forall k :: 0 <= k < |t.rows| && t.rows[k].resource != res.id ==>
      BaseOf(Replace(t.resources, res), t.rows[k].resource) == BaseOf(t.resources, t.rows[k].resource)
  {
    var rs := Replace(t.resources, res);
    ReplaceFind(t.resources, res);
    forall k | 0 <= k < |t.rows|
      ensures Find(rs, t.rows[k].resource).Some?
      ensures t.rows[k].resource != res.id ==> BaseOf(rs, t.rows[k].resource) == BaseOf(t.resources, t.rows[k].resource)
    {
      var j := t.rows[k].resource;
      if j != res.id {
        assert Find(rs, j) == Find(t.resources, j);
      }
    }
  }

  lemma ReplaceOthers(t: Tables, res: Resource)
    requires Find(t.resources, res.id).Some?
    ensures forall e, w :: Others(Replace(t.resources, res), t.rows, res.id, e, w) == Others(t.resources, t.rows, res.id, e, w)
  {
    forall e, w ensures Others(Replace(t.resources, res), t.rows, res.id, e, w) == Others(t.resources, t.rows, res.id, e, w) {
      OthersUnderReplace(t.resources, res, t.rows, e, w);
    }
  }

  /** Rewriting a stored resource keeps the tables valid and keeps the
      other resources' rows, and their owners, as they were. */
  lemma StoreRewritten(t: Tables, res: Resource)
    requires Valid(t) && Find(t.resources, res.id).Some? && GoodResource(res)
    ensures var t1 := t.(resources := Replace(t.resources, res));
      && Valid(t1) && Find(t1.resources, res.id) == Some(res)
      && (forall e, w :: Others(t1.resources, t.rows, res.id, e, w) == Others(t.resources, t.rows, res.id, e, w))
      && (Synced(t) ==> SyncedExcept(t1, res.id))
  {
    ReplaceUnique(t, res);
    ReplaceOwners(t, res);
    ReplaceOthers(t, res);
  }

  /** Resource.write with its checks passed is create_corresponding_models
      on the tables with the rewritten record stored. */
  lemma WriteIs(t: Tables, id: nat, c: Changes, flag: bool)
    requires DatesValid(t.resources) && Find(t.resources, id).Some? && ChangesGiven(c)
    requires WriteCheck(Find(t.resources, id).value, c).Ok?
    ensures var res := Rewritten(Find(t.resources, id).value, c);
      ValidDateTime(res.start) && ValidDateTime(res.end) && DatesValid(Replace(t.resources, res))
      && WriteWith(t, id, c, flag) == ReconcileWith(t.(resources := Replace(t.resources, res)), res, flag)
  {
    var res := Rewritten(Find(t.resources, id).value, c);
    ReplaceDatesValid(t.resources, res);
    WriteWithSpec(t, id, c, flag);
  }

  /** create_corresponding_models fails exactly when, in some project
      week whose row was not changed by hand, the other resources' share of
      the employee's total plus the base workload would pass 100
      (ReconcileFailsAtFirst gives the week reported); otherwise the rows
      are reconciled. */
  lemma ReconcileTarget(t: Tables, res: Resource)
    requires DatesValid(t.resources) && ValidDateTime(res.start) && ValidDateTime(res.end)
    requires Context(t.resources, t.rows, res)
    ensures var span := ProjectWeeks(res);
      var r := Reconcile(t, res);
      && (r.Ok? <==> forall w :: w in span ==>
            TargetRow(t.rows, res.id, w, res.base).manual || Others(t.resources, t.rows, res.id, res.employee, w) + res.base <= 100)
      && (r.Ok? ==>
            && r.value.resources == t.resources && r.value.nextId == t.nextId
            && r.value.weeks == Upsert(t.weeks, AllWeeks(t.resources, res))
            && Reconciled(t.rows, r.value.rows, res, span))
  {
    ReconcileRows(t, res, false);
    forall w ensures StepOk(t.resources, t.rows, res, w, false) <==>
      TargetRow(t.rows, res.id, w, res.base).manual || Others(t.resources, t.rows, res.id, res.employee, w) + res.base <= 100
    {
    }
  }

  /** A failed create_corresponding_models reports the first project week
      whose row was not changed by hand and in which the other resources'
      share of the employee's total plus the base workload passes 100. */
  lemma ReconcileFailsAtFirst(t: Tables, res: Resource)
    requires DatesValid(t.resources) && ValidDateTime(res.start) && ValidDateTime(res.end)
    requires Context(t.resources, t.rows, res)
    ensures var span := ProjectWeeks(res);
      var r := Reconcile(t, res);
      r.Err? ==>
        exists i :: 0 <= i < |span|
          && !TargetRow(t.rows, res.id, span[i], res.base).manual
          && Others(t.resources, t.rows, res.id, res.employee, span[i]) + res.base > 100
          && (forall j :: 0 <= j < i ==>
                TargetRow(t.rows, res.id, span[j], res.base).manual || Others(t.resources, t.rows, res.id, res.employee, span[j]) + res.base <= 100)
          && r.msg == StepMsg(t.rows, res, span[i])
  {
    var span := ProjectWeeks(res);
    ReconcileError(t, res, false);
    var ff := FirstFailure(t.resources, t.rows, res, span, false);
    if ff.Some? {
      FirstFailureFirst(t.resources, t.rows, res, span, false);
      var i :| 0 <= i < |span| && span[i] == ff.value
        && forall j :: 0 <= j < i ==> StepOk(t.resources, t.rows, res, span[j], false);
      forall j | 0 <= j < i
        ensures TargetRow(t.rows, res.id, span[j], res.base).manual || Others(t.resources, t.rows, res.id, res.employee, span[j]) + res.base <= 100
      {
        assert StepOk(t.resources, t.rows, res, span[j], false);
      }
      assert !StepOk(t.resources, t.rows, res, span[i], false);
    }
  }

  /** Resource.write with checks passed fails exactly when, in some
      project week whose row was not changed by hand, the employee's total
      from the other resources plus the base workload would pass 100 (the
      first such week is reported); otherwise the resource is rewritten and
      its rows reconciled.  WriteFailsAtFirst gives the week reported. */
  lemma WriteResult(t: Tables, id: nat, c: Changes)
    requires Valid(t) && Find(t.resources, id).Some? && ChangesGiven(c)
    requires WriteCheck(Find(t.resources, id).value, c).Ok?
    ensures var res := Rewritten(Find(t.resources, id).value, c);
      var span := ProjectWeeks(res);
      var r := Write(t, id, c);
      && (r.Ok? <==> forall w :: w in span ==>
            TargetRow(t.rows, id, w, res.base).manual || Others(t.resources, t.rows, id, res.employee, w) + res.base <= 100)
      && (r.Ok? ==>
            && r.value.resources == Replace(t.resources, res) && r.value.nextId == t.nextId
            && r.value.weeks == Upsert(t.weeks, AllWeeks(Replace(t.resources, res), res))
            && Reconciled(t.rows, r.value.rows, res, span))
  {
    var old_ := Find(t.resources, id).value;
    var res := Rewritten(old_, c);
    var t1 := t.(resources := Replace(t.resources, res));
    WriteIs(t, id, c, false);
    ReplaceOwners(t, res);
    ReplaceOthers(t, res);
    ReconcileTarget(t1, res);
  }

  /** A refused Resource.write, its checks passed, reports the first
      project week whose row was not changed by hand and in which the
      employee's total with the base workload would pass 100. */
  lemma WriteFailsAtFirst(t: Tables, id: nat, c: Changes)
    requires Valid(t) && Find(t.resources, id).Some? && ChangesGiven(c)
    requires WriteCheck(Find(t.resources, id).value, c).Ok?
    ensures var res := Rewritten(Find(t.resources, id).value, c);
      var span := ProjectWeeks(res);
      var r := Write(t, id, c);
      r.Err? ==>
        exists i :: 0 <= i < |span|
          && !TargetRow(t.rows, id, span[i], res.base).manual
          && Others(t.resources, t.rows, id, res.employee, span[i]) + res.base > 100
          && (forall j :: 0 <= j < i ==>
                TargetRow(t.rows, id, span[j], res.base).manual || Others(t.resources, t.rows, id, res.employee, span[j]) + res.base <= 100)
          && r.msg == StepMsg(t.rows, res, span[i])
  {
    var res := Rewritten(Find(t.resources, id).value, c);
    WriteIs(t, id, c, false);
    RewriteFailsAtFirst(t, res);
  }

  /** The same for the rewritten record stored and its rows reconciled. */
  lemma RewriteFailsAtFirst(t: Tables, res: Resource)
    requires Valid(t) && Find(t.resources, res.id).Some? && GoodResource(res)
    ensures var t1 := t.(resources := Replace(t.resources, res));
      var span := ProjectWeeks(res);
      DatesValid(t1.resources) &&
      var r := Reconcile(t1, res);
      r.Err? ==>
        exists i :: 0 <= i < |span|
          && !TargetRow(t.rows, res.id, span[i], res.base).manual
          && Others(t.resources, t.rows, res.id, res.employee, span[i]) + res.base > 100
          && (forall j :: 0 <= j < i ==>
                TargetRow(t.rows, res.id, span[j], res.base).manual || Others(t.resources, t.rows, res.id, res.employee, span[j]) + res.base <= 100)
          && r.msg == StepMsg(t.rows, res, span[i])
  {
    var t1 := t.(resources := Replace(t.resources, res));
    var span := ProjectWeeks(res);
    RewriteContext(t, res);
    ReconcileFailsAtFirst(t1, res);
    var r := Reconcile(t1, res);
    if r.Err? {
      var i :| 0 <= i < |span|
        && !TargetRow(t.rows, res.id, span[i], res.base).manual
        && Others(t1.resources, t.rows, res.id, res.employee, span[i]) + res.base > 100
        && (forall j :: 0 <= j < i ==>
              TargetRow(t.rows, res.id, span[j], res.base).manual || Others(t1.resources, t.rows, res.id, res.employee, span[j]) + res.base <= 100)
        && r.msg == StepMsg(t.rows, res, span[i]);
      forall j | 0 <= j < i
        ensures TargetRow(t.rows, res.id, span[j], res.base).manual || Others(t.resources, t.rows, res.id, res.employee, span[j]) + res.base <= 100
      {
        OthersUnderReplace(t.resources, res, t.rows, res.employee, span[j]);
      }
      OthersUnderReplace(t.resources, res, t.rows, res.employee, span[i]);
    }
  }

  /** With the employee kept, every hand-set row of the rewritten resource
      fits the employee's total: it was part of that total before. */
  lemma KeptEmployeeFit(t: Tables, res: Resource)
    requires Valid(t) && Capacity(t) && Find(t.resources, res.id).Some?
    requires Find(t.resources, res.id).value.employee == res.employee
    ensures HandSetFit(Replace(t.resources, res), t.rows, res)
  {
    ReplaceOthers(t, res);
    forall w | TargetRow(t.rows, res.id, w, res.base).manual
      ensures Others(Replace(t.resources, res), t.rows, res.id, res.employee, w) + TargetRow(t.rows, res.id, w, res.base).workload <= 100
    {
      LoadDecompose(t.resources, t.rows, res.id, res.employee, w);
      MineLoadUnique(t.rows, res.id, w);
      assert Load(t.resources, t.rows, res.employee, w) <= 100;
    }
  }

  /** The rewritten record stored and its rows reconciled: within capacity
      when the tables were, with the re-check or with the employee kept. */
  lemma RewriteCapacity(t: Tables, res: Resource, flag: bool)
    requires Valid(t) && Capacity(t) && Find(t.resources, res.id).Some? && GoodResource(res)
    requires flag || Find(t.resources, res.id).value.employee == res.employee
    ensures var t1 := t.(resources := Replace(t.resources, res));
      DatesValid(t1.resources) && (ReconcileWith(t1, res, flag).Ok? ==> Capacity(ReconcileWith(t1, res, flag).value))
  {
    var t1 := t.(resources := Replace(t.resources, res));
    RewriteContext(t, res);
    assert forall e, w :: Others(t1.resources, t1.rows, res.id, e, w) <= 100 by {
      RewriteOthers(t, res);
    }
    if flag {
      ReconcileCapacity(t1, res, true);
    } else {
      assert HandSetFit(t1.resources, t1.rows, res) by {
        KeptEmployeeFit(t, res);
      }
      ReconcileCapacity(t1, res, false);
    }
  }

  /** Where create_corresponding_models runs for a rewritten record: it is
      stored in place, with valid dates. */
  lemma RewriteContext(t: Tables, res: Resource)
    requires Valid(t) && Find(t.resources, res.id).Some? && GoodResource(res)
    ensures DatesValid(Replace(t.resources, res)) && Context(Replace(t.resources, res), t.rows, res)
  {
    ReplaceFind(t.resources, res);
    assert DatesValid(t.resources) by {
      forall k | 0 <= k < |t.resources| ensures ValidDateTime(t.resources[k].start) && ValidDateTime(t.resources[k].end) {
        assert GoodResource(t.resources[k]);
      }
    }
    ReplaceDatesValid(t.resources, res);
  }

  /** Within capacity, the other resources' share of every total is at
      most 100, whatever record replaces resource res.id. */
  lemma RewriteOthers(t: Tables, res: Resource)
    requires Valid(t) && Capacity(t) && Find(t.resources, res.id).Some?
    ensures forall e, w :: Others(Replace(t.resources, res), t.rows, res.id, e, w) <= 100
  {
    ReplaceOthers(t, res);
    forall e, w ensures Others(t.resources, t.rows, res.id, e, w) <= 100 {
      OthersAtMost(t.resources, t.rows, res.id, e, w);
      assert Load(t.resources, t.rows, e, w) <= 100;
    }
  }

  /** The rewritten record stored and its rows reconciled: the tables stay
      valid, and rows not changed by hand keep their base workload. */
  lemma RewriteValid(t: Tables, res: Resource, flag: bool)
    requires Valid(t) && Find(t.resources, res.id).Some? && GoodResource(res)
    ensures var t1 := t.(resources := Replace(t.resources, res));
      var r := ReconcileWith(t1, res, flag);
      DatesValid(t1.resources) && (r.Ok? ==> Valid(r.value) && (Synced(t) ==> Synced(r.value)))
  {
    var t1 := t.(resources := Replace(t.resources, res));
    StoreRewritten(t, res);
    ReconcileValid(t1, res, flag);
  }

  /** Resource.write keeps the tables valid, and keeps rows not changed by
      hand at their resource's (possibly new) base workload; when it keeps
      the employee, it keeps every employee within 100 % in every week. */
  lemma WriteKeepsInvariants(t: Tables, id: nat, c: Changes)
    requires Valid(t) && Find(t.resources, id).Some? && ChangesGiven(c)
    ensures var r := Write(t, id, c);
      r.Ok? ==>
        && Valid(r.value) && (Synced(t) ==> Synced(r.value))
        && (Capacity(t) && KeepsEmployee(Find(t.resources, id).value, c) ==> Capacity(r.value))
  {
    var r := Write(t, id, c);
    if r.Ok? {
      var old_ := Find(t.resources, id).value;
      var res := Rewritten(old_, c);
      WriteIs(t, id, c, false);
      assert Valid(r.value) && (Synced(t) ==> Synced(r.value)) by {
        RewriteValid(t, res, false);
      }
      if Capacity(t) && KeepsEmployee(old_, c) {
        WriteKeepsCapacity(t, id, c);
      }
    }
  }

  /** A write that keeps the employee keeps every employee within 100 %
      in every week. */
  lemma WriteKeepsCapacity(t: Tables, id: nat, c: Changes)
    requires Valid(t) && Capacity(t) && Find(t.resources, id).Some? && ChangesGiven(c)
    requires KeepsEmployee(Find(t.resources, id).value, c)
    ensures Write(t, id, c).Ok? ==> Capacity(Write(t, id, c).value)
  {
    var old_ := Find(t.resources, id).value;
    if WriteCheck(old_, c).Ok? {
      var res := Rewritten(old_, c);
      WriteIs(t, id, c, false);
      RewriteCapacity(t, res, false);
    }
  }

  /** Where the tables are within capacity and the write keeps the
      employee, Resource.write as written and with the re-check end alike. */
  lemma WriteAgrees(t: Tables, id: nat, c: Changes)
    requires Valid(t) && Capacity(t) && Find(t.resources, id).Some? && ChangesGiven(c)
    requires KeepsEmployee(Find(t.resources, id).value, c)
    ensures Write(t, id, c) == WriteRechecked(t, id, c)
  {
    var old_ := Find(t.resources, id).value;
    if WriteCheck(old_, c).Ok? {
      var res := Rewritten(old_, c);
      var t1 := t.(resources := Replace(t.resources, res));
      WriteIs(t, id, c, false);
      WriteIs(t, id, c, true);
      StoreRewritten(t, res);
      KeptEmployeeFit(t, res);
      RecheckAgrees(t1, res);
    }
  }

  /** Corrected: with the re-check, Resource.write keeps every employee
      within 100 % in every week, whatever it changes. */
  lemma WriteRecheckedKeepsInvariants(t: Tables, id: nat, c: Changes)
    requires Valid(t) && Find(t.resources, id).Some? && ChangesGiven(c)
    ensures var r := WriteRechecked(t, id, c);
      r.Ok? ==> Valid(r.value) && (Capacity(t) ==> Capacity(r.value)) && (Synced(t) ==> Synced(r.value))
  {
    var r := WriteRechecked(t, id, c);
    if r.Ok? {
      var old_ := Find(t.resources, id).value;
      var res := Rewritten(old_, c);
      WriteIs(t, id, c, true);
      RewriteValid(t, res, true);
      if Capacity(t) {
        RewriteCapacity(t, res, true);
      }
    }
  }
}
