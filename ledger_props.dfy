/** What create_corresponding_models (resource.py:134-154) guarantees of
    the ledger: after it, a resource has exactly one row per project week
    (the base workload, or the hand-set one), the other resources' rows are
    untouched, and no employee is planned above 100 % in any week. */
module LedgerProps {
  import opened Outcomes
  import opened Calendar
  import opened WeekSpan
  import opened LedgerModel
  import opened LedgerLoad
  import opened LedgerLookup
  import opened LedgerReconcile

  /** The weeks of a span are distinct. */
  lemma SpanDistinct(s: int, e: int)
    requires s >= 1 && e >= 1
    ensures DistinctWeeks(Span(s, e))
  {
    var span := Span(s, e);
    forall i, j | 0 <= i < j < |span| ensures span[i] != span[j] {
      SpanIncreasing(s, e, i, j);
    }
  }

  /** The rows after reconciling resource res over the project weeks span,
      from the rows before: one row per resource and week, the other
      resources' rows as they were, and for res exactly one row per
      project week, holding its target row. */
  ghost predicate Reconciled(rows: seq<Row>, rows': seq<Row>, res: Resource, span: seq<IsoWeek>) {
    && OneRowPerWeek(rows')
    && RowsNotOf(rows', res.id) == RowsNotOf(rows, res.id)
    && (forall w :: RowOf(rows', res.id, w) == if w in span then Some(TargetRow(rows, res.id, w, res.base)) else None)
    && (forall id, w :: id != res.id ==> RowOf(rows', id, w) == RowOf(rows, id, w))
  }

  /** create_corresponding_models fails exactly when some project week's
      step fails, with the message of the first such week. */
  lemma ReconcileError(t: Tables, res: Resource, flag: bool)
    requires DatesValid(t.resources) && ValidDateTime(res.start) && ValidDateTime(res.end)
    requires Context(t.resources, t.rows, res)
    ensures var r := ReconcileWith(t, res, flag);
      var ff := FirstFailure(t.resources, t.rows, res, ProjectWeeks(res), flag);
      && (r.Err? <==> ff.Some?)
      && (r.Err? ==> r.msg == StepMsg(t.rows, res, ff.value))
  {
    SpanDistinct(res.start.day, res.end.day);
    AddMissingResult(t.resources, t.rows, res, ProjectWeeks(res), flag);
  }

  /** create_corresponding_models either fails at the first project week
      whose step fails, with that week's message, or succeeds with the week
      records upserted and the rows reconciled. */
  lemma ReconcileRows(t: Tables, res: Resource, flag: bool)
    requires DatesValid(t.resources) && ValidDateTime(res.start) && ValidDateTime(res.end)
    requires Context(t.resources, t.rows, res)
    ensures var r := ReconcileWith(t, res, flag);
      var ff := FirstFailure(t.resources, t.rows, res, ProjectWeeks(res), flag);
      && (r.Err? <==> ff.Some?)
      && (r.Err? ==> r.msg == StepMsg(t.rows, res, ff.value))
      && (r.Ok? ==>
            && r.value.resources == t.resources && r.value.nextId == t.nextId
            && r.value.weeks == Upsert(t.weeks, AllWeeks(t.resources, res))
            && Reconciled(t.rows, r.value.rows, res, ProjectWeeks(res)))
  {
    var span := ProjectWeeks(res);
    SpanDistinct(res.start.day, res.end.day);
    AddMissingResult(t.resources, t.rows, res, span, flag);
    if FirstFailure(t.resources, t.rows, res, span, flag).None? {
      var after := After(t.rows, res.id, span, res.base);
      var rows' := DeleteSpare(after, res.id, span);
      AfterOneRow(t.rows, res.id, span, res.base);
      DeleteSpareOneRow(after, res.id, span);
      RowsNotOfDeleteSpare(after, res.id, span);
      RowsNotOfAfter(t.rows, res.id, span, res.base);
      forall id, w ensures RowOf(rows', id, w) ==
        if id == res.id then (if w in span then Some(TargetRow(t.rows, res.id, w, res.base)) else None)
        else RowOf(t.rows, id, w)
      {
        RowOfDeleteSpare(after, res.id, span, id, w);
        AfterRowOf(t.rows, res.id, span, res.base, id, w);
      }
    }
  }

  /** With one row per resource and week, a resource's share of a week is
      the workload of its row there. */
  lemma MineLoadRowOf(rows: seq<Row>, id: nat, w: IsoWeek)
    requires OneRowPerWeek(rows)
    ensures MineLoad(rows, id, w) == if RowOf(rows, id, w).Some? then RowOf(rows, id, w).value.workload else 0
  {
    MineLoadUnique(rows, id, w);
  }

  /** The target row of a project week whose step passed (re-checking rows
      changed by hand) keeps the employee's total within 100. */
  lemma TargetWithinCapacity(rs: seq<Resource>, rows: seq<Row>, res: Resource, w: IsoWeek)
    requires StepOk(rs, rows, res, w, true)
    ensures Others(rs, rows, res.id, res.employee, w) + TargetRow(rows, res.id, w, res.base).workload <= 100
  {
  }

  /** One employee and week of a reconciled ledger whose steps all
      passed: the total is the others' share plus, for res's employee in a
      project week, the target row's workload. */
  lemma ReconciledLoad(rs: seq<Resource>, rows: seq<Row>, rows': seq<Row>, res: Resource, span: seq<IsoWeek>, e: int, w: IsoWeek)
    requires Find(rs, res.id) == Some(res) && Reconciled(rows, rows', res, span)
    requires forall v :: v in span ==> StepOk(rs, rows, res, v, true)
    requires Others(rs, rows, res.id, e, w) <= 100
    ensures Load(rs, rows', e, w) <= 100
  {
    LoadDecompose(rs, rows', res.id, e, w);
    if Owns(rs, res.id, e) {
      MineLoadRowOf(rows', res.id, w);
      if w in span {
        TargetWithinCapacity(rs, rows, res, w);
      }
    }
  }

  /** Every row of res changed by hand fits the employee's total with the
      other resources' rows. */
  ghost predicate HandSetFit(rs: seq<Resource>, rows: seq<Row>, res: Resource) {
    forall w :: TargetRow(rows, res.id, w, res.base).manual ==>
      Others(rs, rows, res.id, res.employee, w) + TargetRow(rows, res.id, w, res.base).workload <= 100
  }

  /** Where the hand-set rows fit, the re-check of them changes no step. */
  lemma StepOkRecheck(rs: seq<Resource>, rows: seq<Row>, res: Resource, w: IsoWeek)
    requires HandSetFit(rs, rows, res)
    ensures StepOk(rs, rows, res, w, false) <==> StepOk(rs, rows, res, w, true)
  {
    assert TargetRow(rows, res.id, w, res.base).manual ==>
      Others(rs, rows, res.id, res.employee, w) + TargetRow(rows, res.id, w, res.base).workload <= 100;
  }

  /** When the other resources' rows keep every employee within 100 % in
      every week, so does the reconciled ledger: each project week's row was
      checked against the employee's total, or is a hand-set row that fits
      it (as resource.py does not check those). */
  lemma ReconcileCapacity(t: Tables, res: Resource, flag: bool)
    requires DatesValid(t.resources) && ValidDateTime(res.start) && ValidDateTime(res.end)
    requires Context(t.resources, t.rows, res)
    requires forall e, w :: Others(t.resources, t.rows, res.id, e, w) <= 100
    requires flag || HandSetFit(t.resources, t.rows, res)
    ensures ReconcileWith(t, res, flag).Ok? ==> Capacity(ReconcileWith(t, res, flag).value)
  {
    var r := ReconcileWith(t, res, flag);
    if r.Ok? {
      var span := ProjectWeeks(res);
      ReconcileRows(t, res, flag);
      forall v | v in span ensures StepOk(t.resources, t.rows, res, v, true) {
        if !flag {
          StepOkRecheck(t.resources, t.rows, res, v);
        }
      }
      var rows' := r.value.rows;
      forall e, w ensures Load(t.resources, rows', e, w) <= 100 {
        ReconciledLoad(t.resources, t.rows, rows', res, span, e, w);
      }
    }
  }

  /** Where the hand-set rows of res fit, create_corresponding_models as
      written and with the re-check end alike. */
  lemma RecheckAgrees(t: Tables, res: Resource)
    requires DatesValid(t.resources) && ValidDateTime(res.start) && ValidDateTime(res.end)
    requires Context(t.resources, t.rows, res) && HandSetFit(t.resources, t.rows, res)
    ensures Reconcile(t, res) == ReconcileRechecked(t, res)
  {
    var span := ProjectWeeks(res);
    forall w | w in span ensures StepOk(t.resources, t.rows, res, w, false) <==> StepOk(t.resources, t.rows, res, w, true) {
      StepOkRecheck(t.resources, t.rows, res, w);
    }
    FirstFailureAgrees(t.resources, t.rows, res, span);
    SpanDistinct(res.start.day, res.end.day);
    AddMissingResult(t.resources, t.rows, res, span, false);
    AddMissingResult(t.resources, t.rows, res, span, true);
  }
}
