/** What add_missing_weekly_resources and delete_spare_weekly_resources
    (resource.py:156-198) do to the row table, stated on the rows they
    start from: which rows are re-synced, which are created, when the run
    fails and with which message. */
module LedgerReconcile {
  import opened Outcomes
  import opened Calendar
  import opened LedgerModel
  import opened LedgerLoad
  import opened LedgerLookup

  /** A row of resource id in one of the weeks done, not changed by hand,
      after it has been re-synced to the base workload. */
  function ResyncRow(row: Row, id: nat, done: seq<IsoWeek>, base: int): Row {
    if row.resource == id && row.week in done && !row.manual then Row(id, row.week, base, false) else row
  }

  /** The stored rows after the weeks done: every row of the resource in
      those weeks not changed by hand holds the base workload. */
  function Resynced(rows: seq<Row>, id: nat, done: seq<IsoWeek>, base: int): (r: seq<Row>)
    ensures |r| == |rows| && forall k :: 0 <= k < |rows| ==> r[k] == ResyncRow(rows[k], id, done, base)
  {
    seq(|rows|, k requires 0 <= k < |rows| => ResyncRow(rows[k], id, done, base))
  }

  /** The rows created for the weeks done that had none, in order. */
  function Missing(rows: seq<Row>, id: nat, done: seq<IsoWeek>, base: int): seq<Row> {
    if done == [] then []
    else
      var w := done[|done| - 1];
      Missing(rows, id, done[..|done| - 1], base) + (if FindRow(rows, id, w).None? then [Row(id, w, base, false)] else [])
  }

  /** The other resources' share of employee e's total in week w. */
  function Others(rs: seq<Resource>, rows: seq<Row>, id: nat, e: int, w: IsoWeek): int {
    Load(rs, RowsNotOf(rows, id), e, w)
  }

  /** The step for week w passes: the employee's total with the row the
      step leaves (the base workload, or the hand-set one) is at most 100. */
  predicate StepOk(rs: seq<Resource>, rows: seq<Row>, res: Resource, w: IsoWeek, recheckManual: bool) {
    var others := Others(rs, rows, res.id, res.employee, w);
    match FindRow(rows, res.id, w)
    case Some(k) =>
      if !rows[k].manual then others + res.base <= 100
      else !recheckManual || others + rows[k].workload <= 100
    case None => others + res.base <= 100
  }

  /** The message of a failing step: the constraint of an existing row
      (weekly_resource.py:35) ends with a full stop, the check before a
      creation (resource.py:176) does not. */
  function StepMsg(rows: seq<Row>, res: Resource, w: IsoWeek): string {
    "The workload in week " + WeekStringOf(w)
      + if FindRow(rows, res.id, w).Some? then " is too high." else " is too high"
  }

  /** The setting the reconciliation runs in: res is stored, its base and
      the rows' workloads passed their checks, one row per resource and
      week. */
  predicate Context(rs: seq<Resource>, rows: seq<Row>, res: Resource) {
    Find(rs, res.id) == Some(res) && 0 <= res.base <= 100 && OneRowPerWeek(rows)
    && forall k :: 0 <= k < |rows| ==> 0 <= rows[k].workload <= 100
  }

  // ---------------------------------------------------------------------
  // The intermediate row tables

  lemma {:induction false} MissingFacts(rows: seq<Row>, id: nat, done: seq<IsoWeek>, base: int)
    ensures forall k :: 0 <= k < |Missing(rows, id, done, base)| ==>
      var m := Missing(rows, id, done, base)[k];
      m.resource == id && m.week in done && m.workload == base && !m.manual
      && FindRow(rows, id, m.week).None?
  {
    if done != [] {
      var front := done[..|done| - 1];
      MissingFacts(rows, id, front, base);
      var m := Missing(rows, id, done, base);
      forall k | 0 <= k < |m|
        ensures m[k].resource == id && m[k].week in done && m[k].workload == base && !m[k].manual
          && FindRow(rows, id, m[k].week).None?
      {
        if k < |Missing(rows, id, front, base)| {
          assert m[k] == Missing(rows, id, front, base)[k];
          assert m[k].week in front;
        }
      }
    }
  }

  /** The row resource id has in week w once the week is done: the base
      workload, unless the stored row was changed by hand. */
  function TargetRow(rows: seq<Row>, id: nat, w: IsoWeek, base: int): Row {
    match FindRow(rows, id, w)
    case Some(k) => if rows[k].manual then rows[k] else Row(id, w, base, false)
    case None => Row(id, w, base, false)
  }

  /** The row table after the weeks done. */
  function After(rows: seq<Row>, id: nat, done: seq<IsoWeek>, base: int): seq<Row> {
    Resynced(rows, id, done, base) + Missing(rows, id, done, base)
  }

  lemma AfterShape(rows: seq<Row>, id: nat, done: seq<IsoWeek>, base: int, k: int)
    requires 0 <= k < |After(rows, id, done, base)|
    ensures var s := After(rows, id, done, base);
      if k < |rows| then (s[k] == ResyncRow(rows[k], id, done, base)
        && s[k].resource == rows[k].resource && s[k].week == rows[k].week)
      else (s[k].resource == id && s[k].week in done && s[k].workload == base && !s[k].manual
        && FindRow(rows, id, s[k].week).None?)
  {
    if k >= |rows| {
      MissingFacts(rows, id, done, base);
      assert After(rows, id, done, base)[k] == Missing(rows, id, done, base)[k - |rows|];
    }
  }

  /** For a week not done yet, the row of the resource is where it was. */
  lemma FindRowAfter(rows: seq<Row>, id: nat, done: seq<IsoWeek>, base: int, w: IsoWeek)
    requires w !in done
    ensures FindRow(After(rows, id, done, base), id, w) == FindRow(rows, id, w)
  {
    var s := After(rows, id, done, base);
    forall k | 0 <= k < |s| ensures (s[k].resource == id && s[k].week == w) <==> (k < |rows| && rows[k].resource == id && rows[k].week == w) {
      AfterShape(rows, id, done, base, k);
    }
    match FindRow(rows, id, w)
    case Some(k) =>
      var r := FindRow(s, id, w);
      assert r.Some?;
    case None =>
  }

  lemma {:induction false} RowsNotOfResynced(rows: seq<Row>, id: nat, done: seq<IsoWeek>, base: int)
    ensures RowsNotOf(Resynced(rows, id, done, base), id) == RowsNotOf(rows, id)
  {
    if rows != [] {
      var n := |rows|;
      assert Resynced(rows, id, done, base)[..n - 1] == Resynced(rows[..n - 1], id, done, base);
      RowsNotOfResynced(rows[..n - 1], id, done, base);
    }
  }

  lemma {:induction false} RowsNotOfConcat(a: seq<Row>, b: seq<Row>, id: nat)
    ensures RowsNotOf(a + b, id) == RowsNotOf(a, id) + RowsNotOf(b, id)
    decreases |b|
  {
    if b == [] {
      assert a + b == a;
    } else {
      var n := |b|;
      assert (a + b)[..|a + b| - 1] == a + b[..n - 1];
      RowsNotOfConcat(a, b[..n - 1], id);
    }
  }

  lemma {:induction false} RowsNotOfNone(rows: seq<Row>, id: nat)
    requires forall k :: 0 <= k < |rows| ==> rows[k].resource == id
    ensures RowsNotOf(rows, id) == []
  {
    if rows != [] {
      RowsNotOfNone(rows[..|rows| - 1], id);
    }
  }

  lemma RowsNotOfAfter(rows: seq<Row>, id: nat, done: seq<IsoWeek>, base: int)
    ensures RowsNotOf(After(rows, id, done, base), id) == RowsNotOf(rows, id)
  {
    RowsNotOfConcat(Resynced(rows, id, done, base), Missing(rows, id, done, base), id);
    RowsNotOfResynced(rows, id, done, base);
    MissingFacts(rows, id, done, base);
    RowsNotOfNone(Missing(rows, id, done, base), id);
  }

  lemma {:induction false} MineLoadConcat(a: seq<Row>, b: seq<Row>, id: nat, w: IsoWeek)
    ensures MineLoad(a + b, id, w) == MineLoad(a, id, w) + MineLoad(b, id, w)
    decreases |b|
  {
    if b == [] {
      assert a + b == a;
    } else {
      var n := |b|;
      assert (a + b)[..|a + b| - 1] == a + b[..n - 1];
      MineLoadConcat(a, b[..n - 1], id, w);
    }
  }

  lemma {:induction false} MineLoadResynced(rows: seq<Row>, id: nat, done: seq<IsoWeek>, base: int, w: IsoWeek)
    requires w !in done
    ensures MineLoad(Resynced(rows, id, done, base), id, w) == MineLoad(rows, id, w)
  {
    if rows != [] {
      var n := |rows|;
      assert Resynced(rows, id, done, base)[..n - 1] == Resynced(rows[..n - 1], id, done, base);
      MineLoadResynced(rows[..n - 1], id, done, base, w);
    }
  }

  lemma MineLoadAfter(rows: seq<Row>, id: nat, done: seq<IsoWeek>, base: int, w: IsoWeek)
    requires w !in done
    ensures MineLoad(After(rows, id, done, base), id, w) == MineLoad(rows, id, w)
  {
    MineLoadConcat(Resynced(rows, id, done, base), Missing(rows, id, done, base), id, w);
    MineLoadResynced(rows, id, done, base, w);
    MissingFacts(rows, id, done, base);
    MineLoadNone(Missing(rows, id, done, base), id, w);
  }

  lemma {:induction false} MineLoadUpdate(rows: seq<Row>, i: int, row: Row, id: nat, w: IsoWeek)
    requires 0 <= i < |rows|
    ensures MineLoad(rows[i := row], id, w) == MineLoad(rows, id, w)
      - (if rows[i].resource == id && rows[i].week == w then rows[i].workload else 0)
      + (if row.resource == id && row.week == w then row.workload else 0)
  {
    var n := |rows|;
    if i < n - 1 {
      assert rows[i := row][..n - 1] == rows[..n - 1][i := row];
      MineLoadUpdate(rows[..n - 1], i, row, id, w);
    } else {
      assert rows[i := row][..n - 1] == rows[..n - 1];
    }
  }

  lemma {:induction false} RowsNotOfUpdate(rows: seq<Row>, i: int, row: Row, id: nat)
    requires 0 <= i < |rows| && rows[i].resource == id && row.resource == id
    ensures RowsNotOf(rows[i := row], id) == RowsNotOf(rows, id)
  {
    var n := |rows|;
    if i < n - 1 {
      assert rows[i := row][..n - 1] == rows[..n - 1][i := row];
      RowsNotOfUpdate(rows[..n - 1], i, row, id);
    } else {
      assert rows[i := row][..n - 1] == rows[..n - 1];
    }
  }

  /** The total of the resource's employee in a week not done yet. */
  lemma LoadAfter(rs: seq<Resource>, rows: seq<Row>, res: Resource, done: seq<IsoWeek>, w: IsoWeek)
    requires Context(rs, rows, res) && w !in done
    ensures Load(rs, After(rows, res.id, done, res.base), res.employee, w)
      == Others(rs, rows, res.id, res.employee, w) + MineLoad(rows, res.id, w)
  {
    var s := After(rows, res.id, done, res.base);
    LoadDecompose(rs, s, res.id, res.employee, w);
    RowsNotOfAfter(rows, res.id, done, res.base);
    MineLoadAfter(rows, res.id, done, res.base, w);
  }

  // ---------------------------------------------------------------------
  // One step

  lemma ResyncedStep(rows: seq<Row>, id: nat, done: seq<IsoWeek>, base: int, w: IsoWeek, k: int)
    requires OneRowPerWeek(rows) && w !in done
    requires FindRow(rows, id, w) == Some(k)
    ensures Resynced(rows, id, done + [w], base)
      == Resynced(rows, id, done, base)[k := ResyncRow(rows[k], id, done + [w], base)]
  {
    var a := Resynced(rows, id, done + [w], base);
    var b := Resynced(rows, id, done, base)[k := ResyncRow(rows[k], id, done + [w], base)];
    forall j | 0 <= j < |rows| ensures a[j] == b[j] {
      if j != k {
        OnlyRow(rows, id, w, k, j);
        assert rows[j].week in done + [w] <==> rows[j].week in done || rows[j].week == w;
      }
    }
  }

  /** With one row per resource and week, row k is the only one of its
      resource and week. */
  lemma OnlyRow(rows: seq<Row>, id: nat, w: IsoWeek, k: int, j: int)
    requires OneRowPerWeek(rows) && 0 <= k < |rows| && 0 <= j < |rows| && j != k
    requires rows[k].resource == id && rows[k].week == w
    ensures !(rows[j].resource == id && rows[j].week == w)
  {
    if j < k {
      assert !(rows[j].resource == rows[k].resource && rows[j].week == rows[k].week);
    } else {
      assert !(rows[k].resource == rows[j].resource && rows[k].week == rows[j].week);
    }
  }

  lemma ResyncedNoRow(rows: seq<Row>, id: nat, done: seq<IsoWeek>, base: int, w: IsoWeek)
    requires FindRow(rows, id, w).None?
    ensures Resynced(rows, id, done + [w], base) == Resynced(rows, id, done, base)
  {
    var a := Resynced(rows, id, done + [w], base);
    var b := Resynced(rows, id, done, base);
    forall j | 0 <= j < |rows| ensures a[j] == b[j] {
      assert rows[j].week in done + [w] <==> rows[j].week in done || rows[j].week == w;
    }
  }

  lemma MissingStep(rows: seq<Row>, id: nat, done: seq<IsoWeek>, base: int, w: IsoWeek)
    ensures Missing(rows, id, done + [w], base) == Missing(rows, id, done, base)
      + (if FindRow(rows, id, w).None? then [Row(id, w, base, false)] else [])
  {
    assert (done + [w])[..|done|] == done;
  }

  /** The weeks done plus w, where the resource has row k: row k is
      re-synced unless it was changed by hand. */
  lemma AfterStepSome(rows: seq<Row>, id: nat, done: seq<IsoWeek>, base: int, w: IsoWeek, k: nat)
    requires OneRowPerWeek(rows) && w !in done && FindRow(rows, id, w) == Some(k)
    ensures k < |After(rows, id, done, base)| && After(rows, id, done, base)[k] == rows[k]
    ensures After(rows, id, done + [w], base)
      == After(rows, id, done, base)[k := TargetRow(rows, id, w, base)]
  {
    var a := Resynced(rows, id, done, base);
    var m := Missing(rows, id, done, base);
    ResyncedStep(rows, id, done, base, w, k);
    MissingStep(rows, id, done, base, w);
    assert a[k] == rows[k];
    assert ResyncRow(rows[k], id, done + [w], base) == TargetRow(rows, id, w, base);
    UpdateLeft(a, m, k, TargetRow(rows, id, w, base));
  }

  lemma UpdateLeft<T>(a: seq<T>, b: seq<T>, k: nat, x: T)
    requires k < |a|
    ensures (a + b)[k := x] == a[k := x] + b
  {
  }

  /** The weeks done plus w, where the resource has no row: one is created. */
  lemma AfterStepNone(rows: seq<Row>, id: nat, done: seq<IsoWeek>, base: int, w: IsoWeek)
    requires FindRow(rows, id, w).None?
    ensures After(rows, id, done + [w], base) == After(rows, id, done, base) + [TargetRow(rows, id, w, base)]
  {
    ResyncedNoRow(rows, id, done, base, w);
    MissingStep(rows, id, done, base, w);
    var a := Resynced(rows, id, done, base);
    var m := Missing(rows, id, done, base);
    assert After(rows, id, done + [w], base) == a + (m + [TargetRow(rows, id, w, base)]);
  }

  lemma AfterNothing(rows: seq<Row>, id: nat, base: int)
    ensures After(rows, id, [], base) == rows
  {
    assert Resynced(rows, id, [], base) == rows;
  }

  /** AddStep on a row table where the resource has row k in week w and the
      other rows of the employee's week sum to others. */
  lemma AddStepExisting(rs: seq<Resource>, s: seq<Row>, res: Resource, w: IsoWeek, flag: bool, k: nat, others: int)
    requires Find(rs, res.id) == Some(res) && 0 <= res.base <= 100
    requires FindRow(s, res.id, w) == Some(k) && 0 <= s[k].workload <= 100
    requires Load(rs, s, res.employee, w) == others + s[k].workload
    ensures AddStep(rs, s, res, w, flag) ==
      if !s[k].manual then
        (if others + res.base <= 100 then Ok(s[k := Row(res.id, w, res.base, false)])
         else Err("The workload in week " + WeekStringOf(w) + " is too high."))
      else if flag && others + s[k].workload > 100 then Err("The workload in week " + WeekStringOf(w) + " is too high.")
      else Ok(s)
  {
    if !s[k].manual {
      var row' := Row(res.id, w, res.base, false);
      assert BaseOf(rs, res.id) == res.base;
      LoadUpdate(rs, s, k, row', res.employee, w);
    }
  }

  /** AddStep on a row table where the resource has no row in week w. */
  lemma AddStepMissing(rs: seq<Resource>, s: seq<Row>, res: Resource, w: IsoWeek, flag: bool, others: int)
    requires FindRow(s, res.id, w).None? && Load(rs, s, res.employee, w) == others
    ensures AddStep(rs, s, res, w, flag) ==
      if others + res.base > 100 then Err("The workload in week " + WeekStringOf(w) + " is too high")
      else Ok(s + [Row(res.id, w, res.base, false)])
  {
  }

  /** One step of add_missing_weekly_resources from the rows after the
      weeks done: it passes exactly when StepOk holds, fails with StepMsg,
      and ends in the rows after one more week. */
  lemma StepFacts(rs: seq<Resource>, rows: seq<Row>, res: Resource, done: seq<IsoWeek>, w: IsoWeek, flag: bool)
    requires Context(rs, rows, res) && w !in done
    ensures var step := AddStep(rs, After(rows, res.id, done, res.base), res, w, flag);
      && (step.Ok? <==> StepOk(rs, rows, res, w, flag))
      && (step.Ok? ==> step.value == After(rows, res.id, done + [w], res.base))
      && (step.Err? ==> step.msg == StepMsg(rows, res, w))
  {
    var s := After(rows, res.id, done, res.base);
    FindRowAfter(rows, res.id, done, res.base, w);
    LoadAfter(rs, rows, res, done, w);
    MineLoadUnique(rows, res.id, w);
    var others := Others(rs, rows, res.id, res.employee, w);
    match FindRow(rows, res.id, w)
    case Some(k) =>
      AfterStepSome(rows, res.id, done, res.base, w, k);
      AddStepExisting(rs, s, res, w, flag, k, others);
    case None =>
      AfterStepNone(rows, res.id, done, res.base, w);
      AddStepMissing(rs, s, res, w, flag, others);
  }

  // ---------------------------------------------------------------------
  // The whole run

  /** The first project week whose step fails, if any. */
  function FirstFailure(rs: seq<Resource>, rows: seq<Row>, res: Resource, span: seq<IsoWeek>, flag: bool): (r: Option<IsoWeek>)
    ensures r.Some? ==> r.value in span && !StepOk(rs, rows, res, r.value, flag)
    ensures r.None? <==> forall w :: w in span ==> StepOk(rs, rows, res, w, flag)
  {
    if span == [] then None
    else if !StepOk(rs, rows, res, span[0], flag) then Some(span[0])
    else
      assert forall w :: w in span ==> w == span[0] || w in span[1..];
      FirstFailure(rs, rows, res, span[1..], flag)
  }

  /** The week FirstFailure reports is the first failing one: every
      project week before it passes. */
  lemma {:induction false} FirstFailureFirst(rs: seq<Resource>, rows: seq<Row>, res: Resource, span: seq<IsoWeek>, flag: bool)
    ensures var ff := FirstFailure(rs, rows, res, span, flag);
      ff.Some? ==>
        exists i :: 0 <= i < |span| && span[i] == ff.value
          && forall j :: 0 <= j < i ==> StepOk(rs, rows, res, span[j], flag)
  {
    if span != [] && StepOk(rs, rows, res, span[0], flag) {
      var ff := FirstFailure(rs, rows, res, span[1..], flag);
      FirstFailureFirst(rs, rows, res, span[1..], flag);
      if ff.Some? {
        var i :| 0 <= i < |span[1..]| && span[1..][i] == ff.value
          && forall j :: 0 <= j < i ==> StepOk(rs, rows, res, span[1..][j], flag);
        assert span[i + 1] == ff.value;
        forall j | 0 <= j < i + 1 ensures StepOk(rs, rows, res, span[j], flag) {
          if j > 0 {
            assert span[j] == span[1..][j - 1];
          }
        }
      }
    } else if span != [] {
      assert span[0] == FirstFailure(rs, rows, res, span, flag).value;
    }
  }

  /** Where every project week's step passes or fails alike with and
      without the re-check, so does the first failure. */
  lemma {:induction false} FirstFailureAgrees(rs: seq<Resource>, rows: seq<Row>, res: Resource, span: seq<IsoWeek>)
    requires forall w :: w in span ==> (StepOk(rs, rows, res, w, false) <==> StepOk(rs, rows, res, w, true))
    ensures FirstFailure(rs, rows, res, span, false) == FirstFailure(rs, rows, res, span, true)
  {
    if span != [] {
      assert span[0] in span;
      assert forall w :: w in span[1..] ==> w in span;
      FirstFailureAgrees(rs, rows, res, span[1..]);
    }
  }

  lemma DistinctSplit(done: seq<IsoWeek>, rest: seq<IsoWeek>)
    requires DistinctWeeks(done + rest) && rest != []
    ensures rest[0] !in done && (done + [rest[0]]) + rest[1..] == done + rest
  {
    var all := done + rest;
    forall i | 0 <= i < |done| ensures done[i] != rest[0] {
      assert all[i] == done[i] && all[|done|] == rest[0];
    }
    assert (done + [rest[0]]) + rest[1..] == all;
  }

  lemma DistinctPrefix(done: seq<IsoWeek>, w: IsoWeek)
    requires DistinctWeeks(done + [w])
    ensures DistinctWeeks(done) && w !in done
  {
    DistinctSplit(done, [w]);
    forall i, j | 0 <= i < j < |done| ensures done[i] != done[j] {
      assert (done + [w])[i] == done[i] && (done + [w])[j] == done[j];
    }
  }

  /** add_missing_weekly_resources from the rows after the weeks done, over
      the remaining project weeks. */
  lemma {:induction false} AddMissingFrom(rs: seq<Resource>, rows: seq<Row>, res: Resource, done: seq<IsoWeek>, rest: seq<IsoWeek>, flag: bool)
    requires Context(rs, rows, res) && DistinctWeeks(done + rest)
    ensures AddMissing(rs, After(rows, res.id, done, res.base), res, rest, flag)
      == match FirstFailure(rs, rows, res, rest, flag)
         case None => Ok(After(rows, res.id, done + rest, res.base))
         case Some(w) => Err(StepMsg(rows, res, w))
    decreases |rest|
  {
    if rest == [] {
      assert done + rest == done;
    } else {
      var w := rest[0];
      DistinctSplit(done, rest);
      var s := After(rows, res.id, done, res.base);
      StepFacts(rs, rows, res, done, w, flag);
      var step := AddStep(rs, s, res, w, flag);
      if StepOk(rs, rows, res, w, flag) {
        assert AddMissing(rs, s, res, rest, flag) == AddMissing(rs, step.value, res, rest[1..], flag);
        AddMissingFrom(rs, rows, res, done + [w], rest[1..], flag);
        assert FirstFailure(rs, rows, res, rest, flag) == FirstFailure(rs, rows, res, rest[1..], flag);
      } else {
        assert AddMissing(rs, s, res, rest, flag) == Err(step.msg);
        assert FirstFailure(rs, rows, res, rest, flag) == Some(w);
      }
    }
  }

  /** add_missing_weekly_resources over distinct project weeks fails at the
      first week whose step fails, with that week's message; otherwise
      it yields the rows after all the weeks. */
  lemma AddMissingResult(rs: seq<Resource>, rows: seq<Row>, res: Resource, span: seq<IsoWeek>, flag: bool)
    requires Context(rs, rows, res) && DistinctWeeks(span)
    ensures AddMissing(rs, rows, res, span, flag)
      == match FirstFailure(rs, rows, res, span, flag)
         case None => Ok(After(rows, res.id, span, res.base))
         case Some(w) => Err(StepMsg(rows, res, w))
  {
    AfterNothing(rows, res.id, res.base);
    assert [] + span == span;
    AddMissingFrom(rs, rows, res, [], span, flag);
  }

  /** After the project weeks, one row per resource and week is kept. */
  lemma {:induction false} AfterOneRow(rows: seq<Row>, id: nat, span: seq<IsoWeek>, base: int)
    requires OneRowPerWeek(rows) && DistinctWeeks(span)
    ensures OneRowPerWeek(After(rows, id, span, base))
    decreases |span|
  {
    if span == [] {
      AfterNothing(rows, id, base);
    } else {
      var n := |span|;
      var done, v := span[..n - 1], span[n - 1];
      assert span == done + [v];
      DistinctPrefix(done, v);
      AfterOneRow(rows, id, done, base);
      FindRowAfter(rows, id, done, base, v);
      match FindRow(rows, id, v)
      case Some(k) =>
        AfterStepSome(rows, id, done, base, v, k);
        OneRowUpdate(After(rows, id, done, base), k, TargetRow(rows, id, v, base));
      case None =>
        AfterStepNone(rows, id, done, base, v);
        OneRowAppend(After(rows, id, done, base), TargetRow(rows, id, v, base));
    }
  }

  /** After the project weeks, the resource's row of a project week is its
      target row, and every other lookup is as before. */
  lemma {:induction false} AfterRowOf(rows: seq<Row>, id: nat, span: seq<IsoWeek>, base: int, id': nat, w: IsoWeek)
    requires OneRowPerWeek(rows) && DistinctWeeks(span)
    ensures RowOf(After(rows, id, span, base), id', w)
      == if id' == id && w in span then Some(TargetRow(rows, id, w, base)) else RowOf(rows, id', w)
    decreases |span|
  {
    if span == [] {
      AfterNothing(rows, id, base);
    } else {
      var n := |span|;
      var done, v := span[..n - 1], span[n - 1];
      assert span == done + [v];
      DistinctPrefix(done, v);
      AfterRowOf(rows, id, done, base, id', w);
      FindRowAfter(rows, id, done, base, v);
      var s := After(rows, id, done, base);
      var target := TargetRow(rows, id, v, base);
      match FindRow(rows, id, v)
      case Some(k) =>
        AfterStepSome(rows, id, done, base, v, k);
        RowOfUpdate(s, k, target, id', w);
      case None =>
        AfterStepNone(rows, id, done, base, v);
        RowOfAppend(s, target, id', w);
    }
  }
}
