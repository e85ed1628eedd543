/** Unlinking a resource or a week record, with the ondelete="cascade" of
    the weekly rows (weekly_resource.py:16-17): what is removed, what each
    employee's totals become, and the invariants kept. */
module LedgerDelete {
  import opened Outcomes
  import opened Calendar
  import opened LedgerModel
  import opened LedgerLoad
  import opened LedgerLookup

  // ---------------------------------------------------------------------
  // The filters

  lemma {:induction false} ResourcesWithoutFacts(rs: seq<Resource>, id: nat)
    ensures forall x :: x in ResourcesWithout(rs, id) <==> x in rs && x.id != id
    ensures UniqueIds(rs) ==> UniqueIds(ResourcesWithout(rs, id))
  {
    if rs != [] {
      var front := rs[..|rs| - 1];
      var last := rs[|rs| - 1];
      ResourcesWithoutFacts(front, id);
      assert rs == front + [last];
      var f := ResourcesWithout(front, id);
      if UniqueIds(rs) && last.id != id {
        assert UniqueIds(front) by {
          forall i, j | 0 <= i < j < |front| ensures front[i].id != front[j].id {
            assert front[i] == rs[i] && front[j] == rs[j];
          }
        }
        var g := f + [last];
        forall i, j | 0 <= i < j < |g| ensures g[i].id != g[j].id {
          if j == |f| {
            assert g[i] == f[i] && f[i] in front;
            var m :| 0 <= m < |front| && front[m] == f[i];
            assert rs[m] == f[i];
          } else {
            assert g[i] == f[i] && g[j] == f[j];
          }
        }
      }
    }
  }

  lemma {:induction false} WeeksWithoutFacts(weeks: seq<IsoWeek>, w: IsoWeek)
    ensures forall x :: x in WeeksWithout(weeks, w) <==> x in weeks && x != w
    ensures DistinctWeeks(weeks) ==> DistinctWeeks(WeeksWithout(weeks, w))
  {
    if weeks != [] {
      var front := weeks[..|weeks| - 1];
      var last := weeks[|weeks| - 1];
      WeeksWithoutFacts(front, w);
      assert weeks == front + [last];
      var f := WeeksWithout(front, w);
      if DistinctWeeks(weeks) && last != w {
        assert DistinctWeeks(front) by {
          forall i, j | 0 <= i < j < |front| ensures front[i] != front[j] {
            assert front[i] == weeks[i] && front[j] == weeks[j];
          }
        }
        var g := f + [last];
        forall i, j | 0 <= i < j < |g| ensures g[i] != g[j] {
          if j == |f| {
            assert g[i] == f[i] && f[i] in front;
            var m :| 0 <= m < |front| && front[m] == f[i];
            assert weeks[m] == f[i];
          } else {
            assert g[i] == f[i] && g[j] == f[j];
          }
        }
      }
    }
  }

  lemma {:induction false} RowsNotInFacts(rows: seq<Row>, w: IsoWeek)
    ensures forall x :: x in RowsNotIn(rows, w) <==> x in rows && x.week != w
    ensures OneRowPerWeek(rows) ==> OneRowPerWeek(RowsNotIn(rows, w))
  {
    if rows != [] {
      var front := rows[..|rows| - 1];
      var last := rows[|rows| - 1];
      RowsNotInFacts(front, w);
      assert rows == front + [last];
      var f := RowsNotIn(front, w);
      if OneRowPerWeek(rows) && last.week != w {
        assert OneRowPerWeek(front) by {
          forall i, j | 0 <= i < j < |front|
            ensures !(front[i].resource == front[j].resource && front[i].week == front[j].week)
          {
            assert front[i] == rows[i] && front[j] == rows[j];
          }
        }
        forall i | 0 <= i < |f| ensures !(f[i].resource == last.resource && f[i].week == last.week) {
          assert f[i] in front;
          var m :| 0 <= m < |front| && front[m] == f[i];
          assert rows[m] == f[i];
        }
        OneRowAppend(f, last);
      }
    }
  }

  /** Removing all rows of resource id is delete_spare_weekly_resources
      with no project week left. */
  lemma {:induction false} RowsNotOfIsDeleteSpare(rows: seq<Row>, id: nat)
    ensures RowsNotOf(rows, id) == DeleteSpare(rows, id, [])
  {
    if rows != [] {
      RowsNotOfIsDeleteSpare(rows[..|rows| - 1], id);
    }
  }

  lemma RowsNotOfFacts(rows: seq<Row>, id: nat)
    ensures forall x :: x in RowsNotOf(rows, id) <==> x in rows && x.resource != id
    ensures OneRowPerWeek(rows) ==> OneRowPerWeek(RowsNotOf(rows, id))
  {
    RowsNotOfElements(rows, id);
    forall x | x in rows && x.resource != id ensures x in RowsNotOf(rows, id) {
      RowsNotOfMember(rows, id, x);
    }
    RowsNotOfIsDeleteSpare(rows, id);
    if OneRowPerWeek(rows) {
      DeleteSpareOneRow(rows, id, []);
    }
  }

  /** With unique ids, removing resource id leaves every other lookup as
      it was. */
  lemma FindWithout(rs: seq<Resource>, id: nat, j: nat)
    requires UniqueIds(rs)
    ensures Find(ResourcesWithout(rs, id), j) == if j == id then None else Find(rs, j)
  {
    var w := ResourcesWithout(rs, id);
    ResourcesWithoutFacts(rs, id);
    if j != id && Find(rs, j).Some? {
      var x := Find(rs, j).value;
      var m :| 0 <= m < |w| && w[m] == x;
      FindAt(w, m);
    }
  }

  // ---------------------------------------------------------------------
  // Unlinking a resource

  /** Unlinking resource id removes it and all its rows, and nothing else:
      other resources and their rows are found as before, and each
      employee's total loses exactly the resource's share. */
  lemma DeleteResourceResult(t: Tables, id: nat)
    requires Valid(t)
    ensures var t' := DeleteResource(t, id);
      && Find(t'.resources, id).None?
      && (forall k :: 0 <= k < |t'.rows| ==> t'.rows[k].resource != id)
      && (forall j :: j != id ==> Find(t'.resources, j) == Find(t.resources, j))
      && (forall j, w :: j != id ==> RowOf(t'.rows, j, w) == RowOf(t.rows, j, w))
      && (forall e, w :: Load(t'.resources, t'.rows, e, w) ==
            Load(t.resources, t.rows, e, w) - if Owns(t.resources, id, e) then MineLoad(t.rows, id, w) else 0)
  {
    var t' := DeleteResource(t, id);
    forall j ensures Find(t'.resources, j) == if j == id then None else Find(t.resources, j) {
      FindWithout(t.resources, id, j);
    }
    RowsNotOfElements(t.rows, id);
    RowsNotOfIsDeleteSpare(t.rows, id);
    forall j, w | j != id ensures RowOf(t'.rows, j, w) == RowOf(t.rows, j, w) {
      RowOfDeleteSpare(t.rows, id, [], j, w);
    }
    forall e, w ensures Load(t'.resources, t'.rows, e, w) ==
      Load(t.resources, t.rows, e, w) - if Owns(t.resources, id, e) then MineLoad(t.rows, id, w) else 0
    {
      LoadDecompose(t.resources, t.rows, id, e, w);
      LoadSameOwners(t'.resources, t.resources, t'.rows, e, w);
    }
  }

  /** Unlinking a resource keeps the tables valid, keeps every employee
      within 100 % in every week, and keeps rows not changed by hand at
      their base workload. */
  lemma DeleteResourceKeeps(t: Tables, id: nat)
    requires Valid(t)
    ensures var t' := DeleteResource(t, id);
      Valid(t') && (Capacity(t) ==> Capacity(t')) && (Synced(t) ==> Synced(t'))
  {
    var t' := DeleteResource(t, id);
    DeleteResourceResult(t, id);
    ResourcesWithoutFacts(t.resources, id);
    RowsNotOfFacts(t.rows, id);
    forall k | 0 <= k < |t'.rows|
      ensures Find(t'.resources, t'.rows[k].resource).Some? && t'.rows[k].week in t'.weeks
        && 0 <= t'.rows[k].workload <= 100
      ensures BaseOf(t'.resources, t'.rows[k].resource) == BaseOf(t.resources, t'.rows[k].resource)
    {
      assert t'.rows[k] in t.rows;
    }
    forall k | 0 <= k < |t'.resources| ensures t'.resources[k].id < t.nextId && GoodResource(t'.resources[k]) {
      assert t'.resources[k] in t.resources;
    }
    if Capacity(t) {
      forall e, w ensures Load(t'.resources, t'.rows, e, w) <= 100 {
        MineLoadNonNegative(t.rows, id, w);
      }
    }
    if Synced(t) {
      forall k | 0 <= k < |t'.rows| && !t'.rows[k].manual
        ensures t'.rows[k].workload == BaseOf(t'.resources, t'.rows[k].resource)
      {
        assert t'.rows[k] in t.rows;
      }
    }
  }

  // ---------------------------------------------------------------------
  // Unlinking a week record

  lemma {:induction false} LoadRowsNotIn(rs: seq<Resource>, rows: seq<Row>, w: IsoWeek, e: int, w': IsoWeek)
    ensures Load(rs, RowsNotIn(rows, w), e, w') == if w' == w then 0 else Load(rs, rows, e, w')
  {
    if rows != [] {
      var front := rows[..|rows| - 1];
      var last := rows[|rows| - 1];
      LoadRowsNotIn(rs, front, w, e, w');
      if last.week != w {
        LoadAppend(rs, RowsNotIn(front, w), last, e, w');
      } else {
        assert RowsNotIn(rows, w) == RowsNotIn(front, w) + [];
        assert RowsNotIn(rows, w) == RowsNotIn(front, w);
      }
    }
  }

  /** Unlinking week record w removes it and every row of that week, and
      nothing else: every total of that week becomes 0 and every other
      total stays as it was. */
  lemma DeleteWeekResult(t: Tables, w: IsoWeek)
    ensures var t' := DeleteWeek(t, w);
      && (forall x :: x in t'.weeks <==> x in t.weeks && x != w)
      && (forall x :: x in t'.rows <==> x in t.rows && x.week != w)
      && (forall e, w' :: Load(t'.resources, t'.rows, e, w') == if w' == w then 0 else Load(t.resources, t.rows, e, w'))
  {
    WeeksWithoutFacts(t.weeks, w);
    RowsNotInFacts(t.rows, w);
    forall e, w' ensures Load(t.resources, RowsNotIn(t.rows, w), e, w') == if w' == w then 0 else Load(t.resources, t.rows, e, w') {
      LoadRowsNotIn(t.resources, t.rows, w, e, w');
    }
  }

  /** Unlinking a week record keeps the tables valid, keeps every employee
      within 100 % in every week, and keeps rows not changed by hand at
      their base workload. */
  lemma DeleteWeekKeeps(t: Tables, w: IsoWeek)
    requires Valid(t)
    ensures var t' := DeleteWeek(t, w);
      Valid(t') && (Capacity(t) ==> Capacity(t')) && (Synced(t) ==> Synced(t'))
  {
    var t' := DeleteWeek(t, w);
    DeleteWeekResult(t, w);
    WeeksWithoutFacts(t.weeks, w);
    RowsNotInFacts(t.rows, w);
    forall k | 0 <= k < |t'.rows|
      ensures Find(t'.resources, t'.rows[k].resource).Some? && t'.rows[k].week in t'.weeks
        && 0 <= t'.rows[k].workload <= 100
      ensures Synced(t) && !t'.rows[k].manual ==> t'.rows[k].workload == BaseOf(t'.resources, t'.rows[k].resource)
    {
      assert t'.rows[k] in t.rows;
    }
    if Capacity(t) {
      forall e, w' ensures Load(t'.resources, t'.rows, e, w') <= 100 {
        assert w' != w ==> Load(t.resources, t.rows, e, w') <= 100;
      }
    }
  }
}
