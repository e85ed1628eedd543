/** compute_total_workload (employee.py:15-28): the employee's total of a
    week, summed resource by resource as the nested loop does, and its
    agreement with the row-by-row total Load the rest of the model uses. */
module EmployeeTotal {
  import opened Calendar
  import opened LedgerModel
  import opened LedgerLoad

  /** The total as employee.py:23-26 sums it: for each of the employee's
      resources in order, the workloads of its rows of week w. */
  function ByResource(rs: seq<Resource>, rows: seq<Row>, e: int, w: IsoWeek): int {
    if rs == [] then 0
    else
      var r := rs[|rs| - 1];
      ByResource(rs[..|rs| - 1], rows, e, w) + (if r.employee == e then MineLoad(rows, r.id, w) else 0)
  }

  /** Dropping another resource's rows leaves a resource's share of a week
      as it was. */
  lemma {:induction false} MineLoadRowsNotOf(rows: seq<Row>, id: nat, j: nat, w: IsoWeek)
    requires j != id
    ensures MineLoad(RowsNotOf(rows, id), j, w) == MineLoad(rows, j, w)
  {
    if rows != [] {
      var front := rows[..|rows| - 1];
      var row := rows[|rows| - 1];
      MineLoadRowsNotOf(front, id, j, w);
      if row.resource == id {
        assert RowsNotOf(rows, id) == RowsNotOf(front, id) + [];
        assert RowsNotOf(rows, id) == RowsNotOf(front, id);
      } else {
        var f := RowsNotOf(front, id);
        assert (f + [row])[..|f|] == f;
      }
    }
  }

  /** Resources other than id sum the same over the rows with and without
      resource id's rows. */
  lemma {:induction false} ByResourceRowsNotOf(rs: seq<Resource>, rows: seq<Row>, id: nat, e: int, w: IsoWeek)
    requires forall k :: 0 <= k < |rs| ==> rs[k].id != id
    ensures ByResource(rs, RowsNotOf(rows, id), e, w) == ByResource(rs, rows, e, w)
  {
    if rs != [] {
      var r := rs[|rs| - 1];
      ByResourceRowsNotOf(rs[..|rs| - 1], rows, id, e, w);
      MineLoadRowsNotOf(rows, id, r.id, w);
    }
  }

  /** With unique resource ids the resource-by-resource sum is the
      employee's total Load: each row counts once, for the one resource it
      belongs to, and only when that resource is the employee's. */
  lemma {:induction false} ByResourceIsLoad(rs: seq<Resource>, rows: seq<Row>, e: int, w: IsoWeek)
    requires UniqueIds(rs)
    ensures ByResource(rs, rows, e, w) == Load(rs, rows, e, w)
    decreases |rs|
  {
    if rs == [] {
      NothingToCount(rs, rows, e, w);
    } else {
      var front := rs[..|rs| - 1];
      var r := rs[|rs| - 1];
      assert rs == front + [r];
      assert UniqueIds(front) by {
        forall i, j | 0 <= i < j < |front| ensures front[i].id != front[j].id {
          assert front[i] == rs[i] && front[j] == rs[j];
        }
      }
      forall k | 0 <= k < |front| ensures front[k].id != r.id {
        assert front[k] == rs[k];
      }
      var others := RowsNotOf(rows, r.id);
      LoadDecompose(rs, rows, r.id, e, w);
      FindAt(rs, |rs| - 1);
      RowsNotOfElements(rows, r.id);
      forall k | 0 <= k < |others| ensures Find(rs, others[k].resource) == Find(front, others[k].resource) {
        FindAppendOther(front, r, others[k].resource);
      }
      LoadSameOwners(rs, front, others, e, w);
      ByResourceIsLoad(front, others, e, w);
      ByResourceRowsNotOf(front, rows, r.id, e, w);
    }
  }

  /** The total is 0 when no row of week w belongs to a resource of the
      employee: an employee without resources, or without rows in that week
      (employee.py:22, 28). */
  lemma {:induction false} NothingToCount(rs: seq<Resource>, rows: seq<Row>, e: int, w: IsoWeek)
    requires forall k :: 0 <= k < |rows| ==> rows[k].week != w || !Owns(rs, rows[k].resource, e)
    ensures Load(rs, rows, e, w) == 0
  {
    if rows != [] {
      NothingToCount(rs, rows[..|rows| - 1], e, w);
    }
  }
}
