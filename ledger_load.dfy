/** Algebra of an employee's weekly total (employee.py:15-28) over the row
    table: how it changes when rows are appended, rewritten or filtered, and
    how it splits into one resource's rows and the others'. */
module LedgerLoad {
  import opened Outcomes
  import opened Calendar
  import opened LedgerModel

  lemma LoadAppend(rs: seq<Resource>, rows: seq<Row>, row: Row, e: int, w: IsoWeek)
    ensures Load(rs, rows + [row], e, w) == Load(rs, rows, e, w) + Contribution(rs, row, e, w)
  {
    assert (rows + [row])[..|rows|] == rows;
  }

  lemma LoadSingle(rs: seq<Resource>, row: Row, e: int, w: IsoWeek)
    ensures Load(rs, [row], e, w) == Contribution(rs, row, e, w)
  {
    LoadAppend(rs, [], row, e, w);
    assert [] + [row] == [row];
  }

  lemma {:induction false} LoadConcat(rs: seq<Resource>, a: seq<Row>, b: seq<Row>, e: int, w: IsoWeek)
    ensures Load(rs, a + b, e, w) == Load(rs, a, e, w) + Load(rs, b, e, w)
    decreases |b|
  {
    if b == [] {
      assert a + b == a;
    } else {
      var front := b[..|b| - 1];
      assert a + b == (a + front) + [b[|b| - 1]];
      LoadConcat(rs, a, front, e, w);
      LoadAppend(rs, a + front, b[|b| - 1], e, w);
    }
  }

  /** Rewriting one row changes the total by the difference of the two
      rows' contributions. */
  lemma LoadUpdate(rs: seq<Resource>, rows: seq<Row>, i: int, row: Row, e: int, w: IsoWeek)
    requires 0 <= i < |rows|
    ensures Load(rs, rows[i := row], e, w)
      == Load(rs, rows, e, w) - Contribution(rs, rows[i], e, w) + Contribution(rs, row, e, w)
  {
    var a := rows[..i];
    var b := rows[i + 1..];
    assert rows == (a + [rows[i]]) + b;
    assert rows[i := row] == (a + [row]) + b;
    LoadConcat(rs, a + [rows[i]], b, e, w);
    LoadConcat(rs, a, [rows[i]], e, w);
    LoadConcat(rs, a + [row], b, e, w);
    LoadConcat(rs, a, [row], e, w);
    LoadSingle(rs, rows[i], e, w);
    LoadSingle(rs, row, e, w);
  }

  lemma {:induction false} LoadNonNegative(rs: seq<Resource>, rows: seq<Row>, e: int, w: IsoWeek)
    requires forall k :: 0 <= k < |rows| ==> rows[k].workload >= 0
    ensures Load(rs, rows, e, w) >= 0
  {
    if rows != [] {
      LoadNonNegative(rs, rows[..|rows| - 1], e, w);
    }
  }

  /** The total only depends on who owns the rows' resources. */
  lemma {:induction false} LoadSameOwners(rs1: seq<Resource>, rs2: seq<Resource>, rows: seq<Row>, e: int, w: IsoWeek)
    requires forall k :: 0 <= k < |rows| ==> Find(rs1, rows[k].resource) == Find(rs2, rows[k].resource)
    ensures Load(rs1, rows, e, w) == Load(rs2, rows, e, w)
  {
    if rows != [] {
      LoadSameOwners(rs1, rs2, rows[..|rows| - 1], e, w);
    }
  }

  /** The workload of one resource's rows in one week. */
  function MineLoad(rows: seq<Row>, id: nat, w: IsoWeek): int {
    if rows == [] then 0
    else
      var row := rows[|rows| - 1];
      MineLoad(rows[..|rows| - 1], id, w) + (if row.resource == id && row.week == w then row.workload else 0)
  }

  /** The total of an employee is the other resources' share plus, when the
      employee owns resource id, that resource's rows of the week. */
  lemma {:induction false} LoadDecompose(rs: seq<Resource>, rows: seq<Row>, id: nat, e: int, w: IsoWeek)
    ensures Load(rs, rows, e, w)
      == Load(rs, RowsNotOf(rows, id), e, w) + (if Owns(rs, id, e) then MineLoad(rows, id, w) else 0)
  {
    if rows != [] {
      var front := rows[..|rows| - 1];
      var row := rows[|rows| - 1];
      LoadDecompose(rs, front, id, e, w);
      if row.resource != id {
        LoadAppend(rs, RowsNotOf(front, id), row, e, w);
      } else {
        assert RowsNotOf(rows, id) == RowsNotOf(front, id) + [];
        assert RowsNotOf(rows, id) == RowsNotOf(front, id);
        assert Contribution(rs, row, e, w) == if Owns(rs, id, e) && row.week == w then row.workload else 0;
      }
    }
  }

  lemma {:induction false} MineLoadNone(rows: seq<Row>, id: nat, w: IsoWeek)
    requires forall k :: 0 <= k < |rows| ==> !(rows[k].resource == id && rows[k].week == w)
    ensures MineLoad(rows, id, w) == 0
  {
    if rows != [] {
      MineLoadNone(rows[..|rows| - 1], id, w);
    }
  }

  lemma {:induction false} MineLoadOne(rows: seq<Row>, id: nat, w: IsoWeek, k: int)
    requires 0 <= k < |rows| && rows[k].resource == id && rows[k].week == w
    requires forall j :: 0 <= j < |rows| && j != k ==> !(rows[j].resource == id && rows[j].week == w)
    ensures MineLoad(rows, id, w) == rows[k].workload
  {
    var front := rows[..|rows| - 1];
    if k == |rows| - 1 {
      MineLoadNone(front, id, w);
    } else {
      MineLoadOne(front, id, w, k);
    }
  }

  /** With one row per resource and week, a resource's share of a week is
      its row's workload, or 0 without a row. */
  lemma MineLoadUnique(rows: seq<Row>, id: nat, w: IsoWeek)
    requires OneRowPerWeek(rows)
    ensures MineLoad(rows, id, w) == match FindRow(rows, id, w)
      case Some(k) => rows[k].workload
      case None => 0
  {
    match FindRow(rows, id, w)
    case Some(k) =>
      forall j | 0 <= j < |rows| && j != k ensures !(rows[j].resource == id && rows[j].week == w) {
        if j < k {
          assert !(rows[j].resource == rows[k].resource && rows[j].week == rows[k].week);
        } else {
          assert !(rows[k].resource == rows[j].resource && rows[k].week == rows[j].week);
        }
      }
      MineLoadOne(rows, id, w, k);
    case None =>
      MineLoadNone(rows, id, w);
  }

  lemma {:induction false} MineLoadNonNegative(rows: seq<Row>, id: nat, w: IsoWeek)
    requires forall k :: 0 <= k < |rows| ==> rows[k].workload >= 0
    ensures MineLoad(rows, id, w) >= 0
  {
    if rows != [] {
      MineLoadNonNegative(rows[..|rows| - 1], id, w);
    }
  }

  lemma {:induction false} RowsNotOfElements(rows: seq<Row>, id: nat)
    ensures forall k :: 0 <= k < |RowsNotOf(rows, id)| ==>
      RowsNotOf(rows, id)[k].resource != id && RowsNotOf(rows, id)[k] in rows
  {
    if rows != [] {
      var front := rows[..|rows| - 1];
      RowsNotOfElements(front, id);
      var r := RowsNotOf(rows, id);
      forall k | 0 <= k < |r| ensures r[k].resource != id && r[k] in rows {
        if k < |RowsNotOf(front, id)| {
          assert r[k] == RowsNotOf(front, id)[k];
          assert r[k] in front;
        }
      }
    }
  }

  lemma {:induction false} RowsNotOfNonNegative(rows: seq<Row>, id: nat)
    requires forall k :: 0 <= k < |rows| ==> rows[k].workload >= 0
    ensures forall k :: 0 <= k < |RowsNotOf(rows, id)| ==> RowsNotOf(rows, id)[k].workload >= 0
  {
    RowsNotOfElements(rows, id);
  }

  /** Without resource id's rows an employee's total does not grow, and it
      is the same whatever the owner of id. */
  lemma OthersAtMost(rs: seq<Resource>, rows: seq<Row>, id: nat, e: int, w: IsoWeek)
    requires forall k :: 0 <= k < |rows| ==> rows[k].workload >= 0
    ensures Load(rs, RowsNotOf(rows, id), e, w) <= Load(rs, rows, e, w)
  {
    LoadDecompose(rs, rows, id, e, w);
    MineLoadNonNegative(rows, id, w);
  }

  // ---------------------------------------------------------------------
  // Ownership under changes of the resource table

  lemma FindAppendOther(rs: seq<Resource>, r: Resource, j: nat)
    requires j != r.id
    ensures Find(rs + [r], j) == Find(rs, j)
  {
    if rs != [] {
      assert (rs + [r])[1..] == rs[1..] + [r];
      FindAppendOther(rs[1..], r, j);
    } else {
      assert [r][1..] == [];
    }
  }

  lemma FindAppendNew(rs: seq<Resource>, r: Resource)
    requires Find(rs, r.id).None?
    ensures Find(rs + [r], r.id) == Some(r)
  {
    if rs != [] {
      assert (rs + [r])[1..] == rs[1..] + [r];
      FindAppendNew(rs[1..], r);
    }
  }

  lemma {:induction false} FindAt(rs: seq<Resource>, k: int)
    requires UniqueIds(rs) && 0 <= k < |rs|
    ensures Find(rs, rs[k].id) == Some(rs[k])
  {
    if k > 0 {
      assert rs[0].id != rs[k].id;
      assert rs[1..][k - 1] == rs[k];
      FindAt(rs[1..], k - 1);
    }
  }

  /** The rows of other resources keep their owners when resource r is
      rewritten. */
  lemma OthersUnderReplace(rs: seq<Resource>, r: Resource, rows: seq<Row>, e: int, w: IsoWeek)
    requires Find(rs, r.id).Some?
    ensures Load(Replace(rs, r), RowsNotOf(rows, r.id), e, w) == Load(rs, RowsNotOf(rows, r.id), e, w)
  {
    RowsNotOfElements(rows, r.id);
    ReplaceFind(rs, r);
    LoadSameOwners(Replace(rs, r), rs, RowsNotOf(rows, r.id), e, w);
  }

  /** Appending a new resource changes no owner of the stored rows. */
  lemma LoadAppendResource(rs: seq<Resource>, r: Resource, rows: seq<Row>, e: int, w: IsoWeek)
    requires forall k :: 0 <= k < |rows| ==> rows[k].resource != r.id
    ensures Load(rs + [r], rows, e, w) == Load(rs, rows, e, w)
  {
    forall k | 0 <= k < |rows| ensures Find(rs + [r], rows[k].resource) == Find(rs, rows[k].resource) {
      FindAppendOther(rs, r, rows[k].resource);
    }
    LoadSameOwners(rs + [r], rs, rows, e, w);
  }
}
