/** How the lookup of a resource's row in a week (the search of
    resource.py:164-166) behaves when the row table grows, has a row
    rewritten, or is filtered by delete_spare_weekly_resources. */
module LedgerLookup {
  import opened Outcomes
  import opened Calendar
  import opened LedgerModel

  /** Appending a row: an earlier match stays the match. */
  lemma {:induction false} FindRowAppend(s: seq<Row>, x: Row, id: nat, w: IsoWeek)
    ensures FindRow(s + [x], id, w) ==
      if FindRow(s, id, w).Some? then FindRow(s, id, w)
      else if x.resource == id && x.week == w then Some(|s|)
      else None
  {
    if s != [] {
      assert (s + [x])[1..] == s[1..] + [x];
      FindRowAppend(s[1..], x, id, w);
    }
  }

  /** Rewriting a row without changing its resource and week moves no
      match. */
  lemma {:induction false} FindRowUpdate(s: seq<Row>, k: nat, x: Row, id: nat, w: IsoWeek)
    requires k < |s| && s[k].resource == x.resource && s[k].week == x.week
    ensures FindRow(s[k := x], id, w) == FindRow(s, id, w)
  {
    if k > 0 {
      assert s[k := x][1..] == s[1..][k - 1 := x];
      FindRowUpdate(s[1..], k - 1, x, id, w);
    }
  }

  lemma RowOfAppend(s: seq<Row>, x: Row, id: nat, w: IsoWeek)
    ensures RowOf(s + [x], id, w) ==
      if RowOf(s, id, w).Some? then RowOf(s, id, w)
      else if x.resource == id && x.week == w then Some(x)
      else None
  {
    FindRowAppend(s, x, id, w);
  }

  lemma RowOfUpdate(s: seq<Row>, k: nat, x: Row, id: nat, w: IsoWeek)
    requires k < |s| && s[k].resource == x.resource && s[k].week == x.week
    ensures RowOf(s[k := x], id, w) ==
      if FindRow(s, id, w) == Some(k) then Some(x) else RowOf(s, id, w)
  {
    FindRowUpdate(s, k, x, id, w);
  }

  /** A found row has the resource and the week looked for. */
  lemma RowOfKey(s: seq<Row>, id: nat, w: IsoWeek)
    ensures RowOf(s, id, w).Some? ==> RowOf(s, id, w).value.resource == id && RowOf(s, id, w).value.week == w
    ensures RowOf(s, id, w).Some? ==> RowOf(s, id, w).value in s
  {
  }

  /** delete_spare_weekly_resources removes the row of resource id in each
      week outside the project weeks, and only those. */
  lemma {:induction false} RowOfDeleteSpare(s: seq<Row>, id: nat, span: seq<IsoWeek>, id': nat, w: IsoWeek)
    ensures RowOf(DeleteSpare(s, id, span), id', w) ==
      if id' == id && w !in span then None else RowOf(s, id', w)
  {
    if s != [] {
      var n := |s|;
      var front, last := s[..n - 1], s[n - 1];
      assert s == front + [last];
      RowOfDeleteSpare(front, id, span, id', w);
      RowOfAppend(front, last, id', w);
      if !(last.resource == id && last.week !in span) {
        RowOfAppend(DeleteSpare(front, id, span), last, id', w);
      } else {
        assert DeleteSpare(s, id, span) == DeleteSpare(front, id, span) + [];
        assert DeleteSpare(s, id, span) == DeleteSpare(front, id, span);
      }
    }
  }

  /** The rows delete_spare_weekly_resources keeps, in their order. */
  lemma {:induction false} DeleteSpareElements(s: seq<Row>, id: nat, span: seq<IsoWeek>)
    ensures forall x :: x in DeleteSpare(s, id, span) <==> x in s && !(x.resource == id && x.week !in span)
  {
    if s != [] {
      DeleteSpareElements(s[..|s| - 1], id, span);
      assert s == s[..|s| - 1] + [s[|s| - 1]];
    }
  }

  /** Rows of other resources are not touched. */
  lemma {:induction false} RowsNotOfDeleteSpare(s: seq<Row>, id: nat, span: seq<IsoWeek>)
    ensures RowsNotOf(DeleteSpare(s, id, span), id) == RowsNotOf(s, id)
  {
    if s != [] {
      var n := |s|;
      var front, last := s[..n - 1], s[n - 1];
      RowsNotOfDeleteSpare(front, id, span);
      if !(last.resource == id && last.week !in span) {
        var d := DeleteSpare(front, id, span);
        assert (d + [last])[..|d|] == d;
      } else {
        assert DeleteSpare(s, id, span) == DeleteSpare(front, id, span) + [];
        assert DeleteSpare(s, id, span) == DeleteSpare(front, id, span);
        assert RowsNotOf(s, id) == RowsNotOf(front, id) + [];
        assert RowsNotOf(s, id) == RowsNotOf(front, id);
      }
    }
  }

  /** Filtering keeps at most one row per resource and week. */
  lemma DeleteSpareOneRow(s: seq<Row>, id: nat, span: seq<IsoWeek>)
    requires OneRowPerWeek(s)
    ensures OneRowPerWeek(DeleteSpare(s, id, span))
  {
    var d := DeleteSpare(s, id, span);
    forall i, j | 0 <= i < j < |d| ensures !(d[i].resource == d[j].resource && d[i].week == d[j].week) {
      SubsequenceOrder(s, id, span, i, j);
    }
  }

  /** Two positions of the filtered table come from two positions of the
      table in the same order. */
  lemma {:induction false} SubsequenceOrder(s: seq<Row>, id: nat, span: seq<IsoWeek>, i: int, j: int)
    requires 0 <= i < j < |DeleteSpare(s, id, span)|
    ensures exists a, b :: 0 <= a < b < |s| && s[a] == DeleteSpare(s, id, span)[i] && s[b] == DeleteSpare(s, id, span)[j]
  {
    var n := |s|;
    var front, last := s[..n - 1], s[n - 1];
    var d := DeleteSpare(front, id, span);
    if j < |d| {
      SubsequenceOrder(front, id, span, i, j);
      var a, b :| 0 <= a < b < |front| && front[a] == d[i] && front[b] == d[j];
      assert s[a] == front[a] && s[b] == front[b];
    } else {
      assert DeleteSpare(s, id, span)[j] == last;
      DeleteSpareIndex(front, id, span, i);
      var a :| 0 <= a < |front| && front[a] == d[i];
      assert s[a] == front[a] && s[n - 1] == last;
    }
  }

  lemma {:induction false} DeleteSpareIndex(s: seq<Row>, id: nat, span: seq<IsoWeek>, i: int)
    requires 0 <= i < |DeleteSpare(s, id, span)|
    ensures exists a :: 0 <= a < |s| && s[a] == DeleteSpare(s, id, span)[i]
  {
    var n := |s|;
    var front := s[..n - 1];
    if i < |DeleteSpare(front, id, span)| {
      DeleteSpareIndex(front, id, span, i);
      var a :| 0 <= a < |front| && front[a] == DeleteSpare(front, id, span)[i];
      assert s[a] == front[a];
    } else {
      assert DeleteSpare(s, id, span)[i] == s[n - 1];
    }
  }

  /** Rewriting a row in place keeps one row per resource and week. */
  lemma OneRowUpdate(s: seq<Row>, k: nat, x: Row)
    requires OneRowPerWeek(s) && k < |s| && s[k].resource == x.resource && s[k].week == x.week
    ensures OneRowPerWeek(s[k := x])
  {
    var s' := s[k := x];
    forall i, j | 0 <= i < j < |s'| ensures !(s'[i].resource == s'[j].resource && s'[i].week == s'[j].week) {
      assert !(s[i].resource == s[j].resource && s[i].week == s[j].week);
    }
  }

  /** Appending a row of a resource and week without a row keeps one row
      per resource and week. */
  lemma OneRowAppend(s: seq<Row>, x: Row)
    requires OneRowPerWeek(s) && FindRow(s, x.resource, x.week).None?
    ensures OneRowPerWeek(s + [x])
  {
    var s' := s + [x];
    forall i, j | 0 <= i < j < |s'| ensures !(s'[i].resource == s'[j].resource && s'[i].week == s'[j].week) {
      if j < |s| {
        assert s'[i] == s[i] && s'[j] == s[j];
      } else {
        assert s'[i] == s[i];
      }
    }
  }

  /** With one row per resource and week, every stored row is the row of
      its resource and week. */
  lemma RowOfMember(s: seq<Row>, x: Row)
    requires OneRowPerWeek(s) && x in s
    ensures RowOf(s, x.resource, x.week) == Some(x)
  {
    var j :| 0 <= j < |s| && s[j] == x;
    var k := FindRow(s, x.resource, x.week).value;
    assert k <= j;
  }

  /** A row of another resource survives the removal of resource id's rows. */
  lemma {:induction false} RowsNotOfMember(s: seq<Row>, id: nat, x: Row)
    requires x in s && x.resource != id
    ensures x in RowsNotOf(s, id)
  {
    var front := s[..|s| - 1];
    if x != s[|s| - 1] {
      assert x in front by {
        var j :| 0 <= j < |s| && s[j] == x;
        assert front[j] == x;
      }
      RowsNotOfMember(front, id, x);
    }
  }
}
