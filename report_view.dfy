/** The planning report's values (resource_planning_report/models/
    report_view.py, _get_report_values and is_relevant): for every project and
    employee, one entry per reported week (the workload of the last matching
    weekly row, else 0), kept when some workload is not 0, and a final
    "Total" row summing each week over the kept rows.  Records come in as
    plain sequences in search order. */
module ReportView {

  /** One {'week': ..., 'workload': ...} entry of a week array. */
  datatype Entry = Entry(week: string, workload: int)

  /** One {'project': ..., 'employee': ..., 'weekly_data': ...} doc. */
  datatype Doc = Doc(project: string, employee: string, weeklyData: seq<Entry>)

  /** A project or an employee: its id and the name the report shows. */
  datatype Named = Named(id: int, name: string)

  /** A weekly_resource as the report reads it, with the project and employee
      of its resource. */
  datatype ReportRow = ReportRow(project: int, employee: int, weekString: string, weeklyWorkload: int)

  /** No week string is listed twice (the week table has one record per
      week, and week strings identify weeks). */
  predicate Distinct(weeks: seq<string>) {
    forall i, j :: 0 <= i < j < |weeks| ==> weeks[i] != weeks[j]
  }

  /** The workload of the last row of this week, or 0 when there is none. */
  function LastMatch(rows: seq<ReportRow>, week: string): int {
    if rows == [] then 0
    else if rows[|rows| - 1].weekString == week then rows[|rows| - 1].weeklyWorkload
    else LastMatch(rows[..|rows| - 1], week)
  }

  /** LastMatch is the workload of the last row of the week, and 0 exactly
      when no row belongs to it. */
  lemma {:induction false} LastMatchIsLast(rows: seq<ReportRow>, week: string, i: int)
    requires 0 <= i < |rows| && rows[i].weekString == week
    requires forall j :: i < j < |rows| ==> rows[j].weekString != week
    ensures LastMatch(rows, week) == rows[i].weeklyWorkload
  {
    if i < |rows| - 1 {
      LastMatchIsLast(rows[..|rows| - 1], week, i);
    }
  }

  lemma {:induction false} LastMatchNone(rows: seq<ReportRow>, week: string)
    requires forall j :: 0 <= j < |rows| ==> rows[j].weekString != week
    ensures LastMatch(rows, week) == 0
  {
    if rows != [] {
      LastMatchNone(rows[..|rows| - 1], week);
    }
  }

  /** One entry per week, in order, carrying LastMatch. */
  function Entries(weeks: seq<string>, rows: seq<ReportRow>): (r: seq<Entry>)
    ensures |r| == |weeks|
  {
    if weeks == [] then []
    else
      var w := weeks[|weeks| - 1];
      Entries(weeks[..|weeks| - 1], rows) + [Entry(w, LastMatch(rows, w))]
  }

  lemma {:induction false} EntriesAt(weeks: seq<string>, rows: seq<ReportRow>, i: int)
    requires 0 <= i < |weeks|
    ensures Entries(weeks, rows)[i] == Entry(weeks[i], LastMatch(rows, weeks[i]))
  {
    if i < |weeks| - 1 {
      EntriesAt(weeks[..|weeks| - 1], rows, i);
    }
  }

  /** The week array of one project and employee: empty without rows,
      else one entry per week. */
  function WeekArray(weeks: seq<string>, rows: seq<ReportRow>): seq<Entry> {
    if rows == [] then [] else Entries(weeks, rows)
  }

  /** list.remove(x): drops the first element equal to x. */
  function RemoveFirst(s: seq<Entry>, x: Entry): (r: seq<Entry>)
    requires x in s
    ensures |r| == |s| - 1
  {
    if s[0] == x then s[1..] else [s[0]] + RemoveFirst(s[1..], x)
  }

  lemma {:induction false} RemoveFirstAt(s: seq<Entry>, k: int)
    requires 0 <= k < |s| && forall j :: 0 <= j < k ==> s[j] != s[k]
    ensures RemoveFirst(s, s[k]) == s[..k] + s[k + 1..]
  {
    if k == 0 {
      assert s[..0] + s[1..] == s[1..];
    } else {
      var t := s[1..];
      assert t[k - 1] == s[k];
      assert forall j :: 0 <= j < k - 1 ==> t[j] == s[j + 1];
      RemoveFirstAt(t, k - 1);
      assert s[0] != s[k];
      assert RemoveFirst(s, s[k]) == [s[0]] + (t[..k - 1] + t[k..]);
      assert s[..k] == [s[0]] + t[..k - 1];
      assert s[k + 1..] == t[k..];
    }
  }

  /** Lines 48-50: for each entry of week_array whose week is the row's,
      remove it, iterating as Python's list iterator does (by index, while
      the list shrinks).  Only the last entry can be of that week here. */
  method RemoveWeek(weekArray: seq<Entry>, week: string) returns (result: seq<Entry>)
    requires forall k :: 0 <= k < |weekArray| - 1 ==> weekArray[k].week != week
    ensures result == if weekArray != [] && weekArray[|weekArray| - 1].week == week
      then weekArray[..|weekArray| - 1] else weekArray
  {
    result := weekArray;
    var j := 0;
    while j < |result|
      invariant 0 <= j
      invariant (result == weekArray && j <= |weekArray|
          && (j == |weekArray| > 0 ==> weekArray[|weekArray| - 1].week != week))
        || (weekArray != [] && weekArray[|weekArray| - 1].week == week
            && result == weekArray[..|weekArray| - 1] && j == |weekArray|)
      decreases |weekArray| - j
    {
      if result[j].week == week {
        RemoveFirstAt(result, j);
        result := RemoveFirst(result, result[j]);
      }
      j := j + 1;
    }
  }

  /** Lines 41-59: the week array of one project and employee from its rows
      (in search order). */
  method BuildWeekArray(weeks: seq<string>, rows: seq<ReportRow>) returns (weekArray: seq<Entry>)
    requires Distinct(weeks)
    ensures weekArray == WeekArray(weeks, rows)
  {
    weekArray := [];
    var i := 0;
    while i < |weeks|
      invariant 0 <= i <= |weeks|
      invariant weekArray == WeekArray(weeks[..i], rows)
    {
      var prefix := weekArray;
      assert forall k :: 0 <= k < |prefix| ==> prefix[k].week != weeks[i] by {
        forall k | 0 <= k < |prefix| ensures prefix[k].week != weeks[i] {
          EntriesAt(weeks[..i], rows, k);
        }
      }
      weekArray := FillWeek(prefix, weeks[i], rows);
      assert weeks[..i + 1][..i] == weeks[..i];
      i := i + 1;
    }
    assert weeks[..i] == weeks;
  }

  /** Lines 46-59, the inner loop for week w: appends w's entry, carrying
      the last matching row's workload, or nothing when there are no rows. */
  method FillWeek(prefix: seq<Entry>, w: string, rows: seq<ReportRow>) returns (weekArray: seq<Entry>)
    requires forall k :: 0 <= k < |prefix| ==> prefix[k].week != w
    ensures weekArray == prefix + (if rows == [] then [] else [Entry(w, LastMatch(rows, w))])
  {
    weekArray := prefix;
    var isSet := false;
    var k := 0;
    while k < |rows|
      invariant 0 <= k <= |rows|
      invariant isSet == (k > 0)
      invariant weekArray == prefix + (if k == 0 then [] else [Entry(w, LastMatch(rows[..k], w))])
    {
      var res := rows[k];
      assert rows[..k + 1][..k] == rows[..k];
      if res.weekString == w {
        weekArray := RemoveWeek(weekArray, res.weekString);
        weekArray := weekArray + [Entry(w, res.weeklyWorkload)];
        isSet := true;
      } else if !isSet {
        weekArray := weekArray + [Entry(w, 0)];
        isSet := true;
      }
      k := k + 1;
    }
    assert rows[..k] == rows;
  }

  /** is_relevant: some entry has a workload other than 0. */
  function IsRelevant(weekArray: seq<Entry>): (r: bool)
    ensures r <==> exists i :: 0 <= i < |weekArray| && weekArray[i].workload != 0
  {
    if weekArray == [] then false
    else if weekArray[0].workload != 0 then true
    else
      assert forall i :: 1 <= i < |weekArray| ==> weekArray[i] == weekArray[1..][i - 1];
      IsRelevant(weekArray[1..])
  }

  /** The rows of one project and employee, in search order. */
  function PairRows(rows: seq<ReportRow>, project: int, employee: int): seq<ReportRow> {
    if rows == [] then []
    else
      var r := rows[|rows| - 1];
      PairRows(rows[..|rows| - 1], project, employee)
        + (if r.project == project && r.employee == employee then [r] else [])
  }

  /** The docs of one project, over the employees. */
  function ProjectDocs(project: Named, employees: seq<Named>, rows: seq<ReportRow>, weeks: seq<string>): seq<Doc> {
    if employees == [] then []
    else
      var e := employees[|employees| - 1];
      var weekArray := WeekArray(weeks, PairRows(rows, project.id, e.id));
      ProjectDocs(project, employees[..|employees| - 1], rows, weeks)
        + (if IsRelevant(weekArray) then [Doc(project.name, e.name, weekArray)] else [])
  }

  /** Lines 35-66: the docs of every project and employee whose week array is
      relevant, projects outermost. */
  function Docs(projects: seq<Named>, employees: seq<Named>, rows: seq<ReportRow>, weeks: seq<string>): seq<Doc> {
    if projects == [] then []
    else
      Docs(projects[..|projects| - 1], employees, rows, weeks)
        + ProjectDocs(projects[|projects| - 1], employees, rows, weeks)
  }

  /** Sum of the workloads of the entries of one week. */
  function EntriesTotal(entries: seq<Entry>, week: string): int {
    if entries == [] then 0
    else
      var e := entries[|entries| - 1];
      EntriesTotal(entries[..|entries| - 1], week) + (if e.week == week then e.workload else 0)
  }

  /** The weekly total of one week over all docs. */
  function WeekTotal(docs: seq<Doc>, week: string): int {
    if docs == [] then 0
    else WeekTotal(docs[..|docs| - 1], week) + EntriesTotal(docs[|docs| - 1].weeklyData, week)
  }

  /** The entries of the Total row. */
  function Totals(weeks: seq<string>, docs: seq<Doc>): (r: seq<Entry>)
    ensures |r| == |weeks|
  {
    if weeks == [] then []
    else
      var w := weeks[|weeks| - 1];
      Totals(weeks[..|weeks| - 1], docs) + [Entry(w, WeekTotal(docs, w))]
  }

  /** _get_report_values' docs: the relevant docs, then the Total row. */
  function ReportDocs(projects: seq<Named>, employees: seq<Named>, rows: seq<ReportRow>, weeks: seq<string>): seq<Doc> {
    var docs := Docs(projects, employees, rows, weeks);
    docs + [Doc(" ", "Total", Totals(weeks, docs))]
  }

  /** Lines 68-78: the Total row's entries, one per week. */
  method ComputeTotals(weeks: seq<string>, docs: seq<Doc>) returns (weekArray: seq<Entry>)
    ensures weekArray == Totals(weeks, docs)
  {
    weekArray := [];
    var i := 0;
    while i < |weeks|
      invariant 0 <= i <= |weeks|
      invariant weekArray == Totals(weeks[..i], docs)
    {
      var week := weeks[i];
      var weeklyTotal := 0;
      var d := 0;
      while d < |docs|
        invariant 0 <= d <= |docs|
        invariant weeklyTotal == WeekTotal(docs[..d], week)
      {
        var data := docs[d].weeklyData;
        var k := 0;
        var base := weeklyTotal;
        while k < |data|
          invariant 0 <= k <= |data|
          invariant weeklyTotal == base + EntriesTotal(data[..k], week)
        {
          assert data[..k + 1][..k] == data[..k];
          if week == data[k].week {
            weeklyTotal := weeklyTotal + data[k].workload;
          }
          k := k + 1;
        }
        assert data[..k] == data;
        assert docs[..d + 1][..d] == docs[..d];
        d := d + 1;
      }
      assert docs[..d] == docs;
      weekArray := weekArray + [Entry(week, weeklyTotal)];
      assert weeks[..i + 1][..i] == weeks[..i];
      i := i + 1;
    }
    assert weeks[..i] == weeks;
  }

  /** Lines 36-66 for one project: the relevant docs over the employees. */
  method CollectProjectDocs(project: Named, employees: seq<Named>, rows: seq<ReportRow>, weeks: seq<string>)
    returns (docs: seq<Doc>)
    requires Distinct(weeks)
    ensures docs == ProjectDocs(project, employees, rows, weeks)
  {
    docs := [];
    var e := 0;
    while e < |employees|
      invariant 0 <= e <= |employees|
      invariant docs == ProjectDocs(project, employees[..e], rows, weeks)
    {
      var employee := employees[e];
      var weeklyResource := PairRows(rows, project.id, employee.id);
      var weekArray := BuildWeekArray(weeks, weeklyResource);
      ProjectDocsStep(project, employees, rows, weeks, e);
      if IsRelevant(weekArray) {
        docs := docs + [Doc(project.name, employee.name, weekArray)];
      }
      e := e + 1;
    }
    assert employees[..e] == employees;
  }

  /** One more employee adds that employee's doc when it is relevant. */
  lemma ProjectDocsStep(project: Named, employees: seq<Named>, rows: seq<ReportRow>, weeks: seq<string>, e: int)
    requires 0 <= e < |employees|
    ensures var weekArray := WeekArray(weeks, PairRows(rows, project.id, employees[e].id));
      ProjectDocs(project, employees[..e + 1], rows, weeks) == ProjectDocs(project, employees[..e], rows, weeks)
        + (if IsRelevant(weekArray) then [Doc(project.name, employees[e].name, weekArray)] else [])
  {
    assert employees[..e + 1][..e] == employees[..e];
  }

  /** Lines 24-84: the docs of the report, the Total row last. */
  method GetReportValues(weeks: seq<string>, projects: seq<Named>, employees: seq<Named>, rows: seq<ReportRow>)
    returns (docs: seq<Doc>)
    requires Distinct(weeks)
    ensures docs == ReportDocs(projects, employees, rows, weeks)
  {
    docs := [];
    var p := 0;
    while p < |projects|
      invariant 0 <= p <= |projects|
      invariant docs == Docs(projects[..p], employees, rows, weeks)
    {
      var projectDocs := CollectProjectDocs(projects[p], employees, rows, weeks);
      docs := docs + projectDocs;
      assert projects[..p + 1][..p] == projects[..p];
      p := p + 1;
    }
    assert projects[..p] == projects;
    var totals := ComputeTotals(weeks, docs);
    docs := docs + [Doc(" ", "Total", totals)];
  }

  // ---------------------------------------------------------------------
  // Properties

  /** With at least one row, the week array has one entry per week, in
      order, carrying the last matching row's workload (LastMatchIsLast,
      LastMatchNone); without rows it is empty. */
  lemma WeekArrayShape(weeks: seq<string>, rows: seq<ReportRow>)
    ensures rows == [] ==> WeekArray(weeks, rows) == []
    ensures rows != [] ==> (|WeekArray(weeks, rows)| == |weeks|
      && forall i :: 0 <= i < |weeks| ==>
           WeekArray(weeks, rows)[i] == Entry(weeks[i], LastMatch(rows, weeks[i])))
  {
    if rows != [] {
      forall i | 0 <= i < |weeks|
        ensures WeekArray(weeks, rows)[i] == Entry(weeks[i], LastMatch(rows, weeks[i]))
      {
        EntriesAt(weeks, rows, i);
      }
    }
  }

  lemma {:induction false} ProjectDocsSound(project: Named, employees: seq<Named>, rows: seq<ReportRow>, weeks: seq<string>, k: int)
    requires 0 <= k < |ProjectDocs(project, employees, rows, weeks)|
    ensures var doc := ProjectDocs(project, employees, rows, weeks)[k];
      IsRelevant(doc.weeklyData)
      && exists j :: 0 <= j < |employees|
           && doc == Doc(project.name, employees[j].name, WeekArray(weeks, PairRows(rows, project.id, employees[j].id)))
  {
    var n := |employees|;
    var front := ProjectDocs(project, employees[..n - 1], rows, weeks);
    if k < |front| {
      ProjectDocsSound(project, employees[..n - 1], rows, weeks, k);
      var j :| 0 <= j < n - 1 && front[k] == Doc(project.name, employees[..n - 1][j].name,
        WeekArray(weeks, PairRows(rows, project.id, employees[..n - 1][j].id)));
      assert employees[..n - 1][j] == employees[j];
    }
  }

  /** Lines 61-66: every doc is the week array of a project and an employee
      whose array is relevant, so pairs without rows or with only zero
      workloads are left out. */
  lemma {:induction false} DocsSound(projects: seq<Named>, employees: seq<Named>, rows: seq<ReportRow>, weeks: seq<string>, k: int)
    requires 0 <= k < |Docs(projects, employees, rows, weeks)|
    ensures var doc := Docs(projects, employees, rows, weeks)[k];
      IsRelevant(doc.weeklyData) && PairRowsNonEmpty(doc, projects, employees, rows, weeks)
  {
    var n := |projects|;
    var front := Docs(projects[..n - 1], employees, rows, weeks);
    if k < |front| {
      DocsSound(projects[..n - 1], employees, rows, weeks, k);
      var doc := front[k];
      var i, j :| 0 <= i < n - 1 && 0 <= j < |employees|
        && doc == Doc(projects[..n - 1][i].name, employees[j].name,
                      WeekArray(weeks, PairRows(rows, projects[..n - 1][i].id, employees[j].id)))
        && PairRows(rows, projects[..n - 1][i].id, employees[j].id) != [];
      assert projects[..n - 1][i] == projects[i];
    } else {
      ProjectDocsSound(projects[n - 1], employees, rows, weeks, k - |front|);
      var doc := Docs(projects, employees, rows, weeks)[k];
      var j :| 0 <= j < |employees|
        && doc == Doc(projects[n - 1].name, employees[j].name,
                      WeekArray(weeks, PairRows(rows, projects[n - 1].id, employees[j].id)));
      assert doc.weeklyData != [];
    }
  }

  /** The doc belongs to a project and an employee with at least one row. */
  predicate PairRowsNonEmpty(doc: Doc, projects: seq<Named>, employees: seq<Named>, rows: seq<ReportRow>, weeks: seq<string>) {
    exists i, j :: 0 <= i < |projects| && 0 <= j < |employees|
      && doc == Doc(projects[i].name, employees[j].name,
                    WeekArray(weeks, PairRows(rows, projects[i].id, employees[j].id)))
      && PairRows(rows, projects[i].id, employees[j].id) != []
  }

  lemma {:induction false} ProjectDocsComplete(project: Named, employees: seq<Named>, rows: seq<ReportRow>, weeks: seq<string>, j: int)
    requires 0 <= j < |employees|
    requires IsRelevant(WeekArray(weeks, PairRows(rows, project.id, employees[j].id)))
    ensures Doc(project.name, employees[j].name, WeekArray(weeks, PairRows(rows, project.id, employees[j].id)))
      in ProjectDocs(project, employees, rows, weeks)
  {
    var n := |employees|;
    var front := ProjectDocs(project, employees[..n - 1], rows, weeks);
    var weekArray := WeekArray(weeks, PairRows(rows, project.id, employees[n - 1].id));
    var back := if IsRelevant(weekArray) then [Doc(project.name, employees[n - 1].name, weekArray)] else [];
    assert ProjectDocs(project, employees, rows, weeks) == front + back;
    var doc := Doc(project.name, employees[j].name, WeekArray(weeks, PairRows(rows, project.id, employees[j].id)));
    if j < n - 1 {
      assert employees[..n - 1][j] == employees[j];
      ProjectDocsComplete(project, employees[..n - 1], rows, weeks, j);
      InLeft(front, back, doc);
    } else {
      assert j == n - 1;
      InRight(front, back, doc);
    }
  }

  lemma {:induction false} ProjectDocsInDocs(projects: seq<Named>, employees: seq<Named>, rows: seq<ReportRow>, weeks: seq<string>, i: int, doc: Doc)
    requires 0 <= i < |projects|
    requires doc in ProjectDocs(projects[i], employees, rows, weeks)
    ensures doc in Docs(projects, employees, rows, weeks)
  {
    var n := |projects|;
    var front := Docs(projects[..n - 1], employees, rows, weeks);
    var back := ProjectDocs(projects[n - 1], employees, rows, weeks);
    assert Docs(projects, employees, rows, weeks) == front + back;
    if i < n - 1 {
      assert projects[..n - 1][i] == projects[i];
      ProjectDocsInDocs(projects[..n - 1], employees, rows, weeks, i, doc);
      InLeft(front, back, doc);
    } else {
      InRight(front, back, doc);
    }
  }

  /** Lines 35-66, the other direction: every project and employee whose
      week array is relevant has its doc. */
  lemma DocsComplete(projects: seq<Named>, employees: seq<Named>, rows: seq<ReportRow>, weeks: seq<string>, i: int, j: int)
    requires 0 <= i < |projects| && 0 <= j < |employees|
    requires IsRelevant(WeekArray(weeks, PairRows(rows, projects[i].id, employees[j].id)))
    ensures Doc(projects[i].name, employees[j].name, WeekArray(weeks, PairRows(rows, projects[i].id, employees[j].id)))
      in Docs(projects, employees, rows, weeks)
  {
    ProjectDocsComplete(projects[i], employees, rows, weeks, j);
    ProjectDocsInDocs(projects, employees, rows, weeks, i,
      Doc(projects[i].name, employees[j].name, WeekArray(weeks, PairRows(rows, projects[i].id, employees[j].id))));
  }

  lemma InLeft<T>(a: seq<T>, b: seq<T>, x: T)
    requires x in a
    ensures x in a + b
  {
    var k :| 0 <= k < |a| && a[k] == x;
    assert (a + b)[k] == x;
  }

  lemma InRight<T>(a: seq<T>, b: seq<T>, x: T)
    requires x in b
    ensures x in a + b
  {
    var k :| 0 <= k < |b| && b[k] == x;
    assert (a + b)[|a| + k] == x;
  }

  /** A doc with one entry per week, in order. */
  predicate Shaped(doc: Doc, weeks: seq<string>) {
    |doc.weeklyData| == |weeks| && forall k :: 0 <= k < |weeks| ==> doc.weeklyData[k].week == weeks[k]
  }

  lemma DocsShaped(projects: seq<Named>, employees: seq<Named>, rows: seq<ReportRow>, weeks: seq<string>)
    ensures forall doc :: doc in Docs(projects, employees, rows, weeks) ==> Shaped(doc, weeks)
  {
    var docs := Docs(projects, employees, rows, weeks);
    forall doc | doc in docs ensures Shaped(doc, weeks) {
      var k :| 0 <= k < |docs| && docs[k] == doc;
      DocsSound(projects, employees, rows, weeks, k);
      var i, j :| 0 <= i < |projects| && 0 <= j < |employees|
        && doc == Doc(projects[i].name, employees[j].name,
                      WeekArray(weeks, PairRows(rows, projects[i].id, employees[j].id)))
        && PairRows(rows, projects[i].id, employees[j].id) != [];
      WeekArrayShape(weeks, PairRows(rows, projects[i].id, employees[j].id));
    }
  }

  /** The workloads in column i, summed over the docs. */
  function ColumnSum(docs: seq<Doc>, i: int): int {
    if docs == [] then 0
    else
      var data := docs[|docs| - 1].weeklyData;
      ColumnSum(docs[..|docs| - 1], i) + (if 0 <= i < |data| then data[i].workload else 0)
  }

  lemma {:induction false} EntriesTotalNone(entries: seq<Entry>, week: string)
    requires forall k :: 0 <= k < |entries| ==> entries[k].week != week
    ensures EntriesTotal(entries, week) == 0
  {
    if entries != [] {
      EntriesTotalNone(entries[..|entries| - 1], week);
    }
  }

  /** In entries with distinct weeks, a week's total is its one entry. */
  lemma {:induction false} EntriesTotalAt(entries: seq<Entry>, i: int)
    requires 0 <= i < |entries|
    requires forall a, b :: 0 <= a < b < |entries| ==> entries[a].week != entries[b].week
    ensures EntriesTotal(entries, entries[i].week) == entries[i].workload
  {
    var n := |entries|;
    var front := entries[..n - 1];
    if i == n - 1 {
      EntriesTotalNone(front, entries[i].week);
    } else {
      assert front[i] == entries[i];
      EntriesTotalAt(front, i);
    }
  }

  lemma {:induction false} WeekTotalColumn(docs: seq<Doc>, weeks: seq<string>, i: int)
    requires Distinct(weeks) && 0 <= i < |weeks|
    requires forall doc :: doc in docs ==> Shaped(doc, weeks)
    ensures WeekTotal(docs, weeks[i]) == ColumnSum(docs, i)
  {
    if docs != [] {
      var n := |docs|;
      var last := docs[n - 1];
      assert forall doc :: doc in docs[..n - 1] ==> doc in docs;
      WeekTotalColumn(docs[..n - 1], weeks, i);
      assert last in docs;
      EntriesTotalAt(last.weeklyData, i);
    }
  }

  lemma {:induction false} TotalsAt(weeks: seq<string>, docs: seq<Doc>, i: int)
    requires 0 <= i < |weeks|
    ensures Totals(weeks, docs)[i] == Entry(weeks[i], WeekTotal(docs, weeks[i]))
  {
    if i < |weeks| - 1 {
      TotalsAt(weeks[..|weeks| - 1], docs, i);
    }
  }

  /** Lines 68-84: the report ends with the Total row (project ' ', employee
      'Total'), after the relevant docs; it has one entry per week, in
      order, and each is the sum of that week's workloads over those docs. */
  lemma ReportTotalRow(projects: seq<Named>, employees: seq<Named>, rows: seq<ReportRow>, weeks: seq<string>)
    requires Distinct(weeks)
    ensures var docs := Docs(projects, employees, rows, weeks);
      var report := ReportDocs(projects, employees, rows, weeks);
      |report| == |docs| + 1 && report[..|docs|] == docs
      && report[|docs|].project == " " && report[|docs|].employee == "Total"
      && |report[|docs|].weeklyData| == |weeks|
      && forall i :: 0 <= i < |weeks| ==>
           report[|docs|].weeklyData[i] == Entry(weeks[i], ColumnSum(docs, i))
  {
    var docs := Docs(projects, employees, rows, weeks);
    DocsShaped(projects, employees, rows, weeks);
    forall i | 0 <= i < |weeks|
      ensures Totals(weeks, docs)[i] == Entry(weeks[i], ColumnSum(docs, i))
    {
      TotalsAt(weeks, docs, i);
      WeekTotalColumn(docs, weeks, i);
    }
  }
}
