# Resource planning ledger, modelled in Dafny

This project models the core of an Odoo add-on for planning staff across
projects (`resource_planning` and `resource_planning_report`).

- **Resources.** A *resource* assigns an employee to a project. It has a
  weekly base workload in percent, and a start and an end date.
- **Weekly rows.** For every ISO week the resource spans there is one
  *weekly resource* row. It holds that week's workload, and a flag that says
  whether the workload was changed by hand.
- **Week records.** Week records are looked up by `(year, week_num)` and
  carry the week string `"<year>, W<two-digit week>"`.
- **Capacity.** No employee may be planned above 100 % in any week.
- **Reports.** A report lists, for a range of weeks, the workload of every
  project and employee pair, followed by a total row.

The modules follow the source files:

- **`Calendar`** (calendar.dfy): proleptic Gregorian day ordinals. It follows
  Python's `date.toordinal` and `date.isocalendar` step by step, and proves
  what the ISO week of a day is: its year, its number, its order, and the
  week seven days later.
- **`WeekSpan`** (week_span.dfy): `get_week`, `compute_first_and_last_date`
  and `compute_weeks` of `resource.py`. The loop is a method proved to return
  `Span`, the list of ISO weeks between two dates.
- **`Weeks`** (weeks.dfy): `week.model`. This covers the week string, the
  week-number check, and the "in reporting window" flag. The records are
  objects whose computed fields the methods assign.
- **`LedgerModel`** (ledger_model.dfy): the three tables and every operation
  of `resource.py`, `weekly_resource.py` and `employee.py`, written as
  functions from tables to a `Result`. These include create, write,
  `create_corresponding_models`, `add_missing_weekly_resources`,
  `delete_spare_weekly_resources`, `plus_one_week`, `minus_one_week`,
  assignment of a weekly workload, and the cascading deletes. A failing
  operation returns `Err` with the user's message. Odoo rolls the
  transaction back, so the caller keeps its tables.
- **`LedgerLoad`, `LedgerLookup`, `LedgerReconcile`, `LedgerProps`,
  `LedgerOps`, `LedgerShift`, `LedgerDelete`, `LedgerWeekly`**: what these
  operations do and which invariants they keep. The invariants are valid
  tables, employees within 100 % in every week (`Capacity`), and rows not
  changed by hand at their base workload (`Synced`).
- **`EmployeeTotal`** (employee_total.dfy): `compute_total_workload`,
  summed resource by resource, is the row-by-row total `Load`.
- **`ResourceLedger`** (ledger_class.dfy): the database as a class
  `Ledger`, with the three tables as `seq` fields. The operations are
  methods with loops. Each method is proved to leave the tables as the
  matching `LedgerModel` function computes them, with the state before the
  call restored on failure. Each also keeps the invariants, a write that
  moves a resource to another employee keeping all but capacity.
- **`ReportWizard`** (report_wizard.dfy) and **`ReportView`**
  (report_view.dfy): the report's week range and its values.
  `_get_report_values` is a method built from loops, proved equal to the
  functional `ReportDocs`. Lemmas state which documents it contains and what
  the total row holds.
- **`PyBits`** (py_bits.dfy): Python's `|` and `&` on integers. These are
  needed to model the two report wizard lines that use them by mistake.
- **`LedgerFindings`** (ledger_findings.dfy): the concrete tables behind the
  finding on hand-set rows.
- **`WeeklyFindings`** (weekly_findings.dfy): `verify_workload` as written,
  calling the missing `get_total_workload`.
- **`Outcomes`** (outcomes.dfy): `Option` and `Result`.

### How the model reads the code

- **Dates and times.** A datetime is a day ordinal plus a second of the day,
  compared exactly to the second. `today()` is a parameter: `thisWeek` of
  `SetIsWeekInPeriod`.
- **Constraint order.** Odoo runs the constraints of the written fields
  after the write. A failure rolls the whole write back. `@api.constrains`
  methods run in name order, so the date check
  (`verify_start_and_end_dates`) comes before the workload check
  (`verify_workload`).
- **Flag before the range check.** On a weekly row, `check_if_changed` sets
  the manual flag. `verify_workload` then checks the range and the
  employee's total.
- **Missing method name.** `weekly_resource.py:34` calls
  `employee.get_total_workload`, which `employee.py` does not define: it
  names the method `compute_total_workload` (`employee.py:15-28`), and an
  older copy of the add-on (`models/employee.py:12-26`) had the same body
  under the old name. As written, the constraint raises `AttributeError`
  for every row that passes the range checks, so every weekly assignment in
  range fails, and so does every create or write that creates or resets a
  row. `WeeklyFindings` models that; the rest of the model calls
  `compute_total_workload`, the evidently intended method (see the
  findings).
- **Message wording.** The message of an existing row that is too high ends
  with a full stop (`weekly_resource.py:35`). The message of a row that would
  be created too high does not (`resource.py:176`). The model keeps both,
  because it follows the code.
- **Week start in `weeks.py`.** `set_is_week_in_period` takes the Monday on
  or before 1 January as the start of week 1. That is ISO week 1 only when
  1 January falls on Monday to Thursday. `Weeks.StartOfWeekNotIso` states
  the one-week shift otherwise. This is how the code computes it, and the
  model keeps it.
- **Deleting week records.** Nothing in the add-on deletes week records.
  Still, the code declares `ondelete="cascade"` from a weekly row to its
  week (`weekly_resource.py:16`), and the model follows it:
  `Ledger.UnlinkWeek` removes the week's rows as well.
- **Hand-set rows on write.** `add_missing_weekly_resources` skips the rows
  changed by hand (`resource.py:168-169`), so a write never re-checks them.
  `LedgerModel.Write`, `PlusOneWeek`, `MinusOneWeek`, `Create` and the class
  `Ledger` follow the code. The re-checking version (`WriteRechecked`) is
  the corrected half of a finding below, and `LedgerOps.WriteAgrees` shows
  that the two agree whenever the employee is kept.
- **Bare `@api.constrains`.** `report_wizard.py:39` applies the decorator
  without field names, so the start/end check is never registered and a
  reversed range is saved. The tests (`test_report_wizard.py:98-119`)
  expect a raise. `ReportWizard.SaveWeeksAsWritten` models the code, and
  `ReportWizard.SaveWeeks` the evidently intended check (see the findings).
- **`set_is_week_in_period` arguments.** The tests call it with the week
  delta as an argument (`test_weeks.py:131`, also 154, 177, 204 and 226).
  The code reads the record's `week_delta` field instead (`weeks.py:42-68`).
  The model follows the code.
- **`order_weeks`.** The tests exercise an `order_weeks` method
  (`test_report_wizard.py:67-95`) that the wizard does not define. It is
  not part of this model.
- **Test message.** `test_weekly_resource.py:132` expects the message of a
  row that is too high without the final full stop. The code has it
  (`weekly_resource.py:35`), and the model keeps it.

## Model

| member | source | states |
|---|---|---|
| Calendar.AddDaysShift | resource_planning/models/resource.py:45-55 | moving by days composes, moving back undoes it, a valid date stays valid when the day stays positive, and a whole number of weeks keeps the weekday |
| Calendar.Weekday | resource_planning/models/weeks.py:53 | `weekday()` is a number from 0 (Monday) to 6 |
| Calendar.YearLength | resource_planning/models/resource.py:13-14 | a year has 366 days when it is a leap year, else 365 |
| Calendar.CalendarYear | resource_planning/models/resource.py:13-14 | the calendar year of an ordinal is the one whose days include it |
| Calendar.CalendarYearOfOrdinal | resource_planning/models/weeks.py:52 | the ordinal of a date falls in that date's year |
| Calendar.Week1MondayBounds | resource_planning/models/resource.py:13-14 | the week-1 Monday is a Monday within two days before or four days after the start of the year |
| Calendar.Week1MondayStep | resource_planning/models/resource.py:13-14 | consecutive week-1 Mondays are 52 or 53 weeks apart |
| Calendar.IsoCalendarSpec | resource_planning/models/resource.py:13-14 | `isocalendar()` picks the ISO year whose weeks cover the day, and the week number counts from that year's week-1 Monday |
| Calendar.IsoYearUnique | resource_planning/models/resource.py:13-14 | any ISO year whose weeks cover the day is the one `isocalendar()` returns |
| Calendar.IsoWeekRange | resource_planning/models/weeks.py:96-100 | week numbers from `isocalendar()` are 1..52 or 1..53, as the year has, and ISO years of valid dates are positive |
| Calendar.IsoYearOrder | resource_planning/models/resource.py:13-14 | the ISO year never decreases with the date |
| Calendar.IsoKeyStrictlyIncreasing | resource_planning/models/resource.py:15 | the key year*100+week grows strictly from one Monday-to-Sunday week to any later one |
| Calendar.IsoKeyOrder | resource_planning/models/resource.py:15 | comparing keys is comparing weeks in time, both ways, and equal ISO weeks are the same Monday-to-Sunday week |
| Calendar.SameWeekSameIso | resource_planning/models/resource.py:13-14 | two days of one Monday-to-Sunday week have the same ISO week |
| Calendar.IsoNextWeek | resource_planning/models/resource.py:260-261 | seven days later is the next ISO week, rolling over to week 1 after week 52 or 53 |
| WeekSpan.FirstAndLast | resource_planning/models/resource.py:265-285 | the first date is the earliest of the given start and the stored starts, and is one of them; the last date is the latest end, and is one of the ends |
| WeekSpan.MinDate | resource_planning/models/resource.py:276 | `min` of a non-empty list is an element no later than any other |
| WeekSpan.MaxDate | resource_planning/models/resource.py:277 | `max` of a non-empty list is an element no earlier than any other |
| WeekSpan.Walk | resource_planning/models/resource.py:249-261 | walking m weeks gives m weeks |
| WeekSpan.WalkAt | resource_planning/models/resource.py:251-260 | the i-th week walked is the ISO week of the day 7*i days on |
| WeekSpan.ComputeWeeks | resource_planning/models/resource.py:224-263 | the week array is the span from the earliest start to the latest end; the project week array is the resource's own span, whatever the other dates are |
| WeekSpan.CollectWeeks | resource_planning/models/resource.py:243-263 | the loop, stepping seven days while the key is at most the last one, yields both spans |
| WeekSpan.SpanAt | resource_planning/models/resource.py:249-261 | the i-th week of a span is the ISO week of the day 7*i days after its start |
| WeekSpan.SpanMembers | resource_planning/models/resource.py:256 | a day's week is in the span exactly when its key lies between the start's and the end's keys |
| WeekSpan.SpanBounds | resource_planning/models/resource.py:256 | every week of a span lies between the start and end weeks |
| WeekSpan.SpanWithin | resource_planning/models/resource.py:236-263 | a span lies within the span of any wider range, so the week array holds every project week |
| WeekSpan.SpanIncreasing | resource_planning/models/resource.py:249-261 | the span is in strictly increasing key order, so no week appears twice |
| WeekSpan.SpanConsecutive | resource_planning/models/resource.py:260-261 | the span has no gaps: each week is followed by the next ISO week |
| WeekSpan.SpanEmpty | resource_planning/tests/test_resource.py:46-56 | the span is empty exactly when the end week comes before the start week |
| WeekSpan.SpanOneWeek | resource_planning/tests/test_resource.py:58-68 | two days of one ISO week span exactly that week |
| WeekSpan.YearBoundaryExample | resource_planning/tests/test_resource.py:29-43 | 2019-12-27 to 2020-01-17 spans week 52 of 2019 and weeks 1 to 3 of 2020 |
| WeekSpan.SeventeenWeeksExample | resource_planning/tests/test_integration.py:233-259 | 1992-03-23 to 1992-07-17 spans 17 weeks |
| Weeks.NatToString | resource_planning/models/weeks.py:79-83 | `str(n)` has one character exactly when n is below 10 |
| Weeks.NatToStringInjective | resource_planning/models/weeks.py:79-83 | different numbers have different decimal strings |
| Weeks.WeekNumStringInjective | resource_planning/models/weeks.py:80-83 | the padded week part identifies the week number |
| Weeks.WeekStringInjective | resource_planning/models/weeks.py:78-84 | the week string identifies the (year, week) pair, so the report can match rows to weeks by it |
| Weeks.WeekStringPadded | resource_planning/tests/test_weeks.py:376-386 | weeks 2 and 9 of 2020 read "2020, W02" and "2020, W09" |
| Weeks.WeekStringUnpadded | resource_planning/tests/test_weeks.py:388-398 | weeks 10 and 11 of 2020 read "2020, W10" and "2020, W11" |
| Weeks.CheckWeekNums | resource_planning/models/weeks.py:87-100 | the check passes exactly when every week number is in 1..53, else it raises one of the two messages |
| Weeks.CheckWeekNumsFirst | resource_planning/models/weeks.py:96-100 | the first bad record decides the message: "smaller than 1" below 1, "bigger than 53" above 53 |
| Weeks.StartOfWeek | resource_planning/models/weeks.py:51-55 | the start of week n is a Monday, n-1 weeks after the Monday on or before 1 January |
| Weeks.StartOfWeekIso | resource_planning/models/weeks.py:51-55 | when 1 January falls on Monday to Thursday, the start is the Monday of ISO week n |
| Weeks.StartOfWeekNotIso | resource_planning/models/weeks.py:51-55 | when 1 January falls on Friday to Sunday, the start is one week before ISO week n |
| Weeks.InPeriodWeeks | resource_planning/models/weeks.py:57-68 | the flagged weeks are the week_delta+1 consecutive weeks from this week in the direction of week_delta's sign, ends included |
| Weeks.InPeriodZero | resource_planning/models/weeks.py:57-62 | with week_delta 0, only the week starting this Monday is flagged |
| Weeks.WeekRecord.constructor | resource_planning/models/weeks.py:16-22 | a new record keeps its week number and year, with week_delta 8 and the computed fields unset |
| Weeks.FormatWeek | resource_planning/models/weeks.py:79-83 | the string built for one record is its week string |
| Weeks.GetWeekString | resource_planning/models/weeks.py:70-85 | every record gets its week string, and no other field changes |
| Weeks.SetIsWeekInPeriod | resource_planning/models/weeks.py:41-68 | every record's flag is set to whether its week starts inside the window, and no other field changes |
| LedgerModel.FindRow | resource_planning/models/resource.py:164-166 | the search finds the first row of this resource and week, and finds none exactly when there is none |
| LedgerModel.VerifyDates | resource_planning/models/resource.py:74-86 | the dates pass exactly when both are set and start <= end, else "Both dates must be filled out" or "Start date must be before end date" |
| LedgerModel.VerifyBase | resource_planning/models/resource.py:88-99 | the base workload passes exactly when it is in 0..100, else the "larger than 100 %" or "smaller than 0 %" message |
| LedgerModel.Create | resource_planning/models/resource.py:101-116 | create fails with the date messages, then the workload messages, before anything else, and succeeds only when both checks pass |
| LedgerModel.WriteCheck | resource_planning/models/resource.py:74-99 | a write passes its checks exactly when the written dates are set and ordered and a written base is in 0..100; clearing a date gives "Both dates must be filled out" |
| LedgerModel.Rewritten | resource_planning/models/resource.py:128 | the written record keeps its id and passes its constraints |
| LedgerModel.Replace | resource_planning/models/resource.py:128 | the record with this id is replaced and every other record is left alone |
| LedgerModel.Write | resource_planning/models/resource.py:118-132 | on success the record is still stored and every date is valid; what a write computes is stated by LedgerOps.WriteResult and LedgerOps.WriteFailsAtFirst, and what it keeps by LedgerOps.WriteKeepsInvariants |
| LedgerModel.WriteRechecked | resource_planning/models/resource.py:118-132 | corrected write: on success the record is still stored and every date is valid; LedgerOps.WriteRecheckedKeepsInvariants states what it keeps |
| LedgerModel.WriteSteps | resource_planning/models/resource.py:118-132 | a write whose checks fail reports the check's message |
| LedgerModel.ReplaceFind | resource_planning/models/resource.py:128 | after a write the record is found rewritten, and every other lookup is unchanged |
| LedgerModel.ReconcileKeepsResources | resource_planning/models/resource.py:134-154 | create_corresponding_models never changes the resource table |
| LedgerModel.PlusOneWeek | resource_planning/models/resource.py:38-46 | on success the record is still stored and every date is valid |
| LedgerModel.MinusOneWeek | resource_planning/models/resource.py:48-56 | on success the record is still stored and every date is valid |
| LedgerLoad.LoadAppend | resource_planning/models/employee.py:23-26 | one more row adds its contribution to the total |
| LedgerLoad.LoadConcat | resource_planning/models/employee.py:23-26 | the total over two row lists is the sum of their totals |
| LedgerLoad.LoadUpdate | resource_planning/models/employee.py:23-26 | rewriting one row changes the total by the difference of the two rows' contributions |
| LedgerLoad.LoadNonNegative | resource_planning/models/employee.py:15-28 | a total of non-negative workloads is non-negative |
| LedgerLoad.LoadSameOwners | resource_planning/models/employee.py:23-24 | the total depends only on who owns the rows' resources |
| LedgerLoad.LoadDecompose | resource_planning/models/employee.py:23-26 | the total is the other resources' share plus, when the employee owns the resource, its rows of the week |
| LedgerLoad.MineLoadUnique | resource_planning/models/employee.py:25-26 | with one row per resource and week, a resource's share of a week is its row's workload, or 0 |
| LedgerLoad.OthersAtMost | resource_planning/models/employee.py:23-26 | leaving out one resource's rows never raises a total |
| LedgerLoad.OthersUnderReplace | resource_planning/models/resource.py:128 | rewriting a resource leaves the other resources' share of every total unchanged |
| LedgerLoad.LoadAppendResource | resource_planning/models/resource.py:114 | storing a new resource without rows changes no total |
| EmployeeTotal.ByResourceIsLoad | resource_planning/models/employee.py:15-28 | the resource-by-resource sum equals the row-by-row total: each row counts once, for its own resource |
| EmployeeTotal.NothingToCount | resource_planning/models/employee.py:22-28 | with no row of the employee in that week the total is 0 |
| ResourceLedger.Ledger.TotalWorkload | resource_planning/models/employee.py:15-28 | the nested loop returns the employee's total of the week |
| LedgerLookup.FindRowAppend | resource_planning/models/resource.py:164-179 | after a row is created, an earlier match stays the match, and the new row is found when it is the first |
| LedgerLookup.FindRowUpdate | resource_planning/models/resource.py:168-169 | rewriting a row's workload moves no match |
| LedgerLookup.RowOfDeleteSpare | resource_planning/models/resource.py:182-198 | deleting spare rows removes the resource's rows outside the project weeks, and only those |
| LedgerLookup.DeleteSpareElements | resource_planning/models/resource.py:189-198 | the rows kept are exactly the rows that are not the resource's outside the project weeks |
| LedgerLookup.RowsNotOfDeleteSpare | resource_planning/models/resource.py:189-198 | other resources' rows are not touched |
| LedgerLookup.DeleteSpareOneRow | resource_planning/models/resource.py:189-198 | deleting keeps at most one row per resource and week |
| LedgerLookup.OneRowAppend | resource_planning/models/resource.py:171-179 | creating a row only where none exists keeps one row per resource and week |
| LedgerLookup.RowOfMember | resource_planning/models/resource.py:164-166 | with one row per resource and week, the search finds every stored row by its resource and week |
| LedgerReconcile.Resynced | resource_planning/models/resource.py:168-169 | re-syncing rewrites, in place, only the resource's rows in the weeks done that were not changed by hand |
| LedgerReconcile.MissingFacts | resource_planning/models/resource.py:171-179 | rows are created only for weeks done without a row, at the base workload and not marked as changed by hand |
| LedgerReconcile.AfterShape | resource_planning/models/resource.py:163-179 | after the weeks done, each old row is in place (re-synced or not) and the new rows follow |
| LedgerReconcile.RowsNotOfAfter | resource_planning/models/resource.py:163-179 | the weeks done leave the other resources' rows as they were |
| LedgerReconcile.LoadAfter | resource_planning/models/resource.py:175 | in a week not yet done, the employee's total is still the others' share plus the resource's own rows |
| LedgerReconcile.AddStepExisting | resource_planning/models/resource.py:164-169 | an existing row not changed by hand is set to the base and fails when the total would pass 100; a hand-set row is kept unchecked as written, and re-checked in the corrected version |
| LedgerReconcile.AddStepMissing | resource_planning/models/resource.py:171-179 | a missing row is created at the base unless the employee's total with it would pass 100, in which case the step fails with "The workload in week ... is too high" |
| LedgerReconcile.StepFacts | resource_planning/models/resource.py:163-179 | one step passes exactly when StepOk holds, fails with StepMsg, and otherwise ends in the rows after one more week |
| LedgerReconcile.FirstFailure | resource_planning/models/resource.py:163 | the first failing project week is a failing project week, and there is none exactly when every step passes |
| LedgerReconcile.FirstFailureFirst | resource_planning/models/resource.py:163-179 | the first failing week is at some index of the project weeks, and every step before it passes |
| LedgerReconcile.FirstFailureAgrees | resource_planning/models/resource.py:164-179 | where every step passes alike with and without the re-check, both find the same first failing week |
| LedgerReconcile.AddMissingResult | resource_planning/models/resource.py:156-179 | add_missing_weekly_resources fails at the first failing project week, with that week's message, and otherwise yields the rows after all the weeks |
| LedgerReconcile.AfterOneRow | resource_planning/models/resource.py:156-179 | add_missing_weekly_resources keeps one row per resource and week |
| LedgerReconcile.AfterRowOf | resource_planning/models/resource.py:156-179 | afterwards the resource's row in a project week is its target row, and every other lookup is unchanged |
| LedgerProps.SpanDistinct | resource_planning/models/resource.py:249-261 | a span lists no week twice |
| LedgerProps.ReconcileError | resource_planning/models/resource.py:134-179 | create_corresponding_models fails exactly when some project week's step fails, with the message of the first such week |
| LedgerProps.ReconcileRows | resource_planning/models/resource.py:134-154 | create_corresponding_models, with or without the re-check of hand-set rows, fails at the first failing project week, with its message, or upserts the week records and reconciles the rows |
| LedgerProps.MineLoadRowOf | resource_planning/models/employee.py:23-26 | with one row per resource and week, a resource's share of a week is its row's workload |
| LedgerProps.TargetWithinCapacity | resource_planning/models/resource.py:175 | a step that passed leaves the employee's total of that week within 100 |
| LedgerProps.ReconciledLoad | resource_planning/models/resource.py:163-179 | in a reconciled ledger whose steps passed, every total stays within 100 when the others' share did |
| LedgerProps.ReconcileCapacity | resource_planning/models/resource.py:134-179 | when the other resources keep everyone within 100 %, so does the reconciled ledger, with the re-check or, as written, when every hand-set row of the resource fits its employee |
| LedgerProps.StepOkRecheck | resource_planning/models/resource.py:168-169 | where every hand-set row fits its employee, skipping the re-check changes no step |
| LedgerProps.RecheckAgrees | resource_planning/models/resource.py:164-179 | where every hand-set row fits its employee, create_corresponding_models as written and with the re-check give the same result |
| LedgerOps.UpsertFacts | resource_planning/models/resource.py:146-149 | the upsert keeps the stored week records in place, adds the missing ones and never duplicates a week |
| LedgerOps.ProjectWithinAll | resource_planning/models/resource.py:144-152 | every project week has a week record after the upsert |
| LedgerOps.ReconciledRow | resource_planning/models/resource.py:163-198 | every reconciled row refers to a stored resource and week, has a workload in 0..100, and holds its base workload unless changed by hand |
| LedgerOps.ReconcileValid | resource_planning/models/resource.py:134-154 | create_corresponding_models keeps the tables valid and the rows not changed by hand at their base |
| LedgerOps.AppendValid | resource_planning/models/resource.py:114 | storing a resource that passed its checks under the next id keeps the tables valid |
| LedgerOps.StoreCreated | resource_planning/models/resource.py:114 | a new resource has no rows, and storing it keeps the tables valid and every total unchanged |
| LedgerOps.CreateIs | resource_planning/models/resource.py:114-115 | create with its checks passed is create_corresponding_models on the tables with the new record stored |
| LedgerOps.ReconcileFresh | resource_planning/models/resource.py:134-179 | for a resource without rows, reconciling fails exactly when some project week would pass 100; otherwise the resource gets one row at its base per project week |
| LedgerOps.FreshFailsAtFirst | resource_planning/models/resource.py:171-177 | a refused reconciliation of a resource without rows reports "The workload in week ... is too high" for the first project week that would pass 100, all earlier weeks fitting |
| LedgerOps.CreateResult | resource_planning/models/resource.py:101-116 | create with its checks passed fails exactly when some project week would pass 100; otherwise the new resource has one row at its base per project week, and nothing else changes |
| LedgerOps.StoredFresh | resource_planning/models/resource.py:114-115 | a new record stored under the next id is reconciled as a resource without rows |
| LedgerOps.CreateFailsAtFirst | resource_planning/models/resource.py:101-116 | a refused create reports the first project week in which the employee's total with the base would pass 100, all earlier weeks fitting |
| LedgerOps.CreateKeepsValid | resource_planning/models/resource.py:101-116 | create keeps the tables valid and the rows not changed by hand at their base |
| LedgerOps.FreshFit | resource_planning/models/resource.py:168-169 | a resource without rows has no hand-set row that could pass 100 |
| LedgerOps.CreateKeepsCapacity | resource_planning/models/resource.py:101-116 | create keeps every employee within 100 % in every week |
| LedgerOps.StoreRewritten | resource_planning/models/resource.py:128 | storing the rewritten record keeps the tables valid and the other resources' rows, and their owners, unchanged |
| LedgerOps.WriteIs | resource_planning/models/resource.py:128-130 | write with its checks passed is create_corresponding_models on the tables with the rewritten record stored |
| LedgerOps.ReconcileTarget | resource_planning/models/resource.py:164-179 | reconciling fails exactly when in some project week the resource's row is not changed by hand and the others' share plus the base passes 100 |
| LedgerOps.ReconcileFailsAtFirst | resource_planning/models/resource.py:164-179 | a refused reconciliation reports the first project week whose row is not changed by hand and would pass 100 with the base, all earlier weeks passing |
| LedgerOps.WriteResult | resource_planning/models/resource.py:118-132 | write with its checks passed fails exactly when some project week without a hand-set row would pass 100 with the base; otherwise the record is rewritten and its rows reconciled |
| LedgerOps.WriteFailsAtFirst | resource_planning/models/resource.py:118-132 | a refused write, its checks passed, reports the first project week whose row is not changed by hand and would pass 100 with the base |
| LedgerOps.RewriteFailsAtFirst | resource_planning/models/resource.py:128-130 | the same for the rewritten record stored and its rows reconciled |
| LedgerOps.KeptEmployeeFit | resource_planning/models/resource.py:164-179 | within capacity, a rewrite that keeps the employee leaves every hand-set row fitting that employee |
| LedgerOps.RewriteContext | resource_planning/models/resource.py:128 | the rewritten record stored keeps every date valid and the rows consistent with it |
| LedgerOps.RewriteOthers | resource_planning/models/resource.py:128 | within capacity, the other resources' share of every total stays within 100 after the rewrite |
| LedgerOps.RewriteValid | resource_planning/models/resource.py:128-130 | reconciling the rewritten record keeps the tables valid and rows not changed by hand at their base |
| LedgerOps.RewriteCapacity | resource_planning/models/resource.py:128-130 | reconciling the rewritten record keeps capacity with the re-check, and as written when the employee is kept |
| LedgerOps.WriteKeepsInvariants | resource_planning/models/resource.py:118-132 | write keeps the tables valid and rows not changed by hand at their base, and keeps every employee within 100 % when it keeps the resource's employee |
| LedgerOps.WriteKeepsCapacity | resource_planning/models/resource.py:118-132 | a write that keeps the employee keeps every employee within 100 % |
| LedgerOps.WriteAgrees | resource_planning/models/resource.py:118-132 | within capacity, a write that keeps the employee gives the same result as written and corrected |
| LedgerOps.WriteRecheckedKeepsInvariants | resource_planning/models/resource.py:118-132 | corrected: the re-checking write keeps the tables valid, synced and every employee within 100 %, whatever employee it sets |
| LedgerShift.WriteStores | resource_planning/models/resource.py:128 | a successful write passed its checks and stores the rewritten record, leaving the others alone |
| LedgerShift.PlusIs | resource_planning/models/resource.py:45-46 | plus_one_week is two writes: end date a week later, then the counter plus one |
| LedgerShift.MinusIs | resource_planning/models/resource.py:55-56 | minus_one_week is two writes, after Python's date range check |
| LedgerShift.PlusOneWeekResult | resource_planning/models/resource.py:38-46 | on success the end date is seven days later, the counter one higher, and nothing else changes |
| LedgerShift.MinusOneWeekRefused | resource_planning/models/resource.py:48-56 | a date before year 1 fails as Python's datetime does, and an end date before the start is refused with the date message |
| LedgerShift.MinusOneWeekResult | resource_planning/models/resource.py:48-56 | on success the end date is seven days earlier, the counter one lower, and nothing else changes |
| LedgerShift.PlusThenMinus | resource_planning/models/resource.py:38-56 | minus_one_week after plus_one_week, when both succeed, restores the record |
| LedgerShift.ShiftKeeps | resource_planning/models/resource.py:45-46 | two writes in a row that leave the employee alone keep the invariants |
| LedgerShift.PlusOneWeekKeeps | resource_planning/models/resource.py:38-46 | plus_one_week keeps the tables valid, every employee within 100 %, and rows not changed by hand at their base |
| LedgerShift.MinusOneWeekKeeps | resource_planning/models/resource.py:48-56 | the same for minus_one_week |
| LedgerDelete.ResourcesWithoutFacts | resource_planning/models/weekly_resource.py:17 | unlinking a resource removes exactly the records with that id, and ids stay unique |
| LedgerDelete.WeeksWithoutFacts | resource_planning/models/weekly_resource.py:16 | unlinking a week record removes exactly that week, and weeks stay distinct |
| LedgerDelete.RowsNotInFacts | resource_planning/models/weekly_resource.py:16 | the cascade removes exactly the rows of that week |
| LedgerDelete.RowsNotOfFacts | resource_planning/models/weekly_resource.py:17 | the cascade removes exactly the rows of that resource |
| LedgerDelete.RowsNotOfIsDeleteSpare | resource_planning/models/resource.py:189-198 | removing all of a resource's rows is delete_spare_weekly_resources with no project week |
| LedgerDelete.FindWithout | resource_planning/models/weekly_resource.py:17 | after the removal, the resource is gone and every other lookup is unchanged |
| LedgerDelete.DeleteResourceResult | resource_planning/models/weekly_resource.py:17 | unlinking a resource removes it and all its rows and nothing else; each total loses exactly that resource's share |
| LedgerDelete.DeleteResourceKeeps | resource_planning/models/weekly_resource.py:17 | unlinking a resource keeps the tables valid, every employee within 100 %, and rows not changed by hand at their base |
| LedgerDelete.LoadRowsNotIn | resource_planning/models/weekly_resource.py:16 | without a week's rows, that week's totals are 0 and the others are unchanged |
| LedgerDelete.DeleteWeekResult | resource_planning/models/weekly_resource.py:16 | unlinking a week record removes it and all its rows and nothing else; that week's totals become 0 |
| LedgerDelete.DeleteWeekKeeps | resource_planning/models/weekly_resource.py:16 | unlinking a week record keeps the tables valid, every employee within 100 %, and rows not changed by hand at their base |
| LedgerWeekly.ContributionOfRow | resource_planning/models/employee.py:23-26 | a row adds its workload to its owner's total of its week and to nothing else |
| LedgerWeekly.WeeklyWriteResult | resource_planning/models/weekly_resource.py:21-51 | an assignment above 100 or below 0 fails with the range message; within range it fails exactly when the owner's total with the new value passes 100; on success only that row changes, flagged exactly when the value differs from the base |
| LedgerWeekly.WeeklyWriteValid | resource_planning/models/weekly_resource.py:39-51 | a successful assignment keeps the tables valid, and rows not changed by hand at their base |
| LedgerWeekly.WeeklyWriteCapacity | resource_planning/models/weekly_resource.py:21-35 | a successful assignment keeps every employee within 100 % in every week |
| LedgerFindings.ManualRowTablesValid | resource_planning/models/resource.py:164-179 | the example tables are valid, within capacity and synced |
| LedgerFindings.EmployeeChangeOverbooks | resource_planning/models/resource.py:164-179 | as written, moving the resource with a hand-set row to another employee succeeds and plans that employee at 120 % |
| LedgerFindings.ManualRowRecheckFails | resource_planning/models/resource.py:164-179 | re-checking the hand-set row finds the new employee above 100 % |
| LedgerFindings.EmployeeChangeRefused | resource_planning/models/resource.py:118-132 | corrected (WriteRechecked), the same write is refused with the week's message |
| ResourceLedger.WriteRefused | resource_planning/models/resource.py:128 | a write whose checks fail changes nothing and reports the check's message |
| ResourceLedger.KeepsSpec | resource_planning/models/resource.py:101-132 | Keeps says that capacity and syncing carry over from the state before to the state after |
| ResourceLedger.KeepsChain | resource_planning/models/resource.py:45-46 | carrying the invariants over two steps in a row carries them over both |
| ResourceLedger.WriteFollows | resource_planning/models/resource.py:118-132 | a write that rolls back on failure ends as Write says, keeps the tables valid and synced, and keeps capacity when it keeps the employee |
| ResourceLedger.PlusFollows | resource_planning/models/resource.py:38-46 | two writes ending as Write says end as PlusOneWeek says |
| ResourceLedger.MinusFollows | resource_planning/models/resource.py:48-56 | two writes ending as Write says end as MinusOneWeek says |
| ResourceLedger.CreateFacts | resource_planning/models/resource.py:101-116 | create with its checks passed is the reconciliation of the stored record, and keeps the invariants |
| ResourceLedger.Ledger.constructor | resource_planning/models/weekly_resource.py:5-19 | an empty database is valid |
| ResourceLedger.Ledger.Restore | resource_planning/models/resource.py:101-132 | the rollback puts the tables back as they were |
| ResourceLedger.Ledger.VerifyRowWorkload | resource_planning/models/weekly_resource.py:21-35 | the check of a row runs the range checks, then the owner's total of the row's week |
| ResourceLedger.Ledger.WriteWeeklyWorkload | resource_planning/models/weekly_resource.py:21-51 | assigning a weekly workload ends as the function says, rolled back on failure |
| ResourceLedger.Ledger.UpsertWeeks | resource_planning/models/resource.py:146-149 | each week of the array without a record gets one, and nothing else changes |
| ResourceLedger.Ledger.AddMissingWeeklyResources | resource_planning/models/resource.py:156-179 | the loop fails as AddMissing does (hand-set rows skipped), with its message, and otherwise leaves its rows, touching only the row table |
| ResourceLedger.Ledger.DeleteSpareWeeklyResources | resource_planning/models/resource.py:182-198 | the loop unlinks exactly the resource's rows outside the project weeks |
| ResourceLedger.Ledger.CreateCorrespondingModels | resource_planning/models/resource.py:134-154 | compute_weeks, the upsert and both loops end as Reconcile says |
| ResourceLedger.Ledger.Create | resource_planning/models/resource.py:101-116 | create ends as the function says, rolled back on failure, returns the new id and keeps the invariants |
| ResourceLedger.Ledger.Write | resource_planning/models/resource.py:118-132 | write ends as the function says, rolled back on failure, and keeps the invariants when it keeps the employee |
| ResourceLedger.Ledger.PlusOneWeek | resource_planning/models/resource.py:38-46 | plus_one_week ends as the function says, both writes rolled back on failure, and keeps the invariants |
| ResourceLedger.Ledger.MinusOneWeek | resource_planning/models/resource.py:48-56 | minus_one_week ends as the function says, both writes rolled back on failure, and keeps the invariants |
| ResourceLedger.Ledger.Unlink | resource_planning/models/weekly_resource.py:17 | unlinking a resource removes it with its rows and keeps the invariants |
| ResourceLedger.Ledger.UnlinkWeek | resource_planning/models/weekly_resource.py:16 | unlinking a week record removes it with its rows and keeps the invariants |
| WeeklyFindings.CheckRowAsWrittenNeverPasses | resource_planning/models/weekly_resource.py:29-35 | as written, the check never passes: out of range it refuses as the corrected check does, in range it raises AttributeError |
| WeeklyFindings.WriteRowAsWrittenFails | resource_planning/models/weekly_resource.py:21-51 | as written, every weekly assignment fails, with AttributeError when the value is in 0..100 |
| WeeklyFindings.AddMissingAsWrittenFails | resource_planning/models/resource.py:163-179 | as written, add_missing_weekly_resources fails in the first project week unless that row was changed by hand, with "too high" or AttributeError |
| WeeklyFindings.LoneRowRefused | resource_planning/models/weekly_resource.py:34 | a lone 40 % row passes the check with compute_total_workload and raises as written |
| ReportWizard.StartWeekAsWrittenAcceptsReversed | resource_planning_report/models/report_wizard.py:49 | as written, week 30 of 2020 is accepted as a start before week 20 of 2020 |
| ReportWizard.StartWeekBeforeEndWeek | resource_planning_report/models/report_wizard.py:40-50 | corrected, the check (never registered as written, see SaveWeeks) passes exactly when the start week is not after the end week, else "Start week must be before end week" |
| ReportWizard.SaveWeeksAsWrittenAcceptsReversed | resource_planning_report/models/report_wizard.py:39-50 | as written, the bare decorator registers no check, so week 12 of 2021 to week 12 of 2020 is saved, though the check would refuse it |
| ReportWizard.SaveWeeks | resource_planning_report/models/report_wizard.py:39-50 | corrected: saving a range succeeds, unchanged, exactly when the start is not after the end, else "Start week must be before end week" |
| ReportWizard.GetWeeksAsWrittenEnds | resource_planning_report/models/report_wizard.py:62-71 | as written, the week-number tests still keep out the start year's weeks before the start and the end year's weeks after the end |
| ReportWizard.GetWeeksAsWrittenLeaksNextYear | resource_planning_report/models/report_wizard.py:63 | as written, a report over weeks 20 to 21 of 2020 also lists a week of 2021 |
| ReportWizard.WeeksInRangeSnoc | resource_planning_report/models/report_wizard.py:62-71 | one more table week adds its string exactly when it is in range |
| ReportWizard.GetWeeks | resource_planning_report/models/report_wizard.py:52-72 | the loop returns, in table order, the strings of the weeks from start to end |
| ReportWizard.WeeksInRangeMembers | resource_planning_report/models/report_wizard.py:52-72 | a string is listed exactly when some table week from start to end carries it |
| ReportWizard.SameYearRange | resource_planning_report/models/report_wizard.py:65-70 | within one year, the range is the weeks from the start number to the end number |
| ReportWizard.SingleWeekRange | resource_planning_report/models/report_wizard.py:52-72 | from a week to itself, the result is that week's string |
| ReportWizard.NoneInRange | resource_planning_report/models/report_wizard.py:52-72 | without the week in the table the result is empty |
| PyBits.OrAndBounds | resource_planning_report/models/report_wizard.py:49 | for non-negative numbers, a \| b is at least each of them and a & b at most each |
| PyBits.OrSelf | resource_planning_report/models/report_wizard.py:63 | x \| x is x |
| PyBits.AndZero | resource_planning_report/models/report_wizard.py:49 | x & 0 is 0 |
| ReportView.LastMatchIsLast | resource_planning_report/models/report_view.py:45-54 | a week's entry carries the workload of the last matching row |
| ReportView.LastMatchNone | resource_planning_report/models/report_view.py:55-59 | with no matching row, a week's entry carries 0 |
| ReportView.Entries | resource_planning_report/models/report_view.py:41-59 | one entry per reported week |
| ReportView.EntriesAt | resource_planning_report/models/report_view.py:41-59 | the i-th entry is week i with the workload of its last matching row |
| ReportView.RemoveFirst | resource_planning_report/models/report_view.py:50 | `list.remove` drops one element |
| ReportView.RemoveFirstAt | resource_planning_report/models/report_view.py:50 | `list.remove` drops the first equal element and keeps the order of the rest |
| ReportView.RemoveWeek | resource_planning_report/models/report_view.py:48-50 | iterating while removing drops the last entry exactly when it is of the row's week |
| ReportView.FillWeek | resource_planning_report/models/report_view.py:43-59 | the inner loop appends the week's entry with the last matching row's workload, or nothing without rows |
| ReportView.BuildWeekArray | resource_planning_report/models/report_view.py:41-59 | the loops build the pair's week array: empty without rows, else one entry per week |
| ReportView.IsRelevant | resource_planning_report/models/report_view.py:92-103 | a week array is relevant exactly when some entry's workload is not 0 |
| ReportView.Totals | resource_planning_report/models/report_view.py:68-78 | the total row has one entry per week |
| ReportView.TotalsAt | resource_planning_report/models/report_view.py:68-78 | the i-th total is week i with the week's sum over the docs |
| ReportView.ComputeTotals | resource_planning_report/models/report_view.py:68-78 | the loop computes the total row |
| ReportView.CollectProjectDocs | resource_planning_report/models/report_view.py:36-66 | the loop over employees collects the project's relevant docs |
| ReportView.ProjectDocsStep | resource_planning_report/models/report_view.py:36-66 | one more employee adds that employee's doc exactly when it is relevant |
| ReportView.GetReportValues | resource_planning_report/models/report_view.py:24-84 | the method returns the relevant docs, projects outermost, then the total row |
| ReportView.WeekArrayShape | resource_planning_report/models/report_view.py:41-59 | a week array is empty without rows, else one entry per week in order, with the last matching row's workload |
| ReportView.ProjectDocsSound | resource_planning_report/models/report_view.py:61-66 | every doc of a project is an employee's relevant week array |
| ReportView.DocsSound | resource_planning_report/models/report_view.py:61-66 | every doc is the relevant week array of a project and an employee with rows |
| ReportView.ProjectDocsComplete | resource_planning_report/models/report_view.py:36-66 | every employee with a relevant week array has a doc for the project |
| ReportView.DocsComplete | resource_planning_report/models/report_view.py:35-66 | every project and employee pair whose week array is relevant has its doc |
| ReportView.DocsShaped | resource_planning_report/models/report_view.py:41-66 | every doc has one entry per week, in order |
| ReportView.EntriesTotalAt | resource_planning_report/models/report_view.py:72-75 | in entries with distinct weeks, a week's sum is its one entry |
| ReportView.WeekTotalColumn | resource_planning_report/models/report_view.py:70-75 | the weekly total is the sum of that week's column over the docs |
| ReportView.ReportTotalRow | resource_planning_report/models/report_view.py:68-84 | the report ends with the total row (project " ", employee "Total") after the relevant docs, with each week's sum over them |

## Left out

- ORM plumbing is not modelled. This covers `search`, `mapped`, record
  caches, `add_weeks_object`, `add_weekly_resource`, `name_get` and the
  generic `create`/`unlink` of week records and weekly rows made by hand.
  Week records and weekly rows are created only through the modelled
  operations.
- `set_dates` (`resource.py:58-72`) is left out. It is an on-change helper
  of the form that reads the clock.
- `is_week_in_period` (`weeks.py:31-39`) only reads `date.today()`. The
  model passes that Monday in as `thisWeek` of `Weeks.SetIsWeekInPeriod`.
- `get_report` and `_get_week` (`report_wizard.py:18-37`, `74-80`) are
  left out. They pass data to the report engine and parse a record's
  string form.
- Week records are plain values `(year, week)` in the ledger. Their week
  string and flag are modelled apart, in `Weeks`.
- Calendar: Python's upper bound on years (9999) is not modelled for the
  dates of resources. Only the lower bound (1 January of year 1) is.
- Calendar.IsoCalendar, Calendar.DaysBeforeYear,
  `Calendar.IsoWeek1Monday`, `Weeks.WeekString`,
  `LedgerModel.WriteWith`, `LedgerModel.StoreAndReconcile` and
  `ResourceLedger.Keeps` each reach their definition through a two-step
  countdown. Their `...Spec` lemmas state the definitions.
- Weeks.StartOfWeek: requires years 1 to 9999, as `date(year, 1, 1)`
  does. Python raises outside that range; the model does not cover that
  error.
- ReportView.BuildWeekArray, ReportView.CollectProjectDocs,
  ReportView.GetReportValues: require distinct report weeks. `get_weeks`
  takes them from week records, one per week, and week strings identify
  weeks (`Weeks.WeekStringInjective`).
- ResourceLedger.Ledger.TotalWorkload, ResourceLedger.Ledger.VerifyRowWorkload:
  require unique resource ids, which the database guarantees.
- ResourceLedger.Ledger.AddMissingWeeklyResources and
  ResourceLedger.Ledger.CreateCorrespondingModels state no rollback of
  their own. As in Odoo, their callers restore the tables on failure.
- LedgerModel.Write, ResourceLedger.Ledger.Write,
  ResourceLedger.WriteFollows, LedgerOps.WriteKeepsInvariants and
  LedgerShift.ShiftKeeps: promise capacity only for writes that keep the
  resource's employee (for ShiftKeeps, writes that name no employee, as
  `plus_one_week` and `minus_one_week` do). As written, a
  write moving a resource with hand-set rows to another employee can plan
  that employee above 100 % (see the findings); the re-checking
  `WriteRechecked` keeps capacity in every case.
- The model's write path keeps the code's unchecked hand-set rows, so the
  corrected write (`LedgerModel.WriteRechecked`) stands beside it and is
  not what the class `Ledger` runs.
- `set_is_week_in_period` called with a week delta argument, as the tests
  do, is not modelled: the code takes none and reads the field.
- `order_weeks`, which the report wizard tests call, is not part of this
  model: the wizard does not define it.
- LedgerModel.CheckRow, LedgerWeekly.WeeklyWriteResult and
  ResourceLedger.Ledger.VerifyRowWorkload: model `verify_workload` with
  the employee's total from `compute_total_workload`. As written the call
  names `get_total_workload` and raises `AttributeError` for every row in
  range (`WeeklyFindings`); these members state the intended behaviour,
  and so do create, write and reconciliation, which run this check.
- Concurrency, access rights, views, menus, settings
  (`res_config_settings.py`) and the report template are not part of this
  model.

## Findings

| source | as written | input that shows it | evidently intended | confidence | as-written member | corrected member |
|---|---|---|---|---|---|---|
| resource_planning_report/models/report_wizard.py:49 | `start.year == end.year & start.week_num > end.week_num`: `&` binds tighter, giving the chain `start.year == (end.year & start.week_num) > end.week_num` | start week 30 of 2020, end week 20 of 2020: 2020 & 30 is 4, so the range is accepted; latent as written, because the bare decorator at line 39 never runs this check (see the row for line 39) | reject the same year with a larger start week | high, not executed | ReportWizard.StartWeekAsWrittenAcceptsReversed | ReportWizard.StartWeekBeforeEndWeek |
| resource_planning_report/models/report_wizard.py:63 | `week.year < start.year \| week.year > end.year`: `\|` binds tighter, giving `week.year < (start.year \| week.year) > end.year` | start week 20 and end week 21 of 2020, table week 5 of 2021: 2020 \| 2021 is 2021, not above 2021, so the 2021 week is listed | skip weeks before the start year or after the end year | high, not executed | ReportWizard.GetWeeksAsWrittenLeaksNextYear | ReportWizard.GetWeeks |
| resource_planning/models/resource.py:164-179 | `add_missing_weekly_resources` checks only rows it creates or resets; a row changed by hand is kept unchecked, also when the resource moves to another employee | resource 1 (employee 2, base 40) has a hand-set row at 60; employee 1 has 60 % in that week; writing `employee = 1` succeeds and plans employee 1 at 120 % | a write must not plan an employee above 100 %, so the hand-set rows are re-checked as well; the same write is then refused (`LedgerFindings.EmployeeChangeRefused`) | medium, not executed | LedgerFindings.EmployeeChangeOverbooks | LedgerOps.WriteRecheckedKeepsInvariants |
| resource_planning_report/models/report_wizard.py:39 | `@api.constrains` without field names: Odoo registers the check for no field, so it never runs on save | start week 12 of 2021, end week 12 of 2020: the range is saved | `@api.constrains('start_week', 'end_week')`, refusing a start after the end, as `test_report_wizard.py:98-119` expects | high, not executed | ReportWizard.SaveWeeksAsWrittenAcceptsReversed | ReportWizard.SaveWeeks |
| resource_planning/models/weekly_resource.py:34 | `self.employee.get_total_workload(self.week_id)`: `hr.employee` has no such method in this add-on (`employee.py:15` defines `compute_total_workload`) | any row with a workload in 0..100, e.g. a lone 40 % row: AttributeError, so assigning it, and creating any resource with a project week, fails | call `compute_total_workload`, refusing only a total above 100 | high, not executed | WeeklyFindings.AddMissingAsWrittenFails | LedgerWeekly.WeeklyWriteResult |
