# Company ERP extension: a verified model of its business logic

The repository extends an ERP host with hooks and endpoints for a small
company: leave allocation and approval, salary slips, holiday lists,
attendance reports, invoice and purchase collections, document reference
numbers, asset assignments, a chat broadcaster, a lead workflow, timesheets
and the Leave Application form. Almost everything is stored through the
host's ORM. This project models the business logic around those calls.

Each table is a sequence (or map) of records. Each query is a filter over it.
"Today", "now", the host's naming of new documents and the session user are
parameters. A `frappe.throw` becomes an `Err`/`Fail` value, never a
precondition. The value carries the message, abbreviated where "## Left out"
says so.

Modules, one per concern of the source:

- `Calendar`: proleptic Gregorian dates, as the host date library provides
  them (`toordinal`, `weekday`, `add_days`, `add_months`, first and last day
  of a month).
- `Text`: `str(n)`, `int(s)`, `str.zfill`, `split("/")[-1]`, `lower()` and
  string order.
- `Wrappers` and `Sums`: `Option`, `Result`, `Outcome`, `flt`, and sums over
  sequences.
- `RefNumbers`: financial-year reference numbers `<SERIES>/<YY-YY>/<NNN>`.
- `Collections` and `SettlementReport`: invoice and purchase collections, and
  the Purchase Settlement report.
- `Probation`: the three probation rules.
- `LeaveData`: the Leave Allocation record and the table operations it needs.
- `MonthlyAllocation`: the monthly allocation run and its preview.
- `AllocationRules`: the Leave Allocation document hooks.
- `CarryForward`: the carry-forward cascade.
- `Deduction`: approving a Leave Application, in two versions:
  - `Approve`, with the overflow corrected;
  - `ApproveAsWritten`, exactly as written.
- `LeaveBalance`: the balance check and the save-time validation.
- `Ledger`: the class `LeaveBook`, holding the Leave Allocation table that the
  hooks update in place.
- `Payroll`: the salary-slip day loop and proration.
- `Holidays`: the holiday-list template and `is_working_day`.
- `MissingDays`: the missing-attendance and missing-timesheet scans.
- `TimeFormat`: `format_timedelta` and the Permission wording.
- `AttendanceReport`: the gap-analysis report.
- `ChatQueue`: the Manual Chat Message class and its queue.
- `LeadWorkflow`: the Lead Workflow rebuild.
- `AssetAssignments`: asset availability.
- `Timesheets`: timesheet totals.
- `LeaveForm`: the Leave Application form's decisions.

Money, day counts and minutes are exact reals.

Where the code base contradicts itself, both versions are modelled and the
lemmas state where they differ:

- **Probation.** Three rules are modelled:
  - `InProbationForMonth`: strict `>` against the month start.
  - `ProbationInfo`: inclusive of the end date.
  - `InProbationToday`: `today < end`, which ignores the skip flag.
- **Reset months.** There are two rules:
  - the allocation run's `(month - 1) % interval == 0`;
  - the cascade's count of earlier allocations modulo 3.

  `CarryForward.NextTargetRule` states the cascade's rule as an
  if-and-only-if. `MonthlyAllocation.ResetRulesDiverge` exhibits a
  February/March/April table where the two disagree: the run treats April as
  a reset month and carries nothing into it, while the cascade still moves
  March's change on to April.
- **`has_approved_leave`.** It is defined twice. The later definition (on
  `workflow_state` and `docstatus`) is the one in effect.
- **Half day.** The server deducts 0.5. The form shows the day count minus
  0.5.

## Model

| member | source | states |
|---|---|---|
| RefNumbers.FiscalYear | company/company/api.py:25-33 | the financial year is (y-1, y) before April and (y, y+1) from April; it is one year long and contains the current year |
| RefNumbers.FiscalYearContainsToday | company/company/api.py:25-35 | today lies between 1 April of the start year and 31 March of the end year |
| RefNumbers.TwoDigitYear | company/company/api.py:35 | `str(y)[-2:]` is one or two decimal digits |
| RefNumbers.LatestWithPrefix | company/company/api.py:38-42 | the reference found is in the table, carries the series/FY prefix and is the newest that does (no later reference carries it); none is found only when no reference carries it |
| RefNumbers.NextNumber | company/company/api.py:44-48 | next number is 1 without a previous reference, else the parsed last segment plus one; an unparsable segment is an error |
| RefNumbers.NextPreview | company/company/api.py:23-50 | the preview succeeds exactly when the next number can be computed, and starts with `<series>/<YY-YY>/` |
| RefNumbers.EstimationPreview | company/company/api.py:23-50 | estimation references start with `IB-E/` |
| RefNumbers.InvoicePreview | company/company/api.py:61-88 | invoice references start with `IB-I/` |
| RefNumbers.ExpensePreview | company/company/api.py:240-268 | expense references start with `EXP/` |
| RefNumbers.PreviewRoundTrip | company/company/api.py:44-50 | parsing the last `/`-segment of a generated reference gives its number back, the segment has at least 3 characters, and storing it makes the next number one higher |
| RefNumbers.NoSlashInZFilled | company/company/api.py:50 | a zero-filled number never contains `/`, so it is the last segment |
| RefNumbers.BeforeInsertRef | company/company/api.py:53-56 | a reference already set is kept; an empty one is replaced by the preview |
| RefNumbers.BeforeInsertExpense | company/company/api.py:271-275 | an empty expense number becomes the preview and the document name becomes the same value; a set one is kept |
| Text.ParseZFilledInt | company/company/api.py:45-50 | `int(str(n).zfill(w)) == n` for every integer n and width w |
| Text.LastSegmentOfSuffix | company/company/api.py:45 | the last `/`-segment of `prefix/tail` is `tail` when tail has no `/` |
| Collections.ClampedBalance | company/company/api.py:120-122 | the balance is `grand_total - collected` raised to 0; it is never negative |
| Collections.UpdateBalance | company/company/api.py:107-127 | only the payment's own bill changes; its received amount is the collected sum and its balance the clamped difference; no bill, no change |
| Collections.ValidatePayment | company/company/api.py:129-156 | a payment is rejected exactly when it has an existing bill and the other payments of that bill plus its amount exceed the grand total; the purchase twin (api.py:190-216) is the same rule |
| Collections.ValidatePurchaseEdit | company/company/api.py:218-224 | a saved purchase with any collection cannot be edited; a new one always can |
| Collections.WithoutCollected | company/company/api.py:141-145 | the `name != doc` sum equals the collected sum of the table without that payment |
| Collections.SavedTotal | company/company/api.py:147 | the amount the guard compares is the bill's collected total after the save |
| Collections.AcceptedPaymentBalances | company/company/api.py:107-156 | after an accepted payment is saved and the balance recomputed, received ≤ grand total and received + balance = grand total |
| SettlementReport.PaidMap | company/company/report/purchase_settlement_report/purchase_settlement_report.py:91 | the map holds exactly the purchases that have a payment group, each under its own name |
| SettlementReport.RowFor | company/company/report/purchase_settlement_report/purchase_settlement_report.py:97-114 | paid + pending = grand total; paid is 0 and date and mode are empty without payments; otherwise paid is the group's sum |
| SettlementReport.GetData | company/company/report/purchase_settlement_report/purchase_settlement_report.py:74-116 | one row per purchase, in query order, each built from the paid map; no purchases give no rows |
| SettlementReport.Summary | company/company/report/purchase_settlement_report/purchase_settlement_report.py:122-147 | exactly three cards with the captions Total Purchase Amount, Total Paid and Total Pending; their values are the column sums, which `SummaryPendingIsDifference` relates |
| SettlementReport.PendingSum | company/company/report/purchase_settlement_report/purchase_settlement_report.py:124-126 | over rows where paid and pending split the total, the pending sum is the total sum minus the paid sum |
| SettlementReport.SummaryPendingIsDifference | company/company/report/purchase_settlement_report/purchase_settlement_report.py:95-147 | on the report's rows, Total Pending = Total Purchase Amount − Total Paid |
| SettlementReport.UnpaidPurchase | company/company/report/purchase_settlement_report/purchase_settlement_report.py:97-113 | a purchase without payments shows 0 paid, its whole total pending, no date and no mode |
| SettlementReport.OverpaidShowsNegative | company/company/report/purchase_settlement_report/purchase_settlement_report.py:100 | pending is not clamped: an overpaid purchase shows a negative pending amount |
| Calendar.AddMonths | company/company/api.py:403 | `add_months`: the month index moves by n, the day is clipped to the target month's length, and a forward move always exists |
| Calendar.Weekday | company/company/api.py:877 | `weekday()` lies in 0..6 |
| Calendar.NextDay | company/company/api.py:2424-2440 | `add_days(d, 1)`: the ordinal grows by exactly one |
| Calendar.PrevDay | company/company/report/attendance_report/attendance_report.py:180 | `add_days(d, -1)`: the ordinal drops by exactly one, for every date after 0001-01-01 |
| Calendar.OrdInjective | company/company/report/attendance_report/attendance_report.py:124-182 | two dates with the same ordinal are the same date, so date comparisons follow the ordinal |
| Probation.ProbationEnd | company/company/api.py:403 | joining date plus three calendar months, later than the joining date |
| Probation.ProbationInfo | company/company/api.py:342-366 | in probation only with an employee, a joining date and no skip flag, and only up to and including the end date, which it returns |
| Probation.MonthRuleIsTodayRule | company/company/api.py:401-405 | for an employee who does not skip probation, the allocation rule is the `today < end` rule applied to the month's first day |
| Probation.InclusiveRuleDiffersOnEndDay | company/company/api.py:361 | the inclusive rule says "in probation" exactly when the strict rule does or the day is the end day |
| Probation.SkipFlagIgnoredByTodayRule | company/company/api.py:2495-2518 | an employee marked to skip probation is out of probation for allocation and probation info, yet in probation for `is_employee_in_probation` |
| LeaveData.SortByFrom | company/company/api.py:1344 | `order_by="from_date asc"`: sorted by from date and a permutation of the table (same multiset, so same length and members) |
| LeaveData.Filter | company/company/api.py:1335-1345 | a query keeps exactly the rows satisfying its filter and is never longer than the table |
| MonthlyAllocation.BaseCount | company/company/api.py:390-394 | Paid Leave 1, Unpaid Leave 30, Permission 120 |
| MonthlyAllocation.ResetInterval | company/company/api.py:454-462 | the interval is 3, 4, 6 or 12, and 3 when no frequency is set or it is unknown |
| MonthlyAllocation.Carry | company/company/api.py:448-480 | carry is never negative; it is 0 except for Paid Leave outside a reset month with a previous allocation, where it is that allocation's balance |
| MonthlyAllocation.ResetRulesDiverge | company/company/api.py:448-480 | for one employee's approved Paid Leave allocations of February, March and April: the run's default interval makes April a reset month with nothing carried, while the cascade (api.py:1260-1292) still targets April from March |
| MonthlyAllocation.Window | company/company/api.py:378-382 | the month's first and last day; every month 1..12 of a year after 1 exists; a month outside 1..12 does not |
| MonthlyAllocation.Previous | company/company/api.py:425-436 | a found previous allocation is an approved row of that employee and type spanning last month; none is found only when no row is |
| MonthlyAllocation.ActiveOnly | company/company/api.py:384-388 | exactly the active employees |
| MonthlyAllocation.AutoAllocate | company/company/api.py:371-507 | an error exactly when the month does not exist; otherwise the tally of running every active employee through the per-employee allocation, starting from the stored table |
| MonthlyAllocation.AutoAllocateAccounts | company/company/api.py:371-507 | from the entry point: created + skipped + errors + employees in probation = 3 × active employees, old rows kept in front, and the table grows by exactly the created allocations |
| MonthlyAllocation.AllocateOneCreates | company/company/api.py:407-497 | each step is withheld (exactly Paid Leave in probation), skipped, rejected or created; a creation appends one approved allocation for the month with nothing taken and base + carry allocated, only when none existed |
| MonthlyAllocation.AllocateOneNoDuplicate | company/company/api.py:413-422 | after a step that is not withheld or rejected, the month has its allocation; an existing one leaves the table unchanged |
| MonthlyAllocation.AllocateTypesAccounts | company/company/api.py:407-497 | per employee, every leave type ends created, skipped, rejected or withheld; rows grow by the number created and old rows are kept |
| MonthlyAllocation.WithheldPerEmployee | company/company/api.py:401-411 | of the three leave types exactly one (Paid Leave) is withheld for an employee in probation, none otherwise |
| MonthlyAllocation.AllocateAllAccounts | company/company/api.py:396-497 | created + skipped + errors + employees in probation = 3 × employees; rows grow exactly by the created ones |
| MonthlyAllocation.ProbationWithholdsPaidLeave | company/company/api.py:410-411 | a Paid Leave step in probation leaves tally and table untouched |
| MonthlyAllocation.FixedTypesIgnoreCarry | company/company/api.py:477-489 | a created Unpaid Leave or Permission allocation is exactly 30 or 120 |
| MonthlyAllocation.Proposals | company/company/api.py:310-325 | at most one proposal per leave type |
| MonthlyAllocation.Preview | company/company/api.py:278-339 | an error exactly for a non-existent month; otherwise row i is the i-th active employee, with name, employee id, employee name, joining date, the month-start probation flag and that employee's three proposals |
| MonthlyAllocation.PreviewProposals | company/company/api.py:300-325 | in probation the preview proposes exactly Unpaid Leave 30 and Permission 120; otherwise three proposals starting with Paid Leave 1 |
| MonthlyAllocation.SkippedImpliesPreviewExists | company/company/api.py:314-319 | whatever the run skips as existing, the preview marks as existing (its test omits the end date) |
| AllocationRules.ValidateBalance | company/company/doctype/leave_allocation/leave_allocation.py:14-17 | rejects exactly when allocated < taken |
| AllocationRules.ValidateOverlap | company/company/doctype/leave_allocation/leave_allocation.py:19-40 | passes when from or to date is missing; otherwise fails on the first conflicting row |
| AllocationRules.Validate | company/company/doctype/leave_allocation/leave_allocation.py:10-12 | a save passes exactly when both the balance rule and the overlap rule pass |
| AllocationRules.OverlapRejectsIffConflict | company/company/doctype/leave_allocation/leave_allocation.py:23-40 | with both dates set, rejected iff some row of the same employee and type, not cancelled and not itself, matches a BETWEEN test |
| AllocationRules.BetweenTestsMeanSharedDay | company/company/doctype/leave_allocation/leave_allocation.py:30-34 | for well-formed ranges the three BETWEEN tests hold iff the closed intervals share a day |
| AllocationRules.NeverConflictsWithItself | company/company/doctype/leave_allocation/leave_allocation.py:29-35 | a document never conflicts with its stored row, named or "New" |
| AllocationRules.CancelledNeverConflicts | company/company/doctype/leave_allocation/leave_allocation.py:28 | cancelled allocations (docstatus 2) never block a save |
| AllocationRules.SyncManualChanges | company/company/doctype/leave_allocation/leave_allocation.py:45-66 | no-op unless Paid Leave with a previous version, and no-op for a zero net change |
| AllocationRules.SyncRaisesLaterMonths | company/company/doctype/leave_allocation/leave_allocation.py:55-66 | raising the balance by k raises the allocated amount of each row the cascade touches (`Touched`) by exactly k; every other row is unchanged |
| AllocationRules.SyncChangesOnlyCarryTargets | company/company/doctype/leave_allocation/leave_allocation.py:55-66 | a row the sync changes is a later month's approved Paid Leave allocation of the same employee, raised by exactly k |
| CarryForward.MonthIndex | company/company/api.py:1267-1277 | a found index is inside the table |
| CarryForward.MonthIndexMatches | company/company/api.py:1267-1277 | the found row is the approved allocation of that employee and type starting on that month |
| CarryForward.NextTarget | company/company/api.py:1260-1292 | a target is only for Paid Leave, is next month's approved allocation of that employee, and brings the cascade strictly closer to its end |
| CarryForward.MonthIndexNone | company/company/api.py:1267-1277 | no index is found exactly when no row is that month's approved allocation |
| CarryForward.NextTargetRule | company/company/api.py:1260-1292 | the cascade continues if and only if the type is Paid Leave, next month's allocation exists, and the count of earlier allocations is not a multiple of 3 |
| CarryForward.ShapeDecides | company/company/api.py:1267-1290 | the cascade's lookups read only names, employees, types, states and dates, so tables differing in amounts alone give the same answers |
| CarryForward.Cascade | company/company/api.py:1253-1298 | the recursion keeps the table's length |
| CarryForward.TouchedAreCarryTargets | company/company/api.py:1260-1298 | every row the cascade lowers is a later approved Paid Leave allocation of the employee |
| CarryForward.CascadeClosedForm | company/company/api.py:1253-1298 | the cascade lowers each touched row's allocated amount by exactly delta and leaves every other row as it was |
| CarryForward.CascadeEffect | company/company/api.py:1294-1298 | each row either is unchanged or is a carry target lowered by delta |
| CarryForward.CascadeKeepsShape | company/company/api.py:1294-1295 | only allocated amounts change; names stay unique |
| CarryForward.CascadeTouchesAgain | company/company/api.py:1253-1298 | after a cascade the same rows would be touched again |
| CarryForward.CascadeAdditive | company/company/api.py:1253-1298 | cascading d1 then d2 from the same month equals cascading d1 + d2 |
| CarryForward.CascadeZero | company/company/api.py:1253-1298 | a zero delta changes nothing |
| CarryForward.CascadeInverse | company/company/api.py:1253-1298 | cascading delta and then −delta restores the table |
| Deduction.AmountToAdd | company/company/api.py:1317-1332 | Permission: the minutes, an error when zero; otherwise 0.5 for a half day, else the inclusive day count |
| Deduction.Request | company/company/api.py:1305-1332 | returns nothing to do exactly when the state is not Approved, it was already Approved before the save, or the leave type or employee is missing; otherwise the amount to add, or the error `to_add` raises with its message |
| Deduction.SnapshotFacts | company/company/api.py:1335-1345 | the fetched list is sorted by from date and has unique names |
| Deduction.Deduct | company/company/api.py:1359-1364 | each allocation gives min(remainder, available): between 0 and the remainder, never more than its room |
| Deduction.Grants | company/company/api.py:1355-1376 | one grant per fetched allocation |
| Deduction.GrantsAccount | company/company/api.py:1352-1376 | grants plus leftover equal the request; the leftover lies between 0 and the request; no grant exceeds its room |
| Deduction.GrantsExhaust | company/company/api.py:1379 | with enough total room there is no leftover, so the overflow never runs |
| Deduction.DistributeAccounting | company/company/api.py:1352-1376 | the loop's remainder is the reference leftover and its breakdown sums to the total grants |
| Deduction.DistributeTable | company/company/api.py:1355-1376 | after the loop each fetched allocation holds its pre-loop taken amount plus its grant; other documents keep theirs |
| Deduction.MergeReport | company/company/api.py:1391-1404 | the overflow updates a line in place or appends exactly one line for the last allocation |
| Deduction.MergeReportSum | company/company/api.py:1391-1404 | the breakdown grows by exactly the overflow amount |
| Deduction.MergeReportAt | company/company/api.py:1393-1398 | the first line with the name gets the extra amount and the new total; nothing else changes |
| Deduction.MergeReportAbsent | company/company/api.py:1399-1404 | without a line for the name, one line is appended |
| Deduction.Approve | company/company/api.py:1300-1415 | corrected hook: the unchanged table when a guard returns early, the request's error exactly when it fails, and otherwise the corrected placement of the requested amount |
| Deduction.ApproveAsWritten | company/company/api.py:1300-1415 | hook as written: the same guards and errors, and otherwise the placement as written |
| Deduction.ApproveAccounts | company/company/api.py:1300-1415 | when the hook acts on a positive amount: the corrected hook stores and reports exactly the request; as written it reports the request but stores less by the last allocation's loop grant on overflow |
| Deduction.PlaceTable | company/company/api.py:1352-1389 | corrected: each fetched allocation gains its grant, the last also the leftover; other documents unchanged |
| Deduction.PlaceAsWrittenTable | company/company/api.py:1379-1389 | as written: on overflow the last allocation ends at its pre-loop amount plus the leftover, losing its loop grant |
| Deduction.PlaceConserves | company/company/api.py:1351-1389 | corrected: the fetched allocations' taken amounts grow by exactly the request |
| Deduction.PlaceAsWrittenShortfall | company/company/api.py:1381 | as written: with an overflow they grow by the request minus the last allocation's loop grant |
| Deduction.ReportAccountsForRequest | company/company/api.py:1372-1404 | in both versions the breakdown message adds up to the request |
| Deduction.NothingToPlace | company/company/api.py:1347-1357 | with no allocation or no positive amount, the table is unchanged |
| Deduction.EnoughRoomAgrees | company/company/api.py:1379 | with room for the whole request the two versions agree |
| Deduction.OverflowLosesLoopGrant | company/company/api.py:1379-1386 | concrete case: 2 days of room, 3 days requested: the corrected hook stores 3 taken, the code as written stores 1 |
| LeaveBalance.Overlaps | company/company/api.py:1095-1105 | exactly the approved allocations of the employee and type that share a day with the range |
| LeaveBalance.CheckBalance | company/company/api.py:1086-1142 | an error exactly for Permission without minutes; remaining is allocated − taken over the overlapping allocations; allowed iff remaining ≥ requested; unit Minutes or Days |
| LeaveBalance.ValidateLeaveBalance | company/company/api.py:1145-1190 | rejected with "Employee and Leave Type are required." when either field is missing; the other messages (duplicate permission with its ISO date) are in the body, and `ValidatePassesIff` states the whole decision |
| LeaveBalance.ValidatePassesIff | company/company/api.py:1145-1190 | a save passes iff both fields are set, the amount is valid and covered by the remaining balance, and no approved leave (ordinary) or same-day permission (Permission) conflicts |
| LeaveBalance.CheckedAmountIsDeducted | company/company/api.py:1113-1133 | the amount checked at save time is the amount the approval deducts (api.py:1320-1331) |
| LeaveBalance.TotalAvailableIsSum | company/company/api.py:1361 | total room is the sum of per-allocation room |
| LeaveBalance.BalanceBelowRoom | company/company/api.py:1107-1111 | allocated − taken over a selection is at most the room over any larger selection |
| LeaveBalance.RemainingWithinSnapshot | company/company/api.py:1095-1111 | the balance checked is never more than the room the approval hook later finds (api.py:1335-1345) |
| LeaveBalance.ValidatedRequestNeverOverflows | company/company/api.py:1145-1166 | an application that passed validation, approved against the same table, makes the corrected and the as-written hooks agree |
| LeaveBalance.DefinitionsDisagree | company/company/api.py:1556-1575 | a submitted workflow-approved application whose status says otherwise blocks only under the later definition (api.py:1194-1207 is the shadowed one) |
| Ledger.CoveringIndex | company/company/api.py:1054-1065 | a found allocation is approved, of that employee and type, and covers the date; none is found only when no row does |
| Ledger.AttendanceUpdateEffect | company/company/api.py:1048-1081 | the hook changes nothing, or moves one allocation's taken amount by exactly ±1 within its bounds; names stay unique and other documents are unchanged |
| Ledger.AttendanceRoundTrip | company/company/api.py:1075-1081 | marking a day On Leave and then Present again restores the table, when the first update took effect |
| Ledger.LeaveBook.constructor | company/company/api.py:1335-1345 | the book holds the given Leave Allocation table |
| Ledger.LeaveBook.SetTakenValue | company/company/api.py:1366 | `set_value` of total_leaves_taken on the named document |
| Ledger.LeaveBook.SyncFuture | company/company/api.py:1253-1298 | the recursive method leaves the table equal to the cascade |
| Ledger.LeaveBook.MergeOverflow | company/company/api.py:1391-1404 | the search loop over the breakdown computes the merged breakdown |
| Ledger.LeaveBook.DeductInOrder | company/company/api.py:1351-1376 | the deduction loop yields the reference distribution: table, remainder and breakdown |
| Ledger.LeaveBook.Settle | company/company/api.py:1378-1404 | the overflow branch from the last allocation's current taken amount |
| Ledger.LeaveBook.PlaceAmount | company/company/api.py:1351-1404 | loop plus overflow give the corrected placement |
| Ledger.LeaveBook.ApproveLeave | company/company/api.py:1300-1415 | the table and reply are those of the corrected approval; an error leaves the table unchanged |
| Ledger.LeaveBook.AttendanceChanged | company/company/api.py:1048-1081 | the in-place ±1 update equals the attendance update function |
| Ledger.LeaveBook.AllocateStep | company/company/api.py:407-497 | one inner-loop step equals the allocation step function |
| Ledger.LeaveBook.AllocateEmployee | company/company/api.py:407-497 | the loop over the three leave types equals the per-employee allocation |
| Ledger.LeaveBook.AutoAllocateMonthly | company/company/api.py:371-507 | the run leaves the table of the allocation function and returns its done message; an error leaves the table unchanged |
| Payroll.RecordOn | company/company/api.py:586 | a found record is of that employee and day with docstatus 0 or 1; none is found only when no such record exists |
| Payroll.DayEffect | company/company/api.py:584-653 | a holiday counts present only; no record is one absent leave day; each day adds at most 1 to present + absent and at most 1 to total leave, paid ≤ total |
| Payroll.CountDays | company/company/api.py:578-653 | the day loop's counters are the tally over every day of the month |
| Payroll.TallyBounds | company/company/api.py:578-653 | over n days: 0 ≤ paid leave ≤ total leave ≤ n, and present + absent ≤ n |
| Payroll.Prorate | company/company/api.py:655-682 | grand gross + lop = gross; total deduction = base + lop; net = grand gross − base; lop days = total − paid leave; lop is gross × lop days / working days |
| Payroll.LopWithinGross | company/company/api.py:677-680 | with lop days in [0, working days], 0 ≤ lop ≤ gross |
| Payroll.MonthLopWithinGross | company/company/api.py:578-682 | for every month's counters, lop days lie in [0, days] and lop in [0, gross] |
| Payroll.Slips | company/company/api.py:556-716 | exactly one slip per employee without one for the period, in order, each being that employee's `SlipFor` |
| Payroll.Unslipped | company/company/api.py:556-563 | the employees kept are exactly those whose name has no slip for the period |
| Payroll.Selected | company/company/api.py:535-550 | the selected employees, or all when none is selected |
| Payroll.CreateSlips | company/company/api.py:556-716 | the loop over the selected employees yields exactly the reference slips, with created = slips and created + skipped = employees |
| Payroll.GenerateSlips | company/company/api.py:513-725 | an error exactly without a valid year and month, "Please provide year and month" exactly when the year or month is missing (0); otherwise one slip per selected employee without one, created + skipped = selected, and the reply "Salary Slips Created: n, Skipped: m" |
| Holidays.CountWorking | company/company/api.py:890-892 | the working-day count never exceeds the rows |
| Holidays.PopulateHolidays | company/company/api.py:864-904 | one row per day of the month, in order, each the template row of its day, and working_days counts the rows marked working; an invalid month or year is an error (`bad month number N; must be 1-12` for the month) |
| Holidays.WeekdayOfDay | company/company/api.py:876-877 | weekdays advance by one per day within a month |
| Holidays.SaturdaysClosedForm | company/company/api.py:884-885 | the running Saturday count has a closed form in the first day's weekday |
| Holidays.OffSaturdays | company/company/api.py:884-888 | a Saturday on day k is the ((k−1)/7+1)-th, so exactly the Saturdays on days 8-14 and 22-28 are off |
| Holidays.WorkingDaysCount | company/company/api.py:871-903 | working_days = days − off days (Sundays and 2nd/4th Saturdays) |
| Holidays.ListFor | company/company/api.py:2898-2902 | a found list is of that year and month; none is found only when no list matches |
| Holidays.OffDates | company/company/api.py:855-857 | exactly the dates of rows marked non-working |
| Holidays.HolidayDatesForMonth | company/company/api.py:840-860 | no list, no dates; with a list, exactly its off dates |
| Holidays.StoredTemplateDecides | company/company/api.py:2883-2912 | once the template is stored as the month's list, `is_working_day` agrees with it on every day |
| MissingDays.ScanExact | company/company/api.py:2172-2190 | a scan holds exactly the selected days of the range |
| MissingDays.ScanOrdered | company/company/api.py:2421-2440 | scans are in strictly increasing date order and no longer than the range |
| MissingDays.HolidaysBetween | company/company/api.py:2130-2148 | the holidays counted lie within the range |
| MissingDays.CountMissing | company/company/api.py:2121-2190 | the loop counts the days in range, on or after joining, not holidays, without attendance |
| MissingDays.MissingWithinRange | company/company/api.py:2168-2190 | the missing count is at most the days of the range |
| MissingDays.MissingExact | company/company/api.py:2172-2190 | a day counts iff it is in the range, on or after joining, not a holiday and has no attendance |
| MissingDays.FullAttendanceNoMissing | company/company/api.py:2182-2188 | with attendance every day, nothing is missing |
| MissingDays.MissingTimesheets | company/company/api.py:2359-2442 | "No employee linked" without an employee; otherwise the ISO dates from the 1st to yesterday that are not Sundays, not holidays and have no timesheet |
| MissingDays.FirstOfMonthListsNothing | company/company/api.py:2374-2375 | on the first of a month the list is empty |
| MissingDays.TimesheetListExact | company/company/api.py:2424-2440 | a day is listed iff in range, not Sunday, not a holiday and without timesheet |
| TimeFormat.Trunc | company/company/api.py:1704 | `int()` truncates toward zero |
| TimeFormat.Split | company/company/api.py:1705-1707 | hours·3600 + minutes·60 + seconds = total, minutes and seconds in 0..59 |
| TimeFormat.FormatTimedelta | company/company/api.py:1700-1708 | an em dash exactly for None |
| TimeFormat.FormatReadsBack | company/company/api.py:1704-1708 | the fields of HH:MM:SS parse back to hours, minutes and seconds recombining to the truncated total |
| TimeFormat.SubSecondIsZero | company/company/api.py:1701-1708 | a difference under one second shows 00:00:00 |
| TimeFormat.MinutesSplit | company/company/api.py:1487-1488 | hrs·60 + mins = minutes with mins in 0..59 |
| TimeFormat.PermissionDuration | company/company/api.py:1487-1498 | a wording exactly when minutes are given |
| TimeFormat.PermissionDurationInjective | company/company/api.py:1491-1498 | different non-negative minutes never read the same |
| TimeFormat.ZeroMinutesWording | company/company/api.py:1497-1498 | "0 min" exactly for zero minutes |
| AttendanceReport.Selected | company/company/report/attendance_report/attendance_report.py:51-60 | exactly the active employees, restricted to the chosen one unless the choice is empty or "all" |
| AttendanceReport.AttendanceOn | company/company/report/attendance_report/attendance_report.py:86-91 | a found mark is that employee's on that day; none only when no such mark exists |
| AttendanceReport.HolidayOn | company/company/report/attendance_report/attendance_report.py:105-118 | a found holiday row is of that day; none only when no row is |
| AttendanceReport.Cell | company/company/report/attendance_report/attendance_report.py:134-173 | a produced row is of that day and employee |
| AttendanceReport.FromDate | company/company/report/attendance_report/attendance_report.py:42-43 | the given date, else the first day of the current month |
| AttendanceReport.ToDate | company/company/report/attendance_report/attendance_report.py:45-46 | the given date, else the last day of the current month |
| AttendanceReport.AppendDay | company/company/report/attendance_report/attendance_report.py:129-178 | the employee loop appends the day's rows in employee order |
| AttendanceReport.WalkBack | company/company/report/attendance_report/attendance_report.py:124-182 | the descending walk yields the rows of every day from to_date down to from_date; it overflows exactly when stepping back from 0001-01-01 |
| AttendanceReport.GetData | company/company/report/attendance_report/attendance_report.py:32-187 | the rows are the report function's |
| AttendanceReport.EmitShape | company/company/report/attendance_report/attendance_report.py:129-178 | rows of a day are dated that day, belong to the employee and pass the status filter; none before joining |
| AttendanceReport.CellCases | company/company/report/attendance_report/attendance_report.py:134-173 | attendance wins iff one exists; a Holiday row needs a non-working holiday; a Missing row exactly when there is no mark, no holiday row, and the day is not after today |
| AttendanceReport.DayRowsMembers | company/company/report/attendance_report/attendance_report.py:129-178 | a day's rows come exactly from the listed employees |
| AttendanceReport.WalkMembers | company/company/report/attendance_report/attendance_report.py:124-182 | the walk holds exactly the rows of the days in range |
| AttendanceReport.WalkDescending | company/company/report/attendance_report/attendance_report.py:124-182 | rows are newest day first |
| AttendanceReport.ReportMembers | company/company/report/attendance_report/attendance_report.py:32-187 | a row appears iff the walk does not overflow, its day is in range and a selected employee's cell on that day yields it past the filter |
| AttendanceReport.ReportDescending | company/company/report/attendance_report/attendance_report.py:123-182 | the report is ordered by date descending |
| AttendanceReport.SelectedDistinct | company/company/report/attendance_report/attendance_report.py:56-66 | selection keeps distinct names distinct |
| AttendanceReport.DayRowsOnePerCell | company/company/report/attendance_report/attendance_report.py:129-178 | at most one row per employee on a day |
| AttendanceReport.WalkOnePerCell | company/company/report/attendance_report/attendance_report.py:124-182 | at most one row per employee and day over the walk |
| AttendanceReport.ReportOnePerCell | company/company/report/attendance_report/attendance_report.py:32-187 | with distinct employee names, at most one row per employee and day |
| ChatQueue.AllUsers | company/company/doctype/manual_chat_message/manual_chat_message.py:136-141 | exactly the enabled users other than Guest and Administrator |
| ChatQueue.FilledRows | company/company/doctype/manual_chat_message/manual_chat_message.py:17 | exactly the non-empty receiver rows |
| ChatQueue.Receivers | company/company/doctype/manual_chat_message/manual_chat_message.py:10-17 | all enabled users when select-all is set, else the filled receiver rows |
| ChatQueue.PendingFor | company/company/doctype/manual_chat_message/manual_chat_message.py:31-32 | one Pending record per receiver, in order, with sender, content and message |
| ChatQueue.PendingReceivers | company/company/doctype/manual_chat_message/manual_chat_message.py:31-32 | the queued records address exactly the receivers, in order |
| ChatQueue.ReceiverColumn | company/company/doctype/manual_chat_message/manual_chat_message.py:44-55 | the receiver column of the queue, one entry per record in order |
| ChatQueue.ManualChatMessage.constructor | company/company/doctype/manual_chat_message/manual_chat_message.py:8-17 | a message with its fields as given and no last-sent date |
| ChatQueue.ManualChatMessage.AddToQueue | company/company/doctype/manual_chat_message/manual_chat_message.py:44-55 | appends one Pending record for this message |
| ChatQueue.ManualChatMessage.QueueAll | company/company/doctype/manual_chat_message/manual_chat_message.py:98-99 | the loop appends the Pending records of all receivers |
| ChatQueue.ManualChatMessage.SendBulkMessages | company/company/doctype/manual_chat_message/manual_chat_message.py:19-42 | a missing sender, content or receiver list is an error with its message and queues nothing; otherwise one Pending record per receiver and their count |
| ChatQueue.ManualChatMessage.ProcessScheduledSend | company/company/doctype/manual_chat_message/manual_chat_message.py:57-113 | nothing changes when unscheduled, already sent on or after today, on a non-working day, or before the trigger time; otherwise all receivers are queued and last_sent_date becomes today |
| ChatQueue.ManualChatMessage.TestScheduledSend | company/company/doctype/manual_chat_message/manual_chat_message.py:115-133 | no date or time gate; an error without receivers, else one Pending record each |
| ChatQueue.SecondRunSameDay | company/company/doctype/manual_chat_message/manual_chat_message.py:76-111 | two scheduled runs on the same day queue at most one batch |
| LeadWorkflow.WithActions | company/company/workflow_utils.py:18-24 | afterwards a "Move to X" action exists for every state X; existing actions are kept in front |
| LeadWorkflow.WithActionsDistinct | company/company/workflow_utils.py:20-21 | only missing actions are inserted, so no duplicate arises |
| LeadWorkflow.Numbered | company/company/workflow_utils.py:29-44 | one transition per move |
| LeadWorkflow.OtherWorkflows | company/company/workflow_utils.py:27 | the delete keeps exactly the transitions of other workflows |
| LeadWorkflow.RowMembers | company/company/workflow_utils.py:31-33 | the inner loop for s yields exactly the moves from s to each different state |
| LeadWorkflow.RowLength | company/company/workflow_utils.py:31-33 | a row has one move per state other than s |
| LeadWorkflow.MovesMembers | company/company/workflow_utils.py:30-33 | a move is generated iff it joins two different states of the list |
| LeadWorkflow.MovesLength | company/company/workflow_utils.py:30-33 | with distinct states, n states give n(n−1) moves |
| LeadWorkflow.NumberedFields | company/company/workflow_utils.py:34-43 | transition k has idx k+1, state, "Move to " + next state, that next state, and allowed "All" |
| LeadWorkflow.TransitionCount | company/company/workflow_utils.py:29-47 | with n distinct states the workflow gets n(n−1) transitions |
| LeadWorkflow.WorkflowStore.constructor | company/company/workflow_utils.py:4-15 | the store holds the given action masters and transitions |
| LeadWorkflow.WorkflowStore.EnsureActions | company/company/workflow_utils.py:18-24 | the action loop leaves the action masters of WithActions |
| LeadWorkflow.WorkflowStore.RebuildTransitions | company/company/workflow_utils.py:27-44 | delete then nested loops: other workflows' transitions followed by the numbered moves; the count is the number of moves |
| LeadWorkflow.WorkflowStore.InsertRow | company/company/workflow_utils.py:31-43 | the inner loop appends its row numbered after those inserted so far |
| LeadWorkflow.WorkflowStore.UpdateLeadWorkflow | company/company/workflow_utils.py:4-47 | with no states nothing changes; otherwise actions and transitions are rebuilt and the count returned |
| AssetAssignments.OtherHolder | company/company/doctype/asset_assignment/asset_assignment.py:16-25 | a found row is another unreturned assignment of the asset; none only when no such row exists |
| AssetAssignments.CheckAvailability | company/company/doctype/asset_assignment/asset_assignment.py:11-30 | fails iff an asset is set and another assignment of it is unreturned |
| AssetAssignments.Upsert | company/company/doctype/asset_assignment/asset_assignment.py:8-9 | saving replaces the row of that name, or appends the record |
| AssetAssignments.Save | company/company/doctype/asset_assignment/asset_assignment.py:8-30 | a save fails iff the check fails; a saved record is in the table |
| AssetAssignments.UpsertRows | company/company/doctype/asset_assignment/asset_assignment.py:8-9 | every row after a save is the new record in its old place or at the end, or an untouched row of another name |
| AssetAssignments.SaveKeepsOneHolder | company/company/doctype/asset_assignment/asset_assignment.py:12-30 | if every save passes validation, names stay unique and each asset has at most one unreturned assignment |
| Timesheets.TotalHours | company/company/doctype/timesheet/timesheet.py:12-13 | None or no entries give 0 |
| Timesheets.TotalOfConcat | company/company/doctype/timesheet/timesheet.py:13 | the total of joined entry lists is the sum of their totals |
| Timesheets.TotalOfAppend | company/company/doctype/timesheet/timesheet.py:13 | appending an entry raises the total by its hours |
| Timesheets.Timesheet.constructor | company/company/doctype/timesheet/timesheet.py:8-9 | a timesheet with the given entries and stored total |
| Timesheets.Timesheet.CalculateTotalHours | company/company/doctype/timesheet/timesheet.py:9-13 | the stored total becomes the entries' sum, whatever it was, so a second run changes nothing |
| LeaveForm.Recalculate | company/company/doctype/leave_application/leave_application.js:24-57 | a field change runs the calculation, and once more when it clears the permission field; the result is stable under a further run, keeps or clears the permission value, and with all fields set shows the day count with a permission value of 0 or at least 10 |
| LeaveForm.CalculateTotalDays | company/company/doctype/leave_application/leave_application.js:35-57 | total 0 while a field is missing; a non-zero value under 10 clears the permission field and nothing else; otherwise total = days + 1, less 0.5 for a half day |
| LeaveForm.FullDaysAgree | company/company/doctype/leave_application/leave_application.js:50 | a full-day total equals the server's inclusive day count (api.py:1329) |
| LeaveForm.HalfDayAgreesOnlyOnOneDay | company/company/doctype/leave_application/leave_application.js:53-55 | the form's half-day total equals the server's 0.5 (api.py:1331) iff the range is one day |
| LeaveForm.FirstEmpty | company/company/doctype/leave_application/leave_application.js:163 | the index of the first empty round; none only when all are used |
| LeaveForm.HrReply | company/company/doctype/leave_application/leave_application.js:161-180 | "Maximum communication rounds (5) reached." iff all HR rounds are used; else the question fills the first empty one, nothing else changes |
| LeaveForm.HrReplyKeepsPacked | company/company/doctype/leave_application/leave_application.js:162-180 | HR rounds stay filled from the first one on, without gaps, and one more is used |
| LeaveForm.Used | company/company/doctype/leave_application/leave_application.js:162 | used rounds never exceed the rounds |
| LeaveForm.UsedReplace | company/company/doctype/leave_application/leave_application.js:162-180 | filling an empty round with a non-empty question uses exactly one more round |
| LeaveForm.PendingRound | company/company/doctype/leave_application/leave_application.js:221-227 | −1 iff no round has an HR question without an answer; otherwise the first such round |
| LeaveForm.EmployeeReply | company/company/doctype/leave_application/leave_application.js:216-246 | "No pending HR queries to reply to." iff no round is pending; else the reply fills the first pending round, nothing else changes |
| LeaveForm.LeaveFieldsReadOnly | company/company/doctype/leave_application/leave_application.js:276-283 | only submitted forms are governed; leave fields are editable iff the state is "Clarification Requested" and the user is an Employee |

## Left out

- Persistence, the ORM and SQL text are not modelled. Queries are filters
  over in-memory sequences, and `frappe.db.commit` has no counterpart.
- Query order is not modelled where the source leaves it to the database
  (employees, attendance rows, holiday lists). The model takes the sequences
  in the order given.
- Notifications and messaging are outside the model: push notifications,
  e-mails and PDFs, `msgprint` and logger output. Only their decisions are
  modelled.
- `frappe.enqueue` and `process_chat_message_queue` are background-worker
  coordination. The model stops at inserting Pending queue records.
- Floating point is not modelled. `flt` amounts, day fractions and minutes
  are exact reals, so no claim is made about rounding.
- The time of day is not modelled. `process_scheduled_send` compares
  `str(now)` with `str(trigger_time)` as text, and the model keeps that text
  comparison (`TimeReached`). A trigger stored without a leading zero (for
  example `9:00:00`) therefore compares differently from the clock time.
  The model states no property about clock times.
- Dates after 9999-12-31 are allowed by the model, although Python rejects
  them.
- JSON parsing of report filters and of the employees argument of the slip
  run is not modelled. Filters arrive already parsed, as optional values.
- The attendance statistics counters other than "missing" (present, absent,
  half day, on leave) are plain counts and are not modelled.
- The asynchronous balance request that `calculate_total_days` sends after
  setting the total is not modelled, nor its reply resetting the total to 0
  (leave_application.js:79). Its server side is `LeaveBalance.CheckBalance`.
- The form's prompts and confirmations are not modelled. Nor are the
  workflow actions applied after a reply or the timer that re-applies
  read-only flags. The model keeps only the field each reply writes and the
  editability decision.
- The fallback paths that catch any exception are reduced to their
  outcomes:
  - `update_lead_workflow`'s error return;
  - the attendance report's empty result on an error;
  - the per-row error messages of the allocation and slip runs.

  The model covers only the failures it can name: an insertion rejected by
  the Leave Allocation validations, a non-existent month, and stepping back
  before 0001-01-01.
- `MonthlyAllocation.AutoAllocate` reports a non-existent month with its
  own message. The host's exception text is not reproduced.
- Exception texts raised by the host or Python are paraphrased where the
  model has to name them. One example is `Holidays.PopulateHolidays` for a
  year before 1. The month error repeats Python's `monthrange` text.
- `Payroll.GenerateSlips` reports a month outside 1-12 as "month must be in
  1..12" and a negative year as "year N is out of range"; the host's date
  parser words these its own way.
- `LeaveBalance.ValidateLeaveBalance`'s insufficient-balance message keeps
  only its first line. The second line, `Available: … Requested: …`, prints
  floats, and Python's float formatting is not modelled.
- `RefNumbers.NextNumber` parses the last segment with ASCII digits and an
  optional sign only. Python's `int()` also strips surrounding whitespace and
  accepts `_` separators and non-ASCII decimal digits; for such a reference
  the model gives `Err` where the source continues numbering.
- `Collections.ExceedsMessage` keeps only the first sentence. The source
  follows it with Grand Total, Already Collected, Trying to Add and
  Remaining Balance lines, which print floats.
- `AllocationRules.BalanceMessage` keeps the `{0}` and `{1}` placeholders.
  The source fills them with the two totals, and float formatting is not
  modelled.
- `Payroll.GenerateSlips`'s reply omits the per-employee error lines (see
  the fallback paths above).
- The success strings "Test complete. Queued ..." and "Queued N messages
  ..." are not modelled. The methods return the count instead.
- The names of new documents come from the host's naming series. They are a
  parameter (`names`).
- The slip document's pass-through fields are not modelled: e-mail, user
  and the individual pay components copied from the Employee.
- UI-only JavaScript is not part of this model: the list-view dialog, the
  chat form script and the report filter declarations.
- The debug script is not part of this model.
- The pure query endpoints (followups, birthdays, announcements, renewals,
  dashboard counts) are not part of this model.

## Findings

| source | as written | input that shows it | evidently intended | confidence | as-written member | corrected member |
|---|---|---|---|---|---|---|
| company/company/api.py:1381 | the overflow sets the last allocation's taken amount to its pre-loop value plus the remainder, overwriting what the loop already deducted from it | one approved allocation with 2 days allocated and 0 taken, and a 3-day request: the loop sets taken to 2 and the overflow then writes 0 + 1 = 1, while the breakdown message reports 3 added | the overflow adds the remainder to the allocation's current taken amount, so the stored amounts grow by exactly the request | not executed | Deduction.OverflowLosesLoopGrant | Deduction.PlaceConserves |
