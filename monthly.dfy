/** Monthly leave allocation: every active employee receives, for the month,
    one approved allocation per leave type, with fixed base amounts, Paid
    Leave withheld during probation and topped up with last month's unused
    balance except in reset months. */
module MonthlyAllocation {
  import opened Wrappers
  import opened Calendar
  import opened Text
  import opened LeaveData
  import opened Probation
  import opened AllocationRules

  /** The leave types in the order the dictionary lists them. */
  const LeaveTypes: seq<string> := [PaidLeave, UnpaidLeave, PermissionLeave]

  /** The base amount per month: one day of Paid Leave, thirty of Unpaid
      Leave, a hundred and twenty minutes of Permission. */
  function BaseCount(leaveType: string): (n: real)
    ensures leaveType == UnpaidLeave ==> n == 30.0
    ensures leaveType == PermissionLeave ==> n == 120.0
    ensures leaveType == PaidLeave ==> n == 1.0
  {
    if leaveType == PaidLeave then 1.0
    else if leaveType == UnpaidLeave then 30.0
    else if leaveType == PermissionLeave then 120.0
    else 0.0
  }

  /** `freq_map.get(reset_frequency or "Every 3 months", 3)`. */
  function ResetInterval(frequency: Option<string>): (n: nat)
    ensures n in {3, 4, 6, 12}
    ensures frequency.None? ==> n == 3
  {
    var f := if frequency.None? || frequency.value == "" then "Every 3 months" else frequency.value;
    if f == "Every 4 months" then 4
    else if f == "Every 6 months" then 6
    else if f == "Whole year" then 12
    else 3
  }

  /** A month that starts a carry-forward period (`(month - 1) % interval == 0`). */
  predicate IsResetMonth(month: int, interval: nat)
    requires interval > 0
  {
    (month - 1) % interval == 0
  }

  /** The unused balance brought forward: only for Paid Leave, never in a
      reset month, never negative, and zero without a previous allocation. */
  function Carry(leaveType: string, month: int, interval: nat, prev: Option<Allocation>): (c: real)
    requires interval > 0
    ensures c >= 0.0
    ensures leaveType != PaidLeave || IsResetMonth(month, interval) || prev.None? ==> c == 0.0
    ensures leaveType == PaidLeave && !IsResetMonth(month, interval) && prev.Some?
            ==> c == Available(prev.value)
  {
    if leaveType != PaidLeave || IsResetMonth(month, interval) then 0.0
    else if prev.Some? then Available(prev.value)
    else 0.0
  }

  /** The month being allocated and the month before it. */
  datatype MonthWindow = MonthWindow(month: int, start: Date, end: Date, prevStart: Date, prevEnd: Date)

  /** `datetime(year, month, 1)` and `add_months(month_start, -1)`: None when
      either date does not exist (the outer `except` turns that into an error). */
  function Window(year: int, month: int): (r: Option<MonthWindow>)
    ensures r.Some? ==> r.value.start == Ymd(year, month, 1) && r.value.end == LastDayOf(r.value.start)
    ensures r.Some? ==> r.value.month == month && 1 <= month <= 12
    ensures 1 <= month <= 12 && year > 1 ==> r.Some?
  {
    if year < 1 || month < 1 || month > 12 then None
    else
      var start: Date := Ymd(year, month, 1);
      match AddMonths(start, -1)
      case None => None
      case Some(prev) => Some(MonthWindow(month, start, LastDayOf(start), FirstDayOf(prev), LastDayOf(prev)))
  }

  /** An approved allocation spanning exactly the given month. */
  predicate IsMonthRow(a: Allocation, employee: string, leaveType: string, start: Date, end: Date)
  {
    a.employee == employee && a.leaveType == leaveType && a.fromDate == start && a.toDate == end
    && a.status == Approved
  }

  predicate ExistsFor(rows: seq<Allocation>, employee: string, leaveType: string, start: Date, end: Date)
  {
    exists i :: 0 <= i < |rows| && IsMonthRow(rows[i], employee, leaveType, start, end)
  }

  /** `frappe.get_value` of last month's allocation. */
  function Previous(rows: seq<Allocation>, employee: string, leaveType: string, w: MonthWindow): (r: Option<Allocation>)
    ensures r.Some? ==> r.value in rows && IsMonthRow(r.value, employee, leaveType, w.prevStart, w.prevEnd)
    ensures r.None? ==> forall a :: a in rows ==> !IsMonthRow(a, employee, leaveType, w.prevStart, w.prevEnd)
  {
    FirstWhereIsFirst(rows, a => IsMonthRow(a, employee, leaveType, w.prevStart, w.prevEnd));
    match FirstWhere(rows, a => IsMonthRow(a, employee, leaveType, w.prevStart, w.prevEnd))
    case None => None
    case Some(k) => Some(rows[k])
  }

  /** The new allocation's amount: the type's base count plus the balance
      carried from the previous month. */
  function NewAmount(rows: seq<Allocation>, e: Employee, leaveType: string, w: MonthWindow, interval: nat): real
    requires interval > 0
  {
    BaseCount(leaveType) + Carry(leaveType, w.month, interval, Previous(rows, e.name, leaveType, w))
  }

  /** The new allocation's document as inserted. */
  function NewAllocation(name: string, e: Employee, leaveType: string, w: MonthWindow, amount: real): Allocation
  {
    Allocation(name, e.name, leaveType, w.start, w.end, amount, 0.0, Approved, 0)
  }

  /** The document `validate` sees on insert. */
  function AsDoc(a: Allocation): AllocationDoc
  {
    AllocationDoc(Some(a.name), a.employee, a.leaveType, Some(a.fromDate), Some(a.toDate),
                  Some(a.totalAllocated), Some(a.totalTaken))
  }

  /** Running state of the allocation loops. */
  datatype Tally = Tally(rows: seq<Allocation>, created: nat, skipped: nat, errors: seq<string>)

  /** Which step of the inner loop body was taken. */
  datatype StepKind = InProbation | AlreadyThere | Rejected | Created

  function StepKindOf(t: Tally, e: Employee, leaveType: string, w: MonthWindow, interval: nat, name: string): StepKind
    requires interval > 0
  {
    if InProbationForMonth(e, w.start) && leaveType == PaidLeave then InProbation
    else if ExistsFor(t.rows, e.name, leaveType, w.start, w.end) then AlreadyThere
    else
      var amount := NewAmount(t.rows, e, leaveType, w, interval);
      if Validate(t.rows, AsDoc(NewAllocation(name, e, leaveType, w, amount))).Fail? then Rejected
      else Created
  }

  /** One pass of the inner loop body for one employee and leave type. The
      inserted document goes through the Leave Allocation validations; a
      rejection is collected as an error line. */
  function AllocateOne(t: Tally, e: Employee, leaveType: string, w: MonthWindow, interval: nat, name: string): Tally
    requires interval > 0
  {
    match StepKindOf(t, e, leaveType, w, interval, name)
    case InProbation => t
    case AlreadyThere => t.(skipped := t.skipped + 1)
    case Rejected =>
      var amount := NewAmount(t.rows, e, leaveType, w, interval);
      var doc := NewAllocation(name, e, leaveType, w, amount);
      t.(errors := t.errors + [e.employeeId + " - " + leaveType + " - " + Validate(t.rows, AsDoc(doc)).msg])
    case Created =>
      var amount := NewAmount(t.rows, e, leaveType, w, interval);
      t.(rows := t.rows + [NewAllocation(name, e, leaveType, w, amount)], created := t.created + 1)
  }

  /** The inner loop over the leave types, for one employee. The host names
      each new document; `names` stands for that naming. */
  function AllocateTypes(t: Tally, e: Employee, types: seq<string>, w: MonthWindow, interval: nat,
                         names: (string, string) -> string): Tally
    requires interval > 0
  {
    if types == [] then t
    else
      var lt := types[|types| - 1];
      AllocateOne(AllocateTypes(t, e, types[..|types| - 1], w, interval, names), e, lt, w, interval, names(e.name, lt))
  }

  /** The outer loop over the active employees. */
  function AllocateAll(t: Tally, employees: seq<Employee>, w: MonthWindow, interval: nat,
                       names: (string, string) -> string): Tally
    requires interval > 0
  {
    if employees == [] then t
    else
      AllocateTypes(AllocateAll(t, employees[..|employees| - 1], w, interval, names),
                    employees[|employees| - 1], LeaveTypes, w, interval, names)
  }

  function ActiveOnly(employees: seq<Employee>): (r: seq<Employee>)
    ensures forall e :: e in r <==> e in employees && e.status == Active
  {
    if employees == [] then []
    else
      var init := ActiveOnly(employees[..|employees| - 1]);
      var last := employees[|employees| - 1];
      assert forall e :: e in employees[..|employees| - 1] ==> e in employees;
      if last.status == Active then init + [last] else init
  }

  const AllocationErrorPrefix := "Error in auto leave allocation: "

  /** `auto_allocate_monthly_leaves`: Err (with the table unchanged) when the
      month does not exist, otherwise the final tally. */
  function AutoAllocate(rows: seq<Allocation>, employees: seq<Employee>, year: int, month: int,
                        frequency: Option<string>, names: (string, string) -> string): (r: Result<Tally>)
    ensures r.Err? <==> Window(year, month).None?
    ensures Window(year, month).Some? ==>
      r == Ok(AllocateAll(Tally(rows, 0, 0, []), ActiveOnly(employees), Window(year, month).value,
                          ResetInterval(frequency), names))
  {
    match Window(year, month)
    case None => Err(AllocationErrorPrefix + "month " + IntToString(month) + " of year " + IntToString(year))
    case Some(w) => Ok(AllocateAll(Tally(rows, 0, 0, []), ActiveOnly(employees), w, ResetInterval(frequency), names))
  }

  /** The two reset rules disagree. With approved Paid Leave allocations for
      February, March and April, the monthly run treats April as a restart
      month and carries nothing into it, yet a balance change in March still
      cascades into April, because two allocations precede it. */
  lemma ResetRulesDiverge(feb: Allocation, mar: Allocation, apr: Allocation, employee: string, year: int)
    requires year >= 1
    requires feb.employee == employee && feb.leaveType == PaidLeave && feb.status == Approved
             && feb.fromDate == Ymd(year, 2, 1)
    requires mar.employee == employee && mar.leaveType == PaidLeave && mar.status == Approved
             && mar.fromDate == Ymd(year, 3, 1)
    requires apr.employee == employee && apr.leaveType == PaidLeave && apr.status == Approved
             && apr.fromDate == Ymd(year, 4, 1)
    ensures IsResetMonth(4, ResetInterval(None))
    ensures Carry(PaidLeave, 4, ResetInterval(None), Some(mar)) == 0.0
    ensures CarryForward.NextTarget([feb, mar, apr], employee, PaidLeave, Ymd(year, 3, 1)) == Some(2)
  {
    var rows := [feb, mar, apr];
    var apr1: Date := Ymd(year, 4, 1);
    NextMonthStartFollows(Ymd(year, 2, 1));
    NextMonthStartFollows(Ymd(year, 3, 1));
    assert NextMonthStart(Ymd(year, 3, 1)) == apr1;
    assert rows[1..] == [mar, apr] && rows[2..] == [apr] && rows[3..] == [];
    assert CarryForward.MonthIndex([apr], employee, PaidLeave, apr1) == Some(0);
    assert CarryForward.MonthIndex([mar, apr], employee, PaidLeave, apr1) == Some(1);
    assert CarryForward.MonthIndex(rows, employee, PaidLeave, apr1) == Some(2);
    assert CarryForward.EarlierCount([apr], employee, PaidLeave, apr1) == 0 by {
      assert [apr][1..] == [];
    }
    assert CarryForward.EarlierCount([mar, apr], employee, PaidLeave, apr1) == 1 by {
      assert [mar, apr][1..] == [apr];
    }
    assert CarryForward.EarlierCount(rows, employee, PaidLeave, apr1) == 2;
  }

  /** The message returned on success, led by a check-mark emoji, with a
      warning sign before the errors. */
  function DoneMessage(t: Tally): string
  {
    "\U{2705} Leave Allocation done.<br>Created: " + NatToString(t.created) + ", Skipped: " + NatToString(t.skipped)
    + (if t.errors == [] then "" else "<br><br>\U{26A0}\U{FE0F} Errors:<br>" + Join(t.errors, "<br>"))
  }

  /** The whole run, from the entry point: every active employee's three
      leave types are accounted for, old rows are kept in front, and the
      table grows by exactly the created allocations. */
  lemma AutoAllocateAccounts(rows: seq<Allocation>, employees: seq<Employee>, year: int, month: int,
                             frequency: Option<string>, names: (string, string) -> string)
    requires Window(year, month).Some?
    ensures var r := AutoAllocate(rows, employees, year, month, frequency, names);
      var active := ActiveOnly(employees);
      r.Ok?
      && r.value.created + r.value.skipped + |r.value.errors|
           + InProbationCount(active, Window(year, month).value.start) == 3 * |active|
      && |r.value.rows| == |rows| + r.value.created && r.value.rows[..|rows|] == rows
  {
    AllocateAllAccounts(Tally(rows, 0, 0, []), ActiveOnly(employees), Window(year, month).value,
                        ResetInterval(frequency), names);
  }

  function Join(parts: seq<string>, sep: string): string
  {
    if parts == [] then ""
    else if |parts| == 1 then parts[0]
    else Join(parts[..|parts| - 1], sep) + sep + parts[|parts| - 1]
  }

  // -------------------------------------------------------------- lemmas

  /** What one step creates: exactly one approved allocation for the month,
      holding nothing taken and the base amount plus the carried balance. */
  lemma AllocateOneCreates(t: Tally, e: Employee, leaveType: string, w: MonthWindow, interval: nat, name: string)
    requires interval > 0
    ensures var r := AllocateOne(t, e, leaveType, w, interval, name);
      var kind := StepKindOf(t, e, leaveType, w, interval, name);
      (kind == InProbation <==> InProbationForMonth(e, w.start) && leaveType == PaidLeave)
      && (kind == AlreadyThere ==> r.rows == t.rows && r.skipped == t.skipped + 1 && r.created == t.created)
      && (kind == Rejected ==> r.rows == t.rows && |r.errors| == |t.errors| + 1 && r.created == t.created)
      && (kind == Created ==>
            !ExistsFor(t.rows, e.name, leaveType, w.start, w.end)
            && r.created == t.created + 1 && r.skipped == t.skipped
            && |r.rows| == |t.rows| + 1 && r.rows[..|t.rows|] == t.rows
            && IsMonthRow(r.rows[|t.rows|], e.name, leaveType, w.start, w.end)
            && r.rows[|t.rows|].totalTaken == 0.0
            && r.rows[|t.rows|].totalAllocated
               == BaseCount(leaveType) + Carry(leaveType, w.month, interval, Previous(t.rows, e.name, leaveType, w)))
  {
  }

  /** After a step for an employee and type that is not withheld for
      probation and not rejected, the month holds an approved allocation for
      them, and never a second one created next to an existing one. */
  lemma AllocateOneNoDuplicate(t: Tally, e: Employee, leaveType: string, w: MonthWindow, interval: nat, name: string)
    requires interval > 0
    ensures var r := AllocateOne(t, e, leaveType, w, interval, name);
      var kind := StepKindOf(t, e, leaveType, w, interval, name);
      (kind == AlreadyThere || kind == Created ==> ExistsFor(r.rows, e.name, leaveType, w.start, w.end))
      && (ExistsFor(t.rows, e.name, leaveType, w.start, w.end) ==> r.rows == t.rows)
  {
    var r := AllocateOne(t, e, leaveType, w, interval, name);
    if StepKindOf(t, e, leaveType, w, interval, name) == Created {
      assert IsMonthRow(r.rows[|t.rows|], e.name, leaveType, w.start, w.end);
    }
  }

  /** Steps of one kind among the leave types of one employee. */
  function KindCount(t: Tally, e: Employee, types: seq<string>, w: MonthWindow, interval: nat,
                     names: (string, string) -> string, kind: StepKind): nat
    requires interval > 0
  {
    if types == [] then 0
    else
      var lt := types[|types| - 1];
      var before := AllocateTypes(t, e, types[..|types| - 1], w, interval, names);
      KindCount(t, e, types[..|types| - 1], w, interval, names, kind)
      + (if StepKindOf(before, e, lt, w, interval, names(e.name, lt)) == kind then 1 else 0)
  }

  /** The inner loop's accounting: every leave type ends in exactly one of
      created, skipped, rejected or withheld for probation, and the table only
      grows at its end. */
  lemma {:induction false} AllocateTypesAccounts(t: Tally, e: Employee, types: seq<string>, w: MonthWindow, interval: nat,
                                                 names: (string, string) -> string)
    requires interval > 0
    ensures var r := AllocateTypes(t, e, types, w, interval, names);
      r.created + r.skipped + |r.errors| + KindCount(t, e, types, w, interval, names, InProbation)
        == t.created + t.skipped + |t.errors| + |types|
      && r.created - t.created == KindCount(t, e, types, w, interval, names, Created)
      && |r.rows| == |t.rows| + (r.created - t.created)
      && r.rows[..|t.rows|] == t.rows
  {
    if types != [] {
      var init := types[..|types| - 1];
      var lt := types[|types| - 1];
      var before := AllocateTypes(t, e, init, w, interval, names);
      AllocateTypesAccounts(t, e, init, w, interval, names);
      AllocateOneCreates(before, e, lt, w, interval, names(e.name, lt));
    }
  }

  /** Over the three leave types, only the Paid Leave step of an employee
      in probation is withheld. */
  lemma WithheldPerEmployee(t: Tally, e: Employee, w: MonthWindow, interval: nat, names: (string, string) -> string)
    requires interval > 0
    ensures KindCount(t, e, LeaveTypes, w, interval, names, InProbation)
         == (if InProbationForMonth(e, w.start) then 1 else 0)
  {
    var types := LeaveTypes;
    assert types[..|types| - 1] == [PaidLeave, UnpaidLeave];
    assert [PaidLeave, UnpaidLeave][..1] == [PaidLeave];
    assert [PaidLeave][..0] == [];
    var t1 := AllocateTypes(t, e, [PaidLeave], w, interval, names);
    var t2 := AllocateTypes(t, e, [PaidLeave, UnpaidLeave], w, interval, names);
    assert StepKindOf(t, e, PaidLeave, w, interval, names(e.name, PaidLeave)) == InProbation
       <==> InProbationForMonth(e, w.start);
    assert StepKindOf(t1, e, UnpaidLeave, w, interval, names(e.name, UnpaidLeave)) != InProbation;
    assert StepKindOf(t2, e, PermissionLeave, w, interval, names(e.name, PermissionLeave)) != InProbation;
    assert AllocateTypes(t, e, [], w, interval, names) == t;
    assert KindCount(t, e, [PaidLeave], w, interval, names, InProbation)
        == (if InProbationForMonth(e, w.start) then 1 else 0);
    assert KindCount(t, e, [PaidLeave, UnpaidLeave], w, interval, names, InProbation)
        == KindCount(t, e, [PaidLeave], w, interval, names, InProbation);
  }

  /** Active employees in probation for the month. */
  function InProbationCount(employees: seq<Employee>, start: Date): nat
  {
    if employees == [] then 0
    else InProbationCount(employees[..|employees| - 1], start)
         + (if InProbationForMonth(employees[|employees| - 1], start) then 1 else 0)
  }

  /** The run's accounting: each employee contributes three leave types, and
      each ends created, skipped, rejected, or (Paid Leave in probation)
      withheld; the table keeps its old rows in front and gains exactly the
      created ones. */
  lemma {:induction false} AllocateAllAccounts(t: Tally, employees: seq<Employee>, w: MonthWindow, interval: nat,
                                               names: (string, string) -> string)
    requires interval > 0
    ensures var r := AllocateAll(t, employees, w, interval, names);
      r.created + r.skipped + |r.errors| + InProbationCount(employees, w.start)
        == t.created + t.skipped + |t.errors| + 3 * |employees|
      && |r.rows| == |t.rows| + (r.created - t.created) && r.created >= t.created
      && r.rows[..|t.rows|] == t.rows
  {
    if employees != [] {
      var init := employees[..|employees| - 1];
      var e := employees[|employees| - 1];
      var mid := AllocateAll(t, init, w, interval, names);
      AllocateAllAccounts(t, init, w, interval, names);
      AllocateTypesAccounts(mid, e, LeaveTypes, w, interval, names);
      WithheldPerEmployee(mid, e, w, interval, names);
      var r := AllocateAll(t, employees, w, interval, names);
      assert r.rows[..|t.rows|] == mid.rows[..|mid.rows|][..|t.rows|];
    }
  }

  /** A Paid Leave step for an employee in probation never touches the tally. */
  lemma ProbationWithholdsPaidLeave(t: Tally, e: Employee, w: MonthWindow, interval: nat, name: string)
    requires interval > 0 && InProbationForMonth(e, w.start)
    ensures AllocateOne(t, e, PaidLeave, w, interval, name) == t
  {
  }

  /** Unpaid Leave and Permission allocations are always the fixed 30 and
      120, whatever the previous month left. */
  lemma FixedTypesIgnoreCarry(t: Tally, e: Employee, leaveType: string, w: MonthWindow, interval: nat, name: string)
    requires interval > 0 && (leaveType == UnpaidLeave || leaveType == PermissionLeave)
    requires StepKindOf(t, e, leaveType, w, interval, name) == Created
    ensures var r := AllocateOne(t, e, leaveType, w, interval, name);
      r.rows[|t.rows|].totalAllocated == (if leaveType == UnpaidLeave then 30.0 else 120.0)
  {
  }

  // ------------------------------------------------------------- preview

  datatype Proposal = Proposal(leaveType: string, count: real, exists_: bool)

  datatype PreviewRow = PreviewRow(employee: string, employeeId: string, employeeName: string, dateOfJoining: Option<Date>,
                                   inProbation: bool, allocations: seq<Proposal>)

  /** The preview's existence test: any approved allocation starting on the
      month's first day (the end date is not compared). */
  predicate PreviewExists(rows: seq<Allocation>, employee: string, leaveType: string, start: Date)
  {
    exists i :: 0 <= i < |rows| && rows[i].employee == employee && rows[i].leaveType == leaveType
                && rows[i].fromDate == start && rows[i].status == Approved
  }

  function Proposals(rows: seq<Allocation>, e: Employee, start: Date, types: seq<string>): (r: seq<Proposal>)
    ensures |r| <= |types|
  {
    if types == [] then []
    else
      var init := Proposals(rows, e, start, types[..|types| - 1]);
      var lt := types[|types| - 1];
      if InProbationForMonth(e, start) && lt == PaidLeave then init
      else init + [Proposal(lt, BaseCount(lt), PreviewExists(rows, e.name, lt, start))]
  }

  /** `get_leave_allocation_preview`: Err when the month does not exist. */
  function Preview(rows: seq<Allocation>, employees: seq<Employee>, year: int, month: int): (r: Result<seq<PreviewRow>>)
    ensures r.Err? <==> year < 1 || month < 1 || month > 12
    ensures r.Ok? ==> |r.value| == |ActiveOnly(employees)|
    ensures r.Ok? ==> forall i :: 0 <= i < |r.value| ==>
      var e := ActiveOnly(employees)[i];
      r.value[i].employee == e.name && r.value[i].employeeName == e.employeeName
      && r.value[i].employeeId == e.employeeId && r.value[i].dateOfJoining == e.dateOfJoining
      && r.value[i].inProbation == InProbationForMonth(e, Ymd(year, month, 1))
      && r.value[i].allocations == Proposals(rows, e, Ymd(year, month, 1), LeaveTypes)
  {
    if year < 1 || month < 1 || month > 12 then Err("month " + IntToString(month) + " of year " + IntToString(year))
    else
      var start: Date := Ymd(year, month, 1);
      var active := ActiveOnly(employees);
      Ok(seq(|active|, i requires 0 <= i < |active| =>
        PreviewRow(active[i].name, active[i].employeeId, active[i].employeeName, active[i].dateOfJoining,
                   InProbationForMonth(active[i], start), Proposals(rows, active[i], start, LeaveTypes))))
  }

  /** The preview proposes Paid Leave exactly when the allocation run would
      not withhold it, and every proposal carries the base count. */
  lemma PreviewProposals(rows: seq<Allocation>, e: Employee, start: Date)
    ensures var p := Proposals(rows, e, start, LeaveTypes);
      (InProbationForMonth(e, start) ==> p == [Proposal(UnpaidLeave, 30.0, PreviewExists(rows, e.name, UnpaidLeave, start)),
                                               Proposal(PermissionLeave, 120.0, PreviewExists(rows, e.name, PermissionLeave, start))])
      && (!InProbationForMonth(e, start) ==> |p| == 3 && p[0] == Proposal(PaidLeave, 1.0, PreviewExists(rows, e.name, PaidLeave, start)))
  {
    var types := LeaveTypes;
    assert types[..|types| - 1] == [PaidLeave, UnpaidLeave];
    assert [PaidLeave, UnpaidLeave][..1] == [PaidLeave];
    assert [PaidLeave][..0] == [];
    var p1 := Proposals(rows, e, start, [PaidLeave]);
    var p2 := Proposals(rows, e, start, [PaidLeave, UnpaidLeave]);
    assert p2 == p1 + [Proposal(UnpaidLeave, 30.0, PreviewExists(rows, e.name, UnpaidLeave, start))];
  }

  /** The allocation run's existence test is the stricter one: whatever it
      skips the preview marks as existing (not conversely: an allocation that
      starts on the first but ends elsewhere is marked yet not skipped). */
  lemma SkippedImpliesPreviewExists(rows: seq<Allocation>, employee: string, leaveType: string, w: MonthWindow)
    requires ExistsFor(rows, employee, leaveType, w.start, w.end)
    ensures PreviewExists(rows, employee, leaveType, w.start)
  {
    var i :| 0 <= i < |rows| && IsMonthRow(rows[i], employee, leaveType, w.start, w.end);
  }
}
