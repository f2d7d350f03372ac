/** The Leave Allocation table as the hooks change it in place: each
    `frappe.db.set_value` on an allocation becomes an assignment to the
    table held by a `LeaveBook`, and each hook is a method whose new table is
    the one the functional model of `LeaveData`, `CarryForward` and
    `Deduction` computes. */
module Ledger {
  import opened Wrappers
  import opened Calendar
  import opened LeaveData
  import opened CarryForward
  import opened Deduction
  import opened Probation
  import opened MonthlyAllocation

  /** The Attendance fields `update_leave_allocation_from_attendance` reads. */
  datatype Attendance = Attendance(
    employee: string,
    attendanceDate: Option<Date>,
    leaveType: string,
    status: string)

  predicate IsLeaveStatus(s: string)
  {
    s == "On Leave" || s == "Leave"
  }

  /** The allocation an attendance date falls in. */
  predicate Covers(a: Allocation, employee: string, leaveType: string, day: Date)
  {
    a.employee == employee && a.leaveType == leaveType && a.status == Approved
    && Ord(a.fromDate) <= Ord(day) <= Ord(a.toDate)
  }

  /** The `get_all(..., limit_page_length=1)` lookup of the covering allocation. */
  function CoveringIndex(rows: seq<Allocation>, employee: string, leaveType: string, day: Date): (r: Option<nat>)
    ensures r.Some? ==> r.value < |rows| && Covers(rows[r.value], employee, leaveType, day)
    ensures r.None? ==> forall a :: a in rows ==> !Covers(a, employee, leaveType, day)
  {
    FirstWhereIsFirst(rows, a => Covers(a, employee, leaveType, day));
    FirstWhere(rows, a => Covers(a, employee, leaveType, day))
  }

  /** `update_leave_allocation_from_attendance`: a switch into a leave status
      takes one day from the covering allocation when it still has room; a
      switch from a leave status back to Present gives one day back when any
      is taken. Nothing else changes, and the carry-forward is not run. */
  function AttendanceUpdate(rows: seq<Allocation>, att: Attendance, previous: Option<string>): seq<Allocation>
  {
    if att.employee == "" || att.attendanceDate.None? then rows
    else
      var day := att.attendanceDate.value;
      match CoveringIndex(rows, att.employee, att.leaveType, day)
      case None => rows
      case Some(k) =>
        var taken := rows[k].totalTaken;
        var wasLeave := previous.Some? && IsLeaveStatus(previous.value);
        if IsLeaveStatus(att.status) && !wasLeave then
          (if taken < rows[k].totalAllocated then SetTaken(rows, rows[k].name, taken + 1.0) else rows)
        else if wasLeave && att.status == "Present" then
          (if taken > 0.0 then SetTaken(rows, rows[k].name, taken - 1.0) else rows)
        else rows
  }

  /** The attendance hook moves the taken amount of one document by exactly
      one day, only within the allocation's bounds, and leaves every other
      document alone. */
  lemma AttendanceUpdateEffect(rows: seq<Allocation>, att: Attendance, previous: Option<string>, m: string)
    requires UniqueNames(rows)
    ensures var r := AttendanceUpdate(rows, att, previous);
      |r| == |rows| && UniqueNames(r)
      && (r == rows
          || exists k :: 0 <= k < |rows|
               && ((TakenOf(r, rows[k].name) == rows[k].totalTaken + 1.0 && rows[k].totalTaken < rows[k].totalAllocated)
                   || (TakenOf(r, rows[k].name) == rows[k].totalTaken - 1.0 && rows[k].totalTaken > 0.0))
               && (m != rows[k].name ==> TakenOf(r, m) == TakenOf(rows, m)))
  {
    var r := AttendanceUpdate(rows, att, previous);
    if r != rows {
      var day := att.attendanceDate.value;
      var k := CoveringIndex(rows, att.employee, att.leaveType, day).value;
      var v := TakenOf(r, rows[k].name);
      var d := if IsLeaveStatus(att.status) then 1.0 else -1.0;
      assert r == SetTaken(rows, rows[k].name, rows[k].totalTaken + d);
      assert rows[k] in rows;
      TakenOfMember(rows, rows[k]);
      TakenOfSetTakenSame(rows, rows[k].name, rows[k].totalTaken + d);
      SetTakenKeepsUniqueNames(rows, rows[k].name, rows[k].totalTaken + d);
      if m != rows[k].name {
        TakenOfSetTakenOther(rows, rows[k].name, m, rows[k].totalTaken + d);
      }
    }
  }

  /** Marking a day as leave and then back as Present restores the table
      whenever the first update took effect. */
  lemma AttendanceRoundTrip(rows: seq<Allocation>, employee: string, day: Date, leaveType: string)
    requires UniqueNames(rows) && forall i :: 0 <= i < |rows| ==> rows[i].totalTaken >= 0.0
    requires AttendanceUpdate(rows, Attendance(employee, Some(day), leaveType, "On Leave"), Some("Present")) != rows
    ensures var once := AttendanceUpdate(rows, Attendance(employee, Some(day), leaveType, "On Leave"), Some("Present"));
      AttendanceUpdate(once, Attendance(employee, Some(day), leaveType, "Present"), Some("On Leave")) == rows
  {
    var leave := Attendance(employee, Some(day), leaveType, "On Leave");
    var back := Attendance(employee, Some(day), leaveType, "Present");
    var p := (a: Allocation) => Covers(a, employee, leaveType, day);
    var k := CoveringIndex(rows, employee, leaveType, day).value;
    var a := rows[k];
    var once := SetTaken(rows, a.name, a.totalTaken + 1.0);
    assert AttendanceUpdate(rows, leave, Some("Present")) == once;
    forall i | 0 <= i < |rows| ensures p(once[i]) == p(rows[i]) {
    }
    FirstWhereCongruent(once, rows, p);
    assert CoveringIndex(once, employee, leaveType, day) == Some(k);
    assert once[k] == a.(totalTaken := a.totalTaken + 1.0);
    var twice := SetTaken(once, a.name, a.totalTaken + 1.0 - 1.0);
    assert AttendanceUpdate(once, back, Some("On Leave")) == twice;
    forall i | 0 <= i < |rows| ensures twice[i] == rows[i] {
      if rows[i].name == a.name {
        assert i == k || i != k;
      }
    }
  }

  /** The Leave Allocation table. */
  class LeaveBook {
    var rows: seq<Allocation>

    constructor (initial: seq<Allocation>)
      ensures rows == initial
    {
      rows := initial;
    }

    /** `frappe.db.set_value(..., "total_leaves_taken", v)`. */
    method SetTakenValue(name: string, v: real)
      modifies this
      ensures rows == SetTaken(old(rows), name, v)
    {
      rows := SetTaken(rows, name, v);
    }

    /** `sync_future_leave_allocations`, recursing month by month. */
    method SyncFuture(employee: string, leaveType: string, from: Date, delta: real)
      modifies this
      ensures rows == Cascade(old(rows), employee, leaveType, from, delta)
      decreases |Later(rows, from)|
    {
      if leaveType != PaidLeave {
        assert NextTarget(rows, employee, leaveType, from).None?;
        return;
      }
      var next := NextMonthStart(from);
      var found := MonthIndex(rows, employee, leaveType, next);
      if found.None? {
        assert NextTarget(rows, employee, leaveType, from).None?;
        return;
      }
      var k := found.value;
      var count := EarlierCount(rows, employee, leaveType, next);
      if count % 3 == 0 {
        assert NextTarget(rows, employee, leaveType, from).None?;
        return;
      }
      assert NextTarget(rows, employee, leaveType, from) == Some(k);
      CascadeStep(rows, employee, leaveType, from, delta, k);
      rows := Lowered(rows, k, delta);
      SyncFuture(employee, leaveType, next, delta);
    }

    /** The breakdown list update after the overflow: find the first line for
        `name` and add to it, or append a new line. */
    static method MergeOverflow(report: seq<Added>, name: string, extra: real, total: real) returns (r: seq<Added>)
      ensures r == MergeReport(report, name, extra, total)
    {
      var i := 0;
      while i < |report| && report[i].name != name
        invariant 0 <= i <= |report|
        invariant forall j :: 0 <= j < i ==> report[j].name != name
      {
        i := i + 1;
      }
      if i < |report| {
        r := report[i := report[i].(added := report[i].added + extra, total := total)];
        MergeReportAt(report, name, extra, total, i);
      } else {
        r := report + [Added(name, extra, total)];
        MergeReportAbsent(report, name, extra, total);
      }
    }

    /** The sequential deduction loop of `update_leave_allocation`: walk the
        fetched list, take what each allocation has room for, cascade it, and
        stop once nothing remains. */
    method DeductInOrder(snap: seq<Allocation>, toAdd: real, employee: string, leaveType: string)
      returns (remainder: real, report: seq<Added>)
      modifies this
      ensures Progress(rows, remainder, report) == Distribute(old(rows), snap, toAdd, employee, leaveType)
    {
      remainder := toAdd;
      report := [];
      var i := 0;
      while i < |snap| && remainder > 0.0
        invariant 0 <= i <= |snap|
        invariant var rest := Distribute(rows, snap[i..], remainder, employee, leaveType);
          Distribute(old(rows), snap, toAdd, employee, leaveType)
            == Progress(rest.rows, rest.remainder, report + rest.report)
      {
        var a := snap[i];
        assert snap[i..][1..] == snap[i + 1..];
        if Available(a) > 0.0 {
          var deduct := Deduct(a, remainder);
          var newTaken := a.totalTaken + deduct;
          ghost var before := rows;
          SetTakenValue(a.name, newTaken);
          SyncFuture(employee, leaveType, a.fromDate, deduct);
          DistributeTake(before, snap[i..], remainder, employee, leaveType, deduct, newTaken, rows, report);
          remainder := remainder - deduct;
          report := report + [Added(a.name, deduct, newTaken)];
        }
        i := i + 1;
      }
      assert Distribute(rows, snap[i..], remainder, employee, leaveType) == Progress(rows, remainder, []);
    }

    /** The overflow branch: a positive remainder is added to the last
        allocation's current taken amount and cascaded, and the breakdown
        gains it. */
    method Settle(last: Allocation, remainder: real, report: seq<Added>, employee: string, leaveType: string)
      returns (merged: seq<Added>)
      modifies this
      ensures Effect(rows, merged)
           == Overflow(Progress(old(rows), remainder, report), last, TakenOf(old(rows), last.name), employee, leaveType)
    {
      merged := report;
      if remainder > 0.0 {
        var newTaken := TakenOf(rows, last.name) + remainder;
        SetTakenValue(last.name, newTaken);
        SyncFuture(employee, leaveType, last.fromDate, remainder);
        merged := MergeOverflow(report, last.name, remainder, newTaken);
      }
    }

    /** `update_leave_allocation` with the overflow starting from the last
        allocation's current taken amount. Returns the breakdown lines, or the
        error the hook throws. */
    method ApproveLeave(app: Application, stateBeforeSave: Option<string>) returns (r: Result<seq<Added>>)
      modifies this
      ensures match Approve(old(rows), app, stateBeforeSave)
        case Err(m) => r == Err(m) && rows == old(rows)
        case Ok(e) => r == Ok(e.report) && rows == e.rows
    {
      var request := Request(app, stateBeforeSave);
      if request.Err? {
        return Err(request.msg);
      }
      if request.value.None? {
        return Ok([]);
      }
      var report := PlaceAmount(app, request.value.value);
      return Ok(report);
    }

    /** The deduction loop and the overflow for an amount to add. */
    method PlaceAmount(app: Application, toAdd: real) returns (report: seq<Added>)
      modifies this
      ensures Effect(rows, report) == Place(old(rows), app, toAdd)
    {
      var snap := Snapshot(rows, app);
      if snap == [] {
        return [];
      }
      var remainder;
      remainder, report := DeductInOrder(snap, toAdd, app.employee, app.leaveType);
      var last := snap[|snap| - 1];
      report := Settle(last, remainder, report, app.employee, app.leaveType);
    }

    /** `update_leave_allocation_from_attendance`. */
    method AttendanceChanged(att: Attendance, previous: Option<string>)
      modifies this
      ensures rows == AttendanceUpdate(old(rows), att, previous)
    {
      if att.employee == "" || att.attendanceDate.None? {
        return;
      }
      var day := att.attendanceDate.value;
      var found := CoveringIndex(rows, att.employee, att.leaveType, day);
      if found.None? {
        return;
      }
      var k := found.value;
      var taken := rows[k].totalTaken;
      var wasLeave := previous.Some? && IsLeaveStatus(previous.value);
      if IsLeaveStatus(att.status) && !wasLeave {
        if taken < rows[k].totalAllocated {
          SetTakenValue(rows[k].name, taken + 1.0);
        }
      } else if wasLeave && att.status == "Present" {
        if taken > 0.0 {
          SetTakenValue(rows[k].name, taken - 1.0);
        }
      }
    }

    /** The inner loop body for one employee and leave type. */
    method AllocateStep(e: Employee, lt: string, w: MonthWindow, interval: nat, name: string,
                        created: nat, skipped: nat, errors: seq<string>)
      returns (created': nat, skipped': nat, errors': seq<string>)
      requires interval > 0
      modifies this
      ensures Tally(rows, created', skipped', errors')
           == AllocateOne(Tally(old(rows), created, skipped, errors), e, lt, w, interval, name)
    {
      created', skipped', errors' := created, skipped, errors;
      ghost var t := Tally(rows, created, skipped, errors);
      if InProbationForMonth(e, w.start) && lt == PaidLeave {
        assert StepKindOf(t, e, lt, w, interval, name) == InProbation;
        return;
      }
      if ExistsFor(rows, e.name, lt, w.start, w.end) {
        assert StepKindOf(t, e, lt, w, interval, name) == AlreadyThere;
        skipped' := skipped + 1;
        return;
      }
      var amount := NewAmount(rows, e, lt, w, interval);
      var doc := NewAllocation(name, e, lt, w, amount);
      var check := AllocationRules.Validate(rows, AsDoc(doc));
      if check.Fail? {
        assert StepKindOf(t, e, lt, w, interval, name) == Rejected;
        errors' := errors + [e.employeeId + " - " + lt + " - " + check.msg];
      } else {
        assert StepKindOf(t, e, lt, w, interval, name) == Created;
        assert AllocateOne(t, e, lt, w, interval, name) == Tally(rows + [doc], created + 1, skipped, errors);
        rows := rows + [doc];
        created' := created + 1;
      }
    }

    /** The inner loop over the leave types for one employee. */
    method AllocateEmployee(e: Employee, w: MonthWindow, interval: nat, names: (string, string) -> string,
                            created: nat, skipped: nat, errors: seq<string>)
      returns (created': nat, skipped': nat, errors': seq<string>)
      requires interval > 0
      modifies this
      ensures Tally(rows, created', skipped', errors')
           == AllocateTypes(Tally(old(rows), created, skipped, errors), e, LeaveTypes, w, interval, names)
    {
      created', skipped', errors' := created, skipped, errors;
      var j := 0;
      while j < |LeaveTypes|
        invariant 0 <= j <= |LeaveTypes|
        invariant Tally(rows, created', skipped', errors')
               == AllocateTypes(Tally(old(rows), created, skipped, errors), e, LeaveTypes[..j], w, interval, names)
      {
        var lt := LeaveTypes[j];
        assert LeaveTypes[..j + 1][..j] == LeaveTypes[..j];
        created', skipped', errors' := AllocateStep(e, lt, w, interval, names(e.name, lt), created', skipped', errors');
        j := j + 1;
      }
      assert LeaveTypes[..j] == LeaveTypes;
    }

    /** `auto_allocate_monthly_leaves`: for each active employee and each
        leave type, skip Paid Leave in probation, count an existing
        allocation for the month as skipped, and otherwise insert the new
        allocation, collecting a validation failure as an error line. */
    method AutoAllocateMonthly(employees: seq<Employee>, year: int, month: int, frequency: Option<string>,
                               names: (string, string) -> string)
      returns (r: Result<string>)
      modifies this
      ensures match AutoAllocate(old(rows), employees, year, month, frequency, names)
        case Err(m) => r == Err(m) && rows == old(rows)
        case Ok(t) => r == Ok(DoneMessage(t)) && rows == t.rows
    {
      var window := Window(year, month);
      if window.None? {
        return Err(AllocationErrorPrefix + "month " + Text.IntToString(month) + " of year " + Text.IntToString(year));
      }
      var w := window.value;
      var interval := ResetInterval(frequency);
      var active := ActiveOnly(employees);
      ghost var start := Tally(rows, 0, 0, []);
      var created: nat, skipped: nat, errors: seq<string> := 0, 0, [];
      var i := 0;
      while i < |active|
        invariant 0 <= i <= |active|
        invariant Tally(rows, created, skipped, errors) == AllocateAll(start, active[..i], w, interval, names)
      {
        assert active[..i + 1][..i] == active[..i];
        created, skipped, errors := AllocateEmployee(active[i], w, interval, names, created, skipped, errors);
        i := i + 1;
      }
      assert active[..i] == active;
      return Ok(DoneMessage(Tally(rows, created, skipped, errors)));
    }
  }
}
