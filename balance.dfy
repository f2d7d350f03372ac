/** The balance check offered to the leave form and the validation hook run
    when a Leave Application is saved: enough balance on the overlapping
    allocations, no approved leave already covering the dates, and at most
    one pending or approved Permission per day. */
module LeaveBalance {
  import opened Wrappers
  import opened Calendar
  import opened Text
  import opened Sums
  import opened LeaveData
  import opened Deduction
  import MissingDays

  /** The dictionary `check_leave_balance` returns. */
  datatype Reply = Reply(allowed: bool, remaining: real, requested: real, unit: string)

  /** A stored Leave Application, with the three state fields the checks read
      (`status`, `workflow_state`, `docstatus`). */
  datatype LeaveRecord = LeaveRecord(
    name: string,
    employee: string,
    leaveType: string,
    fromDate: Date,
    toDate: Date,
    status: string,
    workflowState: string,
    docstatus: int)

  const PendingApproval := "Pending Approval"
  const PermissionMinutesRequired := "Please enter Permission Hours in minutes"
  const RequiredFields := "Employee and Leave Type are required."

  /** The allocation filter of the balance check: approved, same employee and
      type, and a period that shares a day with [from, to]. */
  predicate Overlapping(a: Allocation, employee: string, leaveType: string, from: Date, to: Date)
  {
    a.employee == employee && a.leaveType == leaveType && a.status == Approved
    && Ord(a.fromDate) <= Ord(to) && Ord(a.toDate) >= Ord(from)
  }

  function Overlaps(rows: seq<Allocation>, employee: string, leaveType: string, from: Date, to: Date): (r: seq<Allocation>)
    ensures forall a :: a in r <==> a in rows && Overlapping(a, employee, leaveType, from, to)
  {
    Filter(rows, a => Overlapping(a, employee, leaveType, from, to))
  }

  /** Allocated minus taken over the overlapping allocations, 0 without any. */
  function Remaining(rows: seq<Allocation>, employee: string, leaveType: string, from: Date, to: Date): real
  {
    var ov := Overlaps(rows, employee, leaveType, from, to);
    Sum(ov, Allocated) - Sum(ov, Taken)
  }

  /** `str(half_day) in ("1", "true", "True")`. */
  predicate HalfDayText(s: string)
  {
    s == "1" || s == "true" || s == "True"
  }

  /** `str()` of the form's check box (0 or 1). */
  function CheckText(b: bool): string
  {
    if b then "1" else "0"
  }

  /** `check_leave_balance`. */
  function CheckBalance(rows: seq<Allocation>, employee: string, leaveType: string, from: Date, to: Date,
                        permissionHours: Option<real>, halfDay: string): (r: Result<Reply>)
    ensures r.Err? <==> Lower(leaveType) == "permission" && Flt(permissionHours) == 0.0
    ensures r.Ok? ==> r.value.remaining == Remaining(rows, employee, leaveType, from, to)
    ensures r.Ok? ==> (r.value.allowed <==> r.value.remaining >= r.value.requested)
    ensures r.Ok? && Lower(leaveType) == "permission"
            ==> r.value.requested == Flt(permissionHours) && r.value.unit == "Minutes"
    ensures r.Ok? && Lower(leaveType) != "permission"
            ==> r.value.unit == "Days"
                && r.value.requested == (if HalfDayText(halfDay) then 0.5 else InclusiveDays(from, to) as real)
  {
    var remaining := Remaining(rows, employee, leaveType, from, to);
    if Lower(leaveType) == "permission" then
      var requested := Flt(permissionHours);
      if requested == 0.0 then Err(PermissionMinutesRequired)
      else Ok(Reply(remaining >= requested, remaining, requested, "Minutes"))
    else
      var days := if HalfDayText(halfDay) then 0.5 else InclusiveDays(from, to) as real;
      Ok(Reply(remaining >= days, remaining, days, "Days"))
  }

  // ------------------------------------------------- has_approved_leave

  /** Overlap and exclusion tests shared by both definitions. */
  predicate OverlapsRange(l: LeaveRecord, employee: string, from: Date, to: Date, exclude: string)
  {
    l.employee == employee && Ord(l.fromDate) <= Ord(to) && Ord(l.toDate) >= Ord(from)
    && (exclude == "" || l.name != exclude)
  }

  /** The first `has_approved_leave`, filtering on `status`; the later
      definition of the same name replaces it at import time. */
  predicate HasApprovedLeaveShadowed(apps: seq<LeaveRecord>, employee: string, from: Date, to: Date, exclude: string)
  {
    exists i :: 0 <= i < |apps| && OverlapsRange(apps[i], employee, from, to, exclude) && apps[i].status == Approved
  }

  /** The `has_approved_leave` in effect: approved by the workflow and
      submitted. */
  predicate HasApprovedLeave(apps: seq<LeaveRecord>, employee: string, from: Date, to: Date, exclude: string)
  {
    exists i :: 0 <= i < |apps| && OverlapsRange(apps[i], employee, from, to, exclude)
                && apps[i].workflowState == Approved && apps[i].docstatus == 1
  }

  /** Another Permission of the employee on the same day, approved or
      awaiting approval. */
  predicate DuplicatePermission(apps: seq<LeaveRecord>, doc: Application)
  {
    exists i :: 0 <= i < |apps| && apps[i].employee == doc.employee && apps[i].leaveType == PermissionLeave
                && apps[i].fromDate == doc.fromDate && apps[i].name != doc.name
                && (apps[i].workflowState == Approved || apps[i].workflowState == PendingApproval)
  }

  /** The first line of the insufficient-balance message; the second line,
      with the available and requested amounts, is not reproduced. */
  function NotEnoughMessage(unit: string, who: string): string
  {
    "Not enough " + Lower(unit) + " balance for " + who + "."
  }

  /** `validate_leave_balance`: the required fields, the balance, then either
      the approved-leave overlap (ordinary leave) or the same-day
      Permission (Permission). `employeeName` is the document's
      employee_name. */
  function ValidateLeaveBalance(rows: seq<Allocation>, apps: seq<LeaveRecord>, doc: Application, employeeName: string): (r: Outcome)
    ensures doc.employee == "" || doc.leaveType == "" ==> r == Fail(RequiredFields)
  {
    if doc.employee == "" || doc.leaveType == "" then Fail(RequiredFields)
    else match CheckBalance(rows, doc.employee, doc.leaveType, doc.fromDate, doc.toDate,
                            doc.permissionHours, CheckText(doc.halfDay))
      case Err(m) => Fail(m)
      case Ok(res) =>
        if !res.allowed then Fail(NotEnoughMessage(res.unit, if employeeName != "" then employeeName else doc.employee))
        else if Lower(doc.leaveType) != "permission" then
          if HasApprovedLeave(apps, doc.employee, doc.fromDate, doc.toDate, doc.name)
          then Fail("Employee " + doc.employee + " already has an approved leave in the selected date range.")
          else Pass
        else if DuplicatePermission(apps, doc)
        then Fail("Employee " + doc.employee + " already has a Permission applied on " + MissingDays.DateText(doc.fromDate) + ".")
        else Pass
  }

  // ------------------------------------------------------------ lemmas

  /** A save passes exactly when both fields are present, the balance covers
      the request and no conflicting application exists. */
  lemma ValidatePassesIff(rows: seq<Allocation>, apps: seq<LeaveRecord>, doc: Application, employeeName: string)
    ensures ValidateLeaveBalance(rows, apps, doc, employeeName).Pass?
        <==> doc.employee != "" && doc.leaveType != ""
             && AmountToAdd(doc).Ok?
             && Remaining(rows, doc.employee, doc.leaveType, doc.fromDate, doc.toDate) >= AmountToAdd(doc).value
             && (Lower(doc.leaveType) != "permission" ==> !HasApprovedLeave(apps, doc.employee, doc.fromDate, doc.toDate, doc.name))
             && (Lower(doc.leaveType) == "permission" ==> !DuplicatePermission(apps, doc))
  {
    assert HalfDayText(CheckText(doc.halfDay)) == doc.halfDay;
  }

  /** The checked amount is the amount the approval hook deducts: the two
      agree on Permission minutes, half days and whole days. */
  lemma CheckedAmountIsDeducted(rows: seq<Allocation>, doc: Application)
    ensures var c := CheckBalance(rows, doc.employee, doc.leaveType, doc.fromDate, doc.toDate,
                                  doc.permissionHours, CheckText(doc.halfDay));
      (c.Ok? <==> AmountToAdd(doc).Ok?) && (c.Ok? ==> c.value.requested == AmountToAdd(doc).value)
  {
    assert HalfDayText(CheckText(doc.halfDay)) == doc.halfDay;
  }

  lemma {:induction false} TotalAvailableIsSum(s: seq<Allocation>)
    ensures TotalAvailable(s) == Sum(s, Available)
  {
    if s != [] {
      TotalAvailableIsSum(s[1..]);
      assert s == [s[0]] + s[1..];
      SumCons(s[0], s[1..], Available);
    }
  }

  /** Allocated minus taken over the rows `p` selects is at most the room
      left on the rows `q` selects, when `q` includes `p`. */
  lemma {:induction false} BalanceBelowRoom(rows: seq<Allocation>, p: Allocation -> bool, q: Allocation -> bool)
    requires forall a :: a in rows && p(a) ==> q(a)
    ensures SumWhere(rows, p, Allocated) - SumWhere(rows, p, Taken) <= SumWhere(rows, q, Available)
  {
    if rows != [] {
      assert forall a :: a in rows[..|rows| - 1] ==> a in rows;
      BalanceBelowRoom(rows[..|rows| - 1], p, q);
    }
  }

  /** The balance the check reports is never more than the room the approval
      hook finds on its snapshot: every overlapping allocation is one the
      hook draws from, and its room is never below allocated minus taken. */
  lemma RemainingWithinSnapshot(rows: seq<Allocation>, app: Application)
    ensures Remaining(rows, app.employee, app.leaveType, app.fromDate, app.toDate)
            <= TotalAvailable(Snapshot(rows, app))
  {
    var p := a => Overlapping(a, app.employee, app.leaveType, app.fromDate, app.toDate);
    var q := a => IsCandidate(a, app);
    FilterSum(rows, p, Allocated);
    FilterSum(rows, p, Taken);
    FilterSum(rows, q, Available);
    SortKeepsSum(Filter(rows, q), Available);
    TotalAvailableIsSum(Snapshot(rows, app));
    BalanceBelowRoom(rows, p, q);
  }

  /** An application that passed the balance validation, approved against the
      same table, never reaches the overflow write: the corrected and the
      as-written approval agree. */
  lemma ValidatedRequestNeverOverflows(rows: seq<Allocation>, apps: seq<LeaveRecord>, doc: Application,
                                       employeeName: string)
    requires ValidateLeaveBalance(rows, apps, doc, employeeName).Pass?
    ensures Approve(rows, doc, None) == ApproveAsWritten(rows, doc, None)
  {
    ValidatePassesIff(rows, apps, doc, employeeName);
    var toAdd := AmountToAdd(doc).value;
    RemainingWithinSnapshot(rows, doc);
    if toAdd > 0.0 {
      EnoughRoomAgrees(rows, doc, toAdd);
    } else {
      NothingToPlace(rows, doc, toAdd);
    }
  }

  /** The two definitions disagree: a submitted application approved by the
      workflow whose `status` field still reads otherwise blocks only under
      the definition in effect. */
  lemma DefinitionsDisagree(l: LeaveRecord, employee: string, from: Date, to: Date)
    requires OverlapsRange(l, employee, from, to, "")
    requires l.workflowState == Approved && l.docstatus == 1 && l.status != Approved
    ensures HasApprovedLeave([l], employee, from, to, "")
    ensures !HasApprovedLeaveShadowed([l], employee, from, to, "")
  {
    assert OverlapsRange([l][0], employee, from, to, "");
  }
}
