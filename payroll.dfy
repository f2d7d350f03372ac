/** Salary slip generation: each day of the month is classified from the
    holiday dates, the employee's attendance and the leave records, the
    counters give the loss-of-pay days, and the pay is prorated over the
    month's days. */
module Payroll {
  import opened Wrappers
  import opened Calendar
  import opened LeaveData
  import opened LeaveBalance
  import opened Holidays
  import Text

  /** The Attendance fields the slip code reads. */
  datatype DayRecord = DayRecord(employee: string, attendanceDate: Date, status: string, leaveType: string, docstatus: int)

  /** present_days, absent_days, paid_leave_days, total_leave_days. */
  datatype Counters = Counters(present: real, absent: real, paidLeave: real, totalLeave: real)

  const Zero := Counters(0.0, 0.0, 0.0, 0.0)

  function Plus(a: Counters, b: Counters): Counters
  {
    Counters(a.present + b.present, a.absent + b.absent, a.paidLeave + b.paidLeave, a.totalLeave + b.totalLeave)
  }

  /** The Employee pay fields; each may be empty (`flt` makes it 0). */
  datatype PayEmployee = PayEmployee(
    name: string,
    basicPay: Option<real>, hra: Option<real>, conveyance: Option<real>,
    medical: Option<real>, otherAllowances: Option<real>,
    pf: Option<real>, healthInsurance: Option<real>, professionalTax: Option<real>,
    loanRecovery: Option<real>)

  /** The amounts written on the slip. */
  datatype Pay = Pay(
    grossPay: real,
    grandGrossPay: real,
    netPay: real,
    grandNetPay: real,
    totalDeduction: real,
    workingDays: int,
    lop: real,
    lopDays: real,
    leaveDays: real,
    paidLeaveDays: real)

  /** The slip created for one employee. */
  datatype Slip = Slip(employee: string, pay: Pay)

  /** The first attendance record of the employee on `day` (draft or
      submitted). */
  function RecordOn(records: seq<DayRecord>, employee: string, day: Date): (r: Option<DayRecord>)
    ensures r.Some? ==> r.value in records && r.value.employee == employee && r.value.attendanceDate == day
                        && (r.value.docstatus == 0 || r.value.docstatus == 1)
    ensures r.None? ==> forall x :: x in records ==>
      !(x.employee == employee && x.attendanceDate == day && (x.docstatus == 0 || x.docstatus == 1))
  {
    if records == [] then None
    else
      var r := records[0];
      if r.employee == employee && r.attendanceDate == day && (r.docstatus == 0 || r.docstatus == 1) then Some(r)
      else RecordOn(records[1..], employee, day)
  }

  /** An approved allocation of that type covering the day with room left
      (`flt(taken) < flt(allocated)`). */
  predicate AllocationWithRoom(allocs: seq<Allocation>, employee: string, leaveType: string, day: Date)
  {
    exists i :: 0 <= i < |allocs| && allocs[i].employee == employee && allocs[i].leaveType == leaveType
                && allocs[i].status == Approved && Ord(allocs[i].fromDate) <= Ord(day) <= Ord(allocs[i].toDate)
                && allocs[i].totalTaken < allocs[i].totalAllocated
  }

  /** A workflow-approved application of that type covering the day. */
  predicate ApprovedApplication(apps: seq<LeaveRecord>, employee: string, leaveType: string, day: Date)
  {
    exists i :: 0 <= i < |apps| && apps[i].employee == employee && apps[i].leaveType == leaveType
                && apps[i].workflowState == Approved && Ord(apps[i].fromDate) <= Ord(day) <= Ord(apps[i].toDate)
  }

  /** How one day moves the counters. A holiday counts as present whatever
      the attendance; a day without attendance is absent leave; a leave
      status without a leave type counts nowhere. */
  function DayEffect(holiday: bool, rec: Option<DayRecord>, paid: bool): (c: Counters)
    ensures c.present >= 0.0 && c.absent >= 0.0 && c.paidLeave >= 0.0
    ensures c.present + c.absent <= 1.0 && c.paidLeave <= c.totalLeave <= 1.0
    ensures holiday ==> c == Counters(1.0, 0.0, 0.0, 0.0)
    ensures !holiday && rec.None? ==> c == Counters(0.0, 1.0, 0.0, 1.0)
  {
    if holiday then Counters(1.0, 0.0, 0.0, 0.0)
    else match rec
      case None => Counters(0.0, 1.0, 0.0, 1.0)
      case Some(r) =>
        if r.status == "Present" then Counters(1.0, 0.0, 0.0, 0.0)
        else if r.status == "Half Day" then
          (if r.leaveType == UnpaidLeave then Counters(0.0, 0.5, 0.0, 0.5) else Counters(0.5, 0.0, 0.5, 0.5))
        else if r.status == "Absent" then Counters(0.0, 1.0, 0.0, 1.0)
        else if (r.status == "On Leave" || r.status == "Leave") && r.leaveType != "" then
          (if paid then Counters(1.0, 0.0, 1.0, 1.0) else Counters(0.0, 1.0, 0.0, 1.0))
        else Zero
  }

  /** The day's classification with the lookups the loop performs. */
  function ClassifyDay(employee: string, day: Date, holidays: seq<Date>, records: seq<DayRecord>,
                       allocs: seq<Allocation>, apps: seq<LeaveRecord>): Counters
  {
    var rec := RecordOn(records, employee, day);
    var paid := rec.Some? && (AllocationWithRoom(allocs, employee, rec.value.leaveType, day)
                              || ApprovedApplication(apps, employee, rec.value.leaveType, day));
    DayEffect(day in holidays, rec, paid)
  }

  /** Counters after days 1..n of the month. */
  function Tally(employee: string, year: int, month: int, n: int, holidays: seq<Date>, records: seq<DayRecord>,
                 allocs: seq<Allocation>, apps: seq<LeaveRecord>): Counters
    requires ValidMonth(year, month) && 0 <= n <= DaysInMonth(year, month)
  {
    if n == 0 then Zero
    else Plus(Tally(employee, year, month, n - 1, holidays, records, allocs, apps),
              ClassifyDay(employee, DayOf(year, month, n), holidays, records, allocs, apps))
  }

  /** The per-day loop. */
  method CountDays(employee: string, year: int, month: int, holidays: seq<Date>, records: seq<DayRecord>,
                   allocs: seq<Allocation>, apps: seq<LeaveRecord>) returns (c: Counters)
    requires ValidMonth(year, month)
    ensures c == Tally(employee, year, month, DaysInMonth(year, month), holidays, records, allocs, apps)
  {
    var totalDays := DaysInMonth(year, month);
    var present, absent, paidLeave, totalLeave := 0.0, 0.0, 0.0, 0.0;
    var k := 1;
    while k <= totalDays
      invariant 1 <= k <= totalDays + 1
      invariant Counters(present, absent, paidLeave, totalLeave)
                == Tally(employee, year, month, k - 1, holidays, records, allocs, apps)
    {
      var d := ClassifyDay(employee, DayOf(year, month, k), holidays, records, allocs, apps);
      present, absent, paidLeave, totalLeave :=
        present + d.present, absent + d.absent, paidLeave + d.paidLeave, totalLeave + d.totalLeave;
      k := k + 1;
    }
    c := Counters(present, absent, paidLeave, totalLeave);
  }

  /** Over the first n days every counter stays between 0 and n, paid
      leave never exceeds total leave, and each day is present or absent at
      most once. */
  lemma {:induction false} TallyBounds(employee: string, year: int, month: int, n: int, holidays: seq<Date>,
                                       records: seq<DayRecord>, allocs: seq<Allocation>, apps: seq<LeaveRecord>)
    requires ValidMonth(year, month) && 0 <= n <= DaysInMonth(year, month)
    ensures var c := Tally(employee, year, month, n, holidays, records, allocs, apps);
      0.0 <= c.paidLeave <= c.totalLeave <= n as real
      && c.present >= 0.0 && c.absent >= 0.0 && c.present + c.absent <= n as real
  {
    if n > 0 {
      TallyBounds(employee, year, month, n - 1, holidays, records, allocs, apps);
    }
  }

  function Gross(e: PayEmployee): real
  {
    Flt(e.basicPay) + Flt(e.hra) + Flt(e.conveyance) + Flt(e.medical) + Flt(e.otherAllowances)
  }

  function BaseDeductions(e: PayEmployee): real
  {
    Flt(e.pf) + Flt(e.healthInsurance) + Flt(e.professionalTax) + Flt(e.loanRecovery)
  }

  /** The proration: unpaid leave days are cut from the gross pay in
      proportion to the month's days; without working days nothing is cut. */
  function Prorate(e: PayEmployee, c: Counters, workingDays: int): (p: Pay)
    ensures p.grandGrossPay + p.lop == p.grossPay
    ensures p.totalDeduction == BaseDeductions(e) + p.lop
    ensures p.grandNetPay == p.netPay == p.grandGrossPay - BaseDeductions(e)
    ensures p.lopDays == c.totalLeave - c.paidLeave
    ensures workingDays != 0 ==> p.lop * (workingDays as real) == p.grossPay * p.lopDays
  {
    var gross := Gross(e);
    var base := BaseDeductions(e);
    var unpaid := c.totalLeave - c.paidLeave;
    var wd := workingDays as real;
    var grandGross := if workingDays != 0 then gross * ((wd - unpaid) / wd) else gross;
    var lop := if workingDays != 0 then gross * (unpaid / wd) else 0.0;
    Pay(gross, grandGross, grandGross - base, grandGross - base, base + lop, workingDays, lop, unpaid,
        c.totalLeave, c.paidLeave)
  }

  /** With non-negative gross pay and loss-of-pay days within the month, the
      loss of pay lies between 0 and the gross pay. */
  lemma LopWithinGross(e: PayEmployee, c: Counters, workingDays: int)
    requires workingDays > 0 && Gross(e) >= 0.0
    requires 0.0 <= c.totalLeave - c.paidLeave <= workingDays as real
    ensures 0.0 <= Prorate(e, c, workingDays).lop <= Gross(e)
  {
    var unpaid := c.totalLeave - c.paidLeave;
    var wd := workingDays as real;
    var x := unpaid / wd;
    assert x * wd == unpaid;
    assert 0.0 <= x <= 1.0;
    var g := Gross(e);
    MulNonneg(g, x);
    MulNonneg(g, 1.0 - x);
    assert g - g * x == g * (1.0 - x);
  }

  lemma MulNonneg(a: real, b: real)
    requires a >= 0.0 && b >= 0.0
    ensures a * b >= 0.0
  {
  }

  /** The counters of a whole month always meet those conditions. */
  lemma MonthLopWithinGross(e: PayEmployee, year: int, month: int, holidays: seq<Date>,
                            records: seq<DayRecord>, allocs: seq<Allocation>, apps: seq<LeaveRecord>)
    requires ValidMonth(year, month) && Gross(e) >= 0.0
    ensures var n := DaysInMonth(year, month);
      var p := Prorate(e, Tally(e.name, year, month, n, holidays, records, allocs, apps), n);
      0.0 <= p.lopDays <= n as real && 0.0 <= p.lop <= p.grossPay
  {
    var n := DaysInMonth(year, month);
    TallyBounds(e.name, year, month, n, holidays, records, allocs, apps);
    LopWithinGross(e, Tally(e.name, year, month, n, holidays, records, allocs, apps), n);
  }

  // ------------------------------------------------------------- the run

  /** The slip of one employee without a slip for the period. */
  function SlipFor(e: PayEmployee, year: int, month: int, holidays: seq<Date>, records: seq<DayRecord>,
                   allocs: seq<Allocation>, apps: seq<LeaveRecord>): Slip
    requires ValidMonth(year, month)
  {
    var n := DaysInMonth(year, month);
    Slip(e.name, Prorate(e, Tally(e.name, year, month, n, holidays, records, allocs, apps), n))
  }

  /** The employees without a slip for the period, in order. */
  function Unslipped(es: seq<PayEmployee>, existing: set<string>): (r: seq<PayEmployee>)
    ensures forall e :: e in r <==> e in es && e.name !in existing
  {
    if es == [] then []
    else
      var init := Unslipped(es[..|es| - 1], existing);
      var e := es[|es| - 1];
      assert forall x :: x in es <==> x in es[..|es| - 1] || x == e;
      if e.name in existing then init else init + [e]
  }

  /** Slips created for the employees, in order, skipping those that already
      have one for the period. */
  function Slips(es: seq<PayEmployee>, existing: set<string>, year: int, month: int, holidays: seq<Date>,
                 records: seq<DayRecord>, allocs: seq<Allocation>, apps: seq<LeaveRecord>): (r: seq<Slip>)
    requires ValidMonth(year, month)
    ensures |r| == |Unslipped(es, existing)| <= |es|
    ensures forall i :: 0 <= i < |r| ==>
      r[i] == SlipFor(Unslipped(es, existing)[i], year, month, holidays, records, allocs, apps)
  {
    if es == [] then []
    else
      var init := Slips(es[..|es| - 1], existing, year, month, holidays, records, allocs, apps);
      var e := es[|es| - 1];
      if e.name in existing then init else init + [SlipFor(e, year, month, holidays, records, allocs, apps)]
  }

  /** The employees the run covers: the selected ones, or all when none is
      selected. */
  function Selected(all: seq<PayEmployee>, selected: seq<string>): (r: seq<PayEmployee>)
    ensures selected == [] ==> r == all
    ensures forall e :: e in r <==> e in all && (selected == [] || e.name in selected)
  {
    if selected == [] then all
    else if all == [] then []
    else
      var init := Selected(all[..|all| - 1], selected);
      assert forall e :: e in all[..|all| - 1] ==> e in all;
      if all[|all| - 1].name in selected then init + [all[|all| - 1]] else init
  }

  datatype RunResult = RunResult(slips: seq<Slip>, created: nat, skipped: nat, message: string)

  /** The run's reply, without the per-employee error lines. */
  function SlipsMessage(created: nat, skipped: nat): string
  {
    "Salary Slips Created: " + Text.NatToString(created) + ", Skipped: " + Text.NatToString(skipped)
  }

  /** The loop over the selected employees: an employee who already has a
      slip for the month is skipped, every other one gets a prorated slip. */
  method CreateSlips(es: seq<PayEmployee>, existing: set<string>, year: int, month: int, holidays: seq<Date>,
                     records: seq<DayRecord>, allocs: seq<Allocation>, apps: seq<LeaveRecord>)
    returns (slips: seq<Slip>, created: nat, skipped: nat)
    requires ValidMonth(year, month)
    ensures slips == Slips(es, existing, year, month, holidays, records, allocs, apps)
    ensures created == |slips| && created + skipped == |es|
  {
    slips, created, skipped := [], 0, 0;
    var i := 0;
    while i < |es|
      invariant 0 <= i <= |es|
      invariant slips == Slips(es[..i], existing, year, month, holidays, records, allocs, apps)
      invariant created == |slips| && created + skipped == i
    {
      assert es[..i + 1][..i] == es[..i];
      var e := es[i];
      if e.name in existing {
        skipped := skipped + 1;
      } else {
        var n := DaysInMonth(year, month);
        var c := CountDays(e.name, year, month, holidays, records, allocs, apps);
        slips := slips + [Slip(e.name, Prorate(e, c, n))];
        created := created + 1;
      }
      i := i + 1;
    }
    assert es[..|es|] == es;
  }

  /** Raised when the year or the month is missing (0 or empty); any other
      impossible month fails later, in the host's date parsing. */
  const MissingPeriodMessage := "Please provide year and month"

  /** `generate_salary_slips_from_employee`: year and month are required;
      every selected employee is either skipped (a slip for the period
      exists) or gets a new slip. `existing` names the employees already
      holding a slip for the period; the holidays are the non-working dates
      of the month's Holiday List. */
  method GenerateSlips(year: int, month: int, all: seq<PayEmployee>, selected: seq<string>, existing: set<string>,
                       lists: seq<HolidayList>, records: seq<DayRecord>, allocs: seq<Allocation>, apps: seq<LeaveRecord>)
    returns (r: Result<RunResult>)
    ensures r.Err? <==> !ValidMonth(year, month)
    ensures r.Err? ==> (r.msg == MissingPeriodMessage <==> year == 0 || month == 0)
    ensures r.Ok? ==> (var es := Selected(all, selected);
      var holidays := HolidayDatesForMonth(lists, year, month);
      r.value.slips == Slips(es, existing, year, month, holidays, records, allocs, apps)
      && r.value.created == |r.value.slips| && r.value.created + r.value.skipped == |es|
      && r.value.message == SlipsMessage(r.value.created, r.value.skipped))
  {
    if year == 0 || month == 0 {
      return Err(MissingPeriodMessage);
    }
    if !(1 <= month <= 12) {
      return Err("month must be in 1..12");
    }
    if year < 1 {
      var msg := "year " + Text.IntToString(year) + " is out of range";
      assert msg[0] != MissingPeriodMessage[0];
      return Err(msg);
    }
    var es := Selected(all, selected);
    var holidays := HolidayDatesForMonth(lists, year, month);
    var slips, created, skipped := CreateSlips(es, existing, year, month, holidays, records, allocs, apps);
    r := Ok(RunResult(slips, created, skipped, SlipsMessage(created, skipped)));
  }
}
