/** The Attendance Report with gap analysis: for every day of the range,
    newest first, and every selected employee in the order they were
    fetched, the employee's Attendance if there is one, otherwise a
    "Holiday" row for a non-working holiday, otherwise a "Missing" row for a
    day that is not in the future. */
module AttendanceReport {
  import opened Wrappers
  import opened Calendar
  import opened Holidays

  datatype Employee = Employee(name: string, employeeName: string, dateOfJoining: Option<Date>, status: string)

  /** An Attendance row as the report fetches it. */
  datatype Mark = Mark(
    name: string,
    employee: string,
    employeeName: string,
    attendanceDate: Date,
    status: string,
    inTime: Option<string>,
    outTime: Option<string>,
    workingHours: Option<string>,
    overtime: Option<string>,
    manual: int,
    docstatus: int)

  /** A report row: a fetched Attendance, or one the report makes up (in and
      out time, overtime and name empty, manual 0). */
  datatype ReportRow =
    | Recorded(mark: Mark)
    | Synthesized(date: Date, employee: string, employeeName: string, status: string, workingHours: string)
  {
    function Day(): Date
    {
      if Recorded? then mark.attendanceDate else date
    }

    function Who(): string
    {
      if Recorded? then mark.employee else employee
    }

    function Status(): string
    {
      if Recorded? then mark.status else status
    }
  }

  /** The report's filters; a missing value is None. */
  datatype Filters = Filters(fromDate: Option<Date>, toDate: Option<Date>, employee: Option<string>, status: Option<string>)

  /** What every day of the walk consults. */
  datatype Context = Context(marks: seq<Mark>, holidays: seq<HolidayRow>, today: Date, status: Option<string>)

  /** Active employees, only the chosen one unless the choice is none,
      empty or "all". */
  function Selected(all: seq<Employee>, choice: Option<string>): (r: seq<Employee>)
    ensures forall e :: e in r <==> e in all && e.status == "Active"
                                    && (choice.None? || choice.value == "" || choice.value == "all" || e.name == choice.value)
  {
    if all == [] then []
    else
      var e := all[|all| - 1];
      Selected(all[..|all| - 1], choice)
        + (if e.status == "Active" && (choice.None? || choice.value == "" || choice.value == "all" || e.name == choice.value) then [e] else [])
  }

  /** `attendance_map[e][str(d)]`: of the fetched rows of that employee and
      day, the one stored last. */
  function AttendanceOn(marks: seq<Mark>, employee: string, d: Date): (r: Option<Mark>)
    ensures r.Some? ==> r.value in marks && r.value.employee == employee && r.value.attendanceDate == d
    ensures r.None? ==> forall m :: m in marks ==> !(m.employee == employee && m.attendanceDate == d)
  {
    if marks == [] then None
    else
      var m := marks[|marks| - 1];
      if m.employee == employee && m.attendanceDate == d then Some(m)
      else AttendanceOn(marks[..|marks| - 1], employee, d)
  }

  /** The holiday rows of every list of the range's year(s), whatever its
      month. */
  function HolidayRowsOf(lists: seq<HolidayList>, fromYear: int, toYear: int): seq<HolidayRow>
  {
    if lists == [] then []
    else
      var l := lists[|lists| - 1];
      HolidayRowsOf(lists[..|lists| - 1], fromYear, toYear)
        + (if l.year == fromYear || l.year == toYear then l.holidays else [])
  }

  /** `holiday_map[str(d)]`: the holiday row of that day stored last. */
  function HolidayOn(rows: seq<HolidayRow>, d: Date): (r: Option<HolidayRow>)
    ensures r.Some? ==> r.value in rows && r.value.holidayDate == d
    ensures r.None? ==> forall h :: h in rows ==> h.holidayDate != d
  {
    if rows == [] then None
    else if rows[|rows| - 1].holidayDate == d then Some(rows[|rows| - 1])
    else HolidayOn(rows[..|rows| - 1], d)
  }

  /** The row for one employee and day before the status filter: attendance
      first, then a non-working holiday, then a day up to today. A holiday
      row marked as a working day stops the search without a row. */
  function Cell(d: Date, e: Employee, ctx: Context): (r: Option<ReportRow>)
    ensures r.Some? ==> r.value.Day() == d && r.value.Who() == e.name
  {
    match AttendanceOn(ctx.marks, e.name, d)
    case Some(m) => Some(Recorded(m))
    case None =>
      match HolidayOn(ctx.holidays, d)
      case Some(h) =>
        if h.isWorkingDay == 0 then Some(Synthesized(d, e.name, e.employeeName, "Holiday", h.description)) else None
      case None =>
        if Ord(d) <= Ord(ctx.today) then Some(Synthesized(d, e.name, e.employeeName, "Missing", "00:00")) else None
  }

  /** The status filter: none, empty or "all" keeps every row. */
  predicate Keep(status: Option<string>, r: ReportRow)
  {
    status.None? || status.value == "" || status.value == "all" || r.Status() == status.value
  }

  /** No row for an employee before their joining date. */
  predicate BeforeJoining(e: Employee, d: Date)
  {
    e.dateOfJoining.Some? && Ord(d) < Ord(e.dateOfJoining.value)
  }

  /** What one employee contributes on day d. */
  function Emit(d: Date, e: Employee, ctx: Context): seq<ReportRow>
  {
    if BeforeJoining(e, d) then []
    else match Cell(d, e, ctx)
      case Some(r) => if Keep(ctx.status, r) then [r] else []
      case None => []
  }

  /** The rows of day d, employees in order. */
  function DayRows(d: Date, emps: seq<Employee>, ctx: Context): seq<ReportRow>
  {
    if emps == [] then [] else DayRows(d, emps[..|emps| - 1], ctx) + Emit(d, emps[|emps| - 1], ctx)
  }

  /** The rows of the days lo..hi, newest day first. */
  function Walk(lo: Date, hi: Date, emps: seq<Employee>, ctx: Context): seq<ReportRow>
    decreases Ord(hi) - Ord(lo) + 1
  {
    if Ord(lo) > Ord(hi) then [] else Walk(NextDay(lo), hi, emps, ctx) + DayRows(lo, emps, ctx)
  }

  /** The range start: the given date, else the first day of this month. */
  function FromDate(f: Filters, today: Date): (r: Date)
    ensures f.fromDate.Some? ==> r == f.fromDate.value
    ensures f.fromDate.None? ==> r.year == today.year && r.month == today.month && r.day == 1
  {
    f.fromDate.GetOr(FirstDayOf(today))
  }

  /** The range end: the given date, else the last day of this month. */
  function ToDate(f: Filters, today: Date): (r: Date)
    ensures f.toDate.Some? ==> r == f.toDate.value
    ensures f.toDate.None? ==> r.year == today.year && r.month == today.month
                               && r.day == DaysInMonth(today.year, today.month)
  {
    f.toDate.GetOr(LastDayOf(today))
  }

  function ContextOf(f: Filters, today: Date, marks: seq<Mark>, lists: seq<HolidayList>): Context
  {
    Context(marks, HolidayRowsOf(lists, FromDate(f, today).year, ToDate(f, today).year), today, f.status)
  }

  /** Stepping back from 0001-01-01 raises inside the report, which then
      returns no rows. */
  predicate Overflows(f: Filters, today: Date)
  {
    FromDate(f, today) == FirstDate && Ord(ToDate(f, today)) >= Ord(FirstDate)
  }

  /** The report's rows. */
  function Report(f: Filters, today: Date, all: seq<Employee>, marks: seq<Mark>, lists: seq<HolidayList>): seq<ReportRow>
  {
    var emps := Selected(all, f.employee);
    if emps == [] || Overflows(f, today) then []
    else Walk(FromDate(f, today), ToDate(f, today), emps, ContextOf(f, today, marks, lists))
  }

  lemma FirstDateOrdinal(d: Date)
    ensures Ord(d) >= Ord(FirstDate) == 1
    ensures Ord(d) == 1 ==> d == FirstDate
  {
    if Ord(d) == 1 {
      OrdInjective(d, FirstDate);
    }
  }

  /** One more day at the old end of the walk, `next` being the day after
      `lo`. */
  lemma WalkStep(lo: Date, next: Date, hi: Date, emps: seq<Employee>, ctx: Context)
    requires Ord(lo) <= Ord(hi) && Ord(next) == Ord(lo) + 1
    ensures Walk(lo, hi, emps, ctx) == Walk(next, hi, emps, ctx) + DayRows(lo, emps, ctx)
  {
    OrdInjective(next, NextDay(lo));
  }

  lemma WalkEmpty(lo: Date, hi: Date, emps: seq<Employee>, ctx: Context)
    requires Ord(lo) > Ord(hi)
    ensures Walk(lo, hi, emps, ctx) == []
  {
  }

  lemma DayRowsStep(d: Date, emps: seq<Employee>, k: nat, ctx: Context)
    requires k < |emps|
    ensures DayRows(d, emps[..k + 1], ctx) == DayRows(d, emps[..k], ctx) + Emit(d, emps[k], ctx)
  {
    assert emps[..k + 1][..k] == emps[..k];
  }

  /** The employee loop of one day: each employee's row, if any, appended
      in order. */
  method AppendDay(rows: seq<ReportRow>, d: Date, emps: seq<Employee>, ctx: Context) returns (out: seq<ReportRow>)
    ensures out == rows + DayRows(d, emps, ctx)
  {
    out := rows;
    var k := 0;
    while k < |emps|
      invariant 0 <= k <= |emps|
      invariant out == rows + DayRows(d, emps[..k], ctx)
    {
      var e := emps[k];
      var piece: seq<ReportRow> := [];
      if !(e.dateOfJoining.Some? && Ord(d) < Ord(e.dateOfJoining.value)) {
        var row := Cell(d, e, ctx);
        if row.Some? && Keep(ctx.status, row.value) {
          piece := [row.value];
        }
      }
      assert piece == Emit(d, e, ctx);
      DayRowsStep(d, emps, k, ctx);
      out := out + piece;
      k := k + 1;
    }
    assert emps[..|emps|] == emps;
  }

  /** Where the walk stops: one day before `from`, or at once when the range
      is empty. */
  lemma WalkExit(from: Date, to: Date, next: Date, emps: seq<Employee>, ctx: Context)
    requires Ord(next) <= Ord(from) && (Ord(next) == Ord(from) || Ord(next) == Ord(to) + 1)
    ensures Walk(next, to, emps, ctx) == Walk(from, to, emps, ctx)
  {
    if Ord(next) == Ord(from) {
      OrdInjective(next, from);
    } else {
      WalkEmpty(next, to, emps, ctx);
      WalkEmpty(from, to, emps, ctx);
    }
  }

  /** The date walk from `to` down to `from`, each day's employee loop
      inside; `overflow` when stepping back from 0001-01-01 raises. */
  method WalkBack(from: Date, to: Date, emps: seq<Employee>, ctx: Context) returns (rows: seq<ReportRow>, overflow: bool)
    ensures overflow <==> from == FirstDate && Ord(to) >= Ord(from)
    ensures !overflow ==> rows == Walk(from, to, emps, ctx)
  {
    rows := [];
    var cur := to;
    ghost var next := NextDay(to);
    WalkEmpty(next, to, emps, ctx);
    while Ord(cur) >= Ord(from)
      invariant Ord(next) == Ord(cur) + 1 && Ord(cur) <= Ord(to)
      invariant Ord(next) >= Ord(from) || Ord(next) == Ord(to) + 1
      invariant rows == Walk(next, to, emps, ctx)
      decreases Ord(cur)
    {
      rows := AppendDay(rows, cur, emps, ctx);
      WalkStep(cur, next, to, emps, ctx);
      next := cur;
      if cur == FirstDate {
        FirstDateOrdinal(from);
        return rows, true;
      }
      cur := PrevDay(cur);
    }
    WalkExit(from, to, next, emps, ctx);
    assert from != FirstDate by {
      FirstDateOrdinal(cur);
    }
    overflow := false;
  }

  /** `get_data`: defaults for the range, the selected employees, the walk;
      any exception gives no rows. */
  method GetData(f: Filters, today: Date, all: seq<Employee>, marks: seq<Mark>, lists: seq<HolidayList>)
    returns (rows: seq<ReportRow>)
    ensures rows == Report(f, today, all, marks, lists)
  {
    var from := FromDate(f, today);
    var to := ToDate(f, today);
    var emps := Selected(all, f.employee);
    if emps == [] {
      return [];
    }
    var ctx := ContextOf(f, today, marks, lists);
    var overflow;
    rows, overflow := WalkBack(from, to, emps, ctx);
    if overflow {
      assert Overflows(f, today);
      rows := [];
    } else {
      assert !Overflows(f, today);
    }
  }

  // ---------------------------------------------------------------- properties

  /** Every row an employee contributes on day d is dated d and theirs. */
  lemma EmitShape(d: Date, e: Employee, ctx: Context)
    ensures forall r :: r in Emit(d, e, ctx) ==> r.Day() == d && r.Who() == e.name && Keep(ctx.status, r)
    ensures BeforeJoining(e, d) ==> Emit(d, e, ctx) == []
  {
  }

  /** The gap analysis for one employee and day: an Attendance is reported
      whenever one exists; a "Holiday" row needs a non-working holiday and
      no Attendance; a "Missing" row is made exactly when there is neither
      an Attendance nor a holiday row and the day is not in the future. */
  lemma CellCases(d: Date, e: Employee, ctx: Context)
    ensures (exists m :: m in ctx.marks && m.employee == e.name && m.attendanceDate == d)
              <==> Cell(d, e, ctx).Some? && Cell(d, e, ctx).value.Recorded?
    ensures Cell(d, e, ctx).Some? && Cell(d, e, ctx).value.Recorded? ==> Cell(d, e, ctx).value.mark in ctx.marks
    ensures (Cell(d, e, ctx).Some? && Cell(d, e, ctx).value.Synthesized? && Cell(d, e, ctx).value.status == "Holiday")
              ==> exists h :: h in ctx.holidays && h.holidayDate == d && h.isWorkingDay == 0
    ensures ((forall m :: m in ctx.marks ==> !(m.employee == e.name && m.attendanceDate == d))
             && (forall h :: h in ctx.holidays ==> h.holidayDate != d))
              ==> (Cell(d, e, ctx).Some? <==> Ord(d) <= Ord(ctx.today))
                  && (Cell(d, e, ctx).Some? ==> Cell(d, e, ctx).value == Synthesized(d, e.name, e.employeeName, "Missing", "00:00"))
    ensures (Cell(d, e, ctx).Some? && Cell(d, e, ctx).value.Synthesized? && Cell(d, e, ctx).value.status == "Missing")
              ==> Ord(d) <= Ord(ctx.today) && forall h :: h in ctx.holidays ==> h.holidayDate != d
  {
  }

  /** A row of day d comes from exactly the employees of the list. */
  lemma {:induction false} DayRowsMembers(d: Date, emps: seq<Employee>, ctx: Context, r: ReportRow)
    ensures r in DayRows(d, emps, ctx) <==> exists e :: e in emps && r in Emit(d, e, ctx)
  {
    if emps != [] {
      var init := emps[..|emps| - 1];
      DayRowsMembers(d, init, ctx, r);
      assert emps == init + [emps[|emps| - 1]];
    }
  }

  /** The walk from lo to hi holds exactly the rows of its days. */
  lemma {:induction false} WalkMembers(lo: Date, hi: Date, emps: seq<Employee>, ctx: Context, r: ReportRow)
    ensures r in Walk(lo, hi, emps, ctx) <==>
              Ord(lo) <= Ord(r.Day()) <= Ord(hi) && r in DayRows(r.Day(), emps, ctx)
    decreases Ord(hi) - Ord(lo) + 1
  {
    if Ord(lo) <= Ord(hi) {
      var next := NextDay(lo);
      WalkMembers(next, hi, emps, ctx, r);
      DayRowsMembers(lo, emps, ctx, r);
      if r in DayRows(lo, emps, ctx) {
        var e :| e in emps && r in Emit(lo, e, ctx);
        EmitShape(lo, e, ctx);
      }
      if r.Day() == lo {
        assert Ord(r.Day()) < Ord(next);
      } else if Ord(r.Day()) == Ord(lo) {
        OrdInjective(r.Day(), lo);
      }
    }
  }

  /** Rows are listed newest day first. */
  lemma {:induction false} WalkDescending(lo: Date, hi: Date, emps: seq<Employee>, ctx: Context)
    ensures forall i, j :: 0 <= i < j < |Walk(lo, hi, emps, ctx)| ==>
              Ord(Walk(lo, hi, emps, ctx)[i].Day()) >= Ord(Walk(lo, hi, emps, ctx)[j].Day())
    decreases Ord(hi) - Ord(lo) + 1
  {
    if Ord(lo) <= Ord(hi) {
      var next := NextDay(lo);
      var older := Walk(next, hi, emps, ctx);
      var today := DayRows(lo, emps, ctx);
      WalkDescending(next, hi, emps, ctx);
      assert Walk(lo, hi, emps, ctx) == older + today;
      forall k | 0 <= k < |older|
        ensures Ord(older[k].Day()) > Ord(lo)
      {
        WalkMembers(next, hi, emps, ctx, older[k]);
      }
      forall k | 0 <= k < |today|
        ensures today[k].Day() == lo
      {
        DayRowsMembers(lo, emps, ctx, today[k]);
        var e :| e in emps && today[k] in Emit(lo, e, ctx);
        EmitShape(lo, e, ctx);
      }
    }
  }

  /** Soundness and completeness of the report: a row appears exactly when
      the range can be walked, its day lies in the range, and a selected
      employee not yet to join on that day contributes it (their
      attendance, else a non-working holiday, else a missing day up to
      today, and it passes the status filter). */
  lemma ReportMembers(f: Filters, today: Date, all: seq<Employee>, marks: seq<Mark>, lists: seq<HolidayList>, r: ReportRow)
    ensures r in Report(f, today, all, marks, lists) <==>
              !Overflows(f, today)
              && Ord(FromDate(f, today)) <= Ord(r.Day()) <= Ord(ToDate(f, today))
              && exists e :: e in Selected(all, f.employee) && r in Emit(r.Day(), e, ContextOf(f, today, marks, lists))
  {
    var emps := Selected(all, f.employee);
    var ctx := ContextOf(f, today, marks, lists);
    WalkMembers(FromDate(f, today), ToDate(f, today), emps, ctx, r);
    DayRowsMembers(r.Day(), emps, ctx, r);
  }

  /** The report lists its rows newest day first. */
  lemma ReportDescending(f: Filters, today: Date, all: seq<Employee>, marks: seq<Mark>, lists: seq<HolidayList>)
    ensures var rows := Report(f, today, all, marks, lists);
            forall i, j :: 0 <= i < j < |rows| ==> Ord(rows[i].Day()) >= Ord(rows[j].Day())
  {
    WalkDescending(FromDate(f, today), ToDate(f, today), Selected(all, f.employee), ContextOf(f, today, marks, lists));
  }

  predicate DistinctNames(emps: seq<Employee>)
  {
    forall i, j :: 0 <= i < j < |emps| ==> emps[i].name != emps[j].name
  }

  /** No two rows for the same employee and day. */
  predicate OnePerCell(rows: seq<ReportRow>)
  {
    forall i, j :: 0 <= i < j < |rows| ==> rows[i].Day() != rows[j].Day() || rows[i].Who() != rows[j].Who()
  }

  lemma ConcatOnePerCell(a: seq<ReportRow>, b: seq<ReportRow>)
    requires OnePerCell(a) && OnePerCell(b)
    requires forall x, y :: x in a && y in b ==> x.Day() != y.Day() || x.Who() != y.Who()
    ensures OnePerCell(a + b)
  {
    var r := a + b;
    forall i, j | 0 <= i < j < |r|
      ensures r[i].Day() != r[j].Day() || r[i].Who() != r[j].Who()
    {
      if j < |a| {
        assert r[i] == a[i] && r[j] == a[j];
      } else if i >= |a| {
        assert r[i] == b[i - |a|] && r[j] == b[j - |a|];
      } else {
        assert r[i] in a && r[j] in b;
      }
    }
  }

  /** Selection keeps the fetched order, so distinct names stay distinct. */
  lemma {:induction false} SelectedDistinct(all: seq<Employee>, choice: Option<string>)
    requires DistinctNames(all)
    ensures DistinctNames(Selected(all, choice))
  {
    if all != [] {
      var init := all[..|all| - 1];
      var e := all[|all| - 1];
      SelectedDistinct(init, choice);
      var before := Selected(init, choice);
      forall x | x in before
        ensures x.name != e.name
      {
        var k :| 0 <= k < |init| && init[k] == x;
        assert all[k] == x;
      }
      var r := Selected(all, choice);
      forall i, j | 0 <= i < j < |r|
        ensures r[i].name != r[j].name
      {
        if j >= |before| {
          assert r[i] in before && r[j] == e;
        } else {
          assert r[i] == before[i] && r[j] == before[j];
        }
      }
    }
  }

  /** One day holds at most one row per employee. */
  lemma {:induction false} DayRowsOnePerCell(d: Date, emps: seq<Employee>, ctx: Context)
    requires DistinctNames(emps)
    ensures OnePerCell(DayRows(d, emps, ctx))
  {
    if emps != [] {
      var init := emps[..|emps| - 1];
      var e := emps[|emps| - 1];
      assert DistinctNames(init);
      DayRowsOnePerCell(d, init, ctx);
      EmitShape(d, e, ctx);
      forall x, y | x in DayRows(d, init, ctx) && y in Emit(d, e, ctx)
        ensures x.Day() != y.Day() || x.Who() != y.Who()
      {
        DayRowsMembers(d, init, ctx, x);
        var f :| f in init && x in Emit(d, f, ctx);
        EmitShape(d, f, ctx);
        var k :| 0 <= k < |init| && init[k] == f;
        assert emps[k] == f;
      }
      ConcatOnePerCell(DayRows(d, init, ctx), Emit(d, e, ctx));
    }
  }

  /** The whole walk holds at most one row per employee and day. */
  lemma {:induction false} WalkOnePerCell(lo: Date, hi: Date, emps: seq<Employee>, ctx: Context)
    requires DistinctNames(emps)
    ensures OnePerCell(Walk(lo, hi, emps, ctx))
    decreases Ord(hi) - Ord(lo) + 1
  {
    if Ord(lo) <= Ord(hi) {
      var next := NextDay(lo);
      WalkOnePerCell(next, hi, emps, ctx);
      DayRowsOnePerCell(lo, emps, ctx);
      forall x, y | x in Walk(next, hi, emps, ctx) && y in DayRows(lo, emps, ctx)
        ensures x.Day() != y.Day()
      {
        WalkMembers(next, hi, emps, ctx, x);
        DayRowsMembers(lo, emps, ctx, y);
        var f :| f in emps && y in Emit(lo, f, ctx);
        EmitShape(lo, f, ctx);
      }
      ConcatOnePerCell(Walk(next, hi, emps, ctx), DayRows(lo, emps, ctx));
    }
  }

  /** With distinct employee names, the report has at most one row per
      employee and day. */
  lemma ReportOnePerCell(f: Filters, today: Date, all: seq<Employee>, marks: seq<Mark>, lists: seq<HolidayList>)
    requires DistinctNames(all)
    ensures OnePerCell(Report(f, today, all, marks, lists))
  {
    SelectedDistinct(all, f.employee);
    WalkOnePerCell(FromDate(f, today), ToDate(f, today), Selected(all, f.employee), ContextOf(f, today, marks, lists));
  }
}
