/** The two day-by-day scans for missing records: the "missing" count of an
    employee's attendance statistics, and the list of days of the current
    month that still lack a timesheet. Both walk forward one day at a time
    and keep the days a test selects. */
module MissingDays {
  import opened Wrappers
  import opened Calendar
  import opened Text
  import opened Holidays

  /** The days from `cur` to `last` (inclusive) that `keep` selects, in
      order. */
  function Scan(cur: Date, last: Date, keep: Date -> bool): (r: seq<Date>)
    decreases Ord(last) - Ord(cur) + 1
  {
    if Ord(cur) > Ord(last) then []
    else (if keep(cur) then [cur] else []) + Scan(NextDay(cur), last, keep)
  }

  /** A scan holds exactly the selected days of the range. */
  lemma {:induction false} ScanExact(cur: Date, last: Date, keep: Date -> bool, d: Date)
    decreases Ord(last) - Ord(cur) + 1
    ensures d in Scan(cur, last, keep) <==> Ord(cur) <= Ord(d) <= Ord(last) && keep(d)
  {
    if Ord(cur) <= Ord(last) {
      ScanExact(NextDay(cur), last, keep, d);
      if Ord(d) == Ord(cur) {
        OrdInjective(d, cur);
      }
    }
  }

  /** A scan is in strictly increasing date order and no longer than the
      range. */
  lemma {:induction false} ScanOrdered(cur: Date, last: Date, keep: Date -> bool)
    decreases Ord(last) - Ord(cur) + 1
    ensures var r := Scan(cur, last, keep);
      (forall i, j :: 0 <= i < j < |r| ==> Ord(r[i]) < Ord(r[j]))
      && |r| <= if Ord(cur) <= Ord(last) then Ord(last) - Ord(cur) + 1 else 0
  {
    if Ord(cur) <= Ord(last) {
      ScanOrdered(NextDay(cur), last, keep);
      var rest := Scan(NextDay(cur), last, keep);
      forall x | x in rest ensures Ord(cur) < Ord(x) {
        ScanExact(NextDay(cur), last, keep, x);
      }
    }
  }

  // ------------------------------------------- attendance statistics

  /** The days the statistics count as missing: on or after joining, not a
      non-working holiday, and without any attendance of the employee. */
  predicate MissingAttendance(d: Date, joining: Date, holidays: set<Date>, attended: set<Date>)
  {
    Ord(d) >= Ord(joining) && d !in holidays && d !in attended
  }

  /** The non-working holiday dates within [from, to] of the Holiday List of
      `from`'s month. */
  function HolidaysBetween(lists: seq<HolidayList>, from: Date, to: Date): (r: set<Date>)
    ensures forall d :: d in r ==> Ord(from) <= Ord(d) <= Ord(to)
  {
    set d | d in HolidayDatesForMonth(lists, from.year, from.month) && Ord(from) <= Ord(d) <= Ord(to)
  }

  /** The missing-day loop of `get_employee_attendance_stats`. A missing
      joining date reads as today. `attended` holds the dates on which the
      employee has any attendance record. */
  method CountMissing(from: Date, to: Date, joining: Option<Date>, today: Date, lists: seq<HolidayList>,
                      attended: set<Date>) returns (missing: nat)
    ensures var doj := joining.GetOr(today);
      var holidays := HolidaysBetween(lists, from, to);
      missing == |Scan(from, to, (d: Date) => MissingAttendance(d, doj, holidays, attended))|
  {
    var doj := joining.GetOr(today);
    var holidays := HolidaysBetween(lists, from, to);
    ghost var keep := (d: Date) => MissingAttendance(d, doj, holidays, attended);
    missing := 0;
    var cur := from;
    while Ord(cur) <= Ord(to)
      invariant missing + |Scan(cur, to, keep)| == |Scan(from, to, keep)|
      decreases Ord(to) - Ord(cur) + 1
    {
      if Ord(cur) < Ord(doj) {
        cur := NextDay(cur);
        continue;
      }
      if cur in holidays {
        cur := NextDay(cur);
        continue;
      }
      if cur !in attended {
        missing := missing + 1;
      }
      cur := NextDay(cur);
    }
  }

  /** The count is at most the number of days in the range. */
  lemma MissingWithinRange(from: Date, to: Date, doj: Date, holidays: set<Date>, attended: set<Date>)
    requires Ord(from) <= Ord(to)
    ensures |Scan(from, to, (d: Date) => MissingAttendance(d, doj, holidays, attended))| <= Ord(to) - Ord(from) + 1
  {
    ScanOrdered(from, to, (d: Date) => MissingAttendance(d, doj, holidays, attended));
  }

  /** A day counts as missing exactly when it lies in the range, on or after
      joining, is not a holiday and has no attendance. */
  lemma MissingExact(from: Date, to: Date, doj: Date, holidays: set<Date>, attended: set<Date>, d: Date)
    ensures d in Scan(from, to, (x: Date) => MissingAttendance(x, doj, holidays, attended))
      <==> Ord(from) <= Ord(d) <= Ord(to) && Ord(d) >= Ord(doj) && d !in holidays && d !in attended
  {
    ScanExact(from, to, (x: Date) => MissingAttendance(x, doj, holidays, attended), d);
  }

  /** With attendance on every day of the range nothing is missing. */
  lemma FullAttendanceNoMissing(from: Date, to: Date, doj: Date, holidays: set<Date>, attended: set<Date>)
    requires forall d: Date :: Ord(from) <= Ord(d) <= Ord(to) ==> d in attended
    ensures Scan(from, to, (x: Date) => MissingAttendance(x, doj, holidays, attended)) == []
  {
    var r := Scan(from, to, (x: Date) => MissingAttendance(x, doj, holidays, attended));
    if r != [] {
      MissingExact(from, to, doj, holidays, attended, r[0]);
    }
  }

  // --------------------------------------------- missing timesheets

  /** `str(date)`: ISO `YYYY-MM-DD`. */
  function DateText(d: Date): string
  {
    ZFill(NatToString(d.year), 4) + "-" + ZFill(NatToString(d.month), 2) + "-" + ZFill(NatToString(d.day), 2)
  }

  /** The days the timesheet reminder lists: not a Sunday, not a
      non-working holiday, no timesheet yet. */
  predicate MissingTimesheet(d: Date, holidays: seq<Date>, sheets: seq<Date>)
  {
    Weekday(d) != Sunday && d !in holidays && d !in sheets
  }

  /** `f` applied to every element, in order. */
  function Mapped<T, U>(xs: seq<T>, f: T -> U): (r: seq<U>)
    ensures |r| == |xs| && forall i :: 0 <= i < |xs| ==> r[i] == f(xs[i])
  {
    if xs == [] then [] else Mapped(xs[..|xs| - 1], f) + [f(xs[|xs| - 1])]
  }

  /** `get_current_month_missing_timesheets`: from the 1st of the current
      month to yesterday. `employee` is the Employee linked to the session
      user; `sheets` holds the dates of that employee's timesheets. On
      January 1st of year 1 there is no yesterday and the date arithmetic
      fails. */
  method MissingTimesheets(employee: Option<string>, today: Date, lists: seq<HolidayList>, sheets: seq<Date>)
    returns (r: Result<seq<string>>)
    ensures employee.None? ==> r == Err("No employee linked")
    ensures employee.Some? ==> (r.Ok? <==> today != FirstDate)
    ensures employee.Some? && today != FirstDate ==>
      var holidays := HolidayDatesForMonth(lists, today.year, today.month);
      r.value == Mapped(Scan(FirstDayOf(today), PrevDay(today), (d: Date) => MissingTimesheet(d, holidays, sheets)), DateText)
  {
    if employee.None? {
      return Err("No employee linked");
    }
    if today == FirstDate {
      return Err("date value out of range");
    }
    var first := FirstDayOf(today);
    var last := PrevDay(today);
    var holidays := HolidayDatesForMonth(lists, today.year, today.month);
    ghost var keep := (d: Date) => MissingTimesheet(d, holidays, sheets);
    ghost var all := Scan(first, last, keep);
    var missing: seq<string> := [];
    ghost var found: seq<Date> := [];
    var cur := first;
    while Ord(cur) <= Ord(last)
      invariant found + Scan(cur, last, keep) == all
      invariant missing == Mapped(found, DateText)
      decreases Ord(last) - Ord(cur) + 1
    {
      var next := NextDay(cur);
      ghost var rest := Scan(next, last, keep);
      assert Scan(cur, last, keep) == (if keep(cur) then [cur] else []) + rest;
      if Weekday(cur) != Sunday && cur !in holidays && cur !in sheets {
        assert keep(cur);
        assert found + Scan(cur, last, keep) == (found + [cur]) + rest;
        missing := missing + [DateText(cur)];
        found := found + [cur];
      } else {
        assert !keep(cur);
        assert Scan(cur, last, keep) == rest;
      }
      cur := next;
    }
    assert Scan(cur, last, keep) == [];
    assert found == all;
    r := Ok(missing);
  }

  /** On the first of a month the list is empty: the range ends before it
      starts. */
  lemma FirstOfMonthListsNothing(today: Date, holidays: seq<Date>, sheets: seq<Date>)
    requires today.day == 1 && today != FirstDate
    ensures Scan(FirstDayOf(today), PrevDay(today), (d: Date) => MissingTimesheet(d, holidays, sheets)) == []
  {
  }

  /** A day of the range is listed exactly when it is not a Sunday, not a
      holiday and has no timesheet; the list is in date order. */
  lemma TimesheetListExact(first: Date, last: Date, holidays: seq<Date>, sheets: seq<Date>, d: Date)
    ensures var r := Scan(first, last, (x: Date) => MissingTimesheet(x, holidays, sheets));
      (d in r <==> Ord(first) <= Ord(d) <= Ord(last) && Weekday(d) != Sunday && d !in holidays && d !in sheets)
      && (forall i, j :: 0 <= i < j < |r| ==> Ord(r[i]) < Ord(r[j]))
  {
    ScanExact(first, last, (x: Date) => MissingTimesheet(x, holidays, sheets), d);
    ScanOrdered(first, last, (x: Date) => MissingTimesheet(x, holidays, sheets));
  }
}
