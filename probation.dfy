/** Employees and the three probation rules: probation lasts three calendar
    months from the date of joining, but the code base decides "still in
    probation" in three different ways, kept apart here. */
module Probation {
  import opened Wrappers
  import opened Calendar

  /** The Employee fields the leave and payroll code reads. */
  datatype Employee = Employee(
    name: string,
    employeeId: string,
    employeeName: string,
    dateOfJoining: Option<Date>,
    skipProbation: bool,
    status: string)

  const Active := "Active"

  /** Joining date plus three months (`add_months(doj, 3)`, and
      `doj + relativedelta(months=+3)`: both keep the day, clamped to the
      length of the target month). */
  function ProbationEnd(joining: Date): (r: Date)
    ensures r.year * 12 + r.month == joining.year * 12 + joining.month + 3
    ensures Ord(r) > Ord(joining)
  {
    var r := AddMonths(joining, 3).value;
    assert Ord(r) > Ord(joining) by {
      OrdFollowsCalendar(joining, r);
    }
    r
  }

  /** Allocation preview and monthly allocation: in probation when the
      probation end lies strictly after the month's first day. */
  predicate InProbationForMonth(e: Employee, monthStart: Date)
  {
    e.dateOfJoining.Some? && !e.skipProbation && Ord(ProbationEnd(e.dateOfJoining.value)) > Ord(monthStart)
  }

  datatype ProbationStatus = ProbationStatus(inProbation: bool, end: Option<Date>)

  /** `get_employee_probation_info`: inclusive of the end day, checked
      against the given date or today. */
  function ProbationInfo(employee: string, record: Option<Employee>, date: Option<Date>, today: Date): (r: ProbationStatus)
    ensures r.inProbation ==> employee != "" && record.Some? && record.value.dateOfJoining.Some?
                              && !record.value.skipProbation
    ensures r.inProbation ==> r.end == Some(ProbationEnd(record.value.dateOfJoining.value))
                              && Ord(date.GetOr(today)) <= Ord(r.end.value)
  {
    if employee == "" then ProbationStatus(false, None)
    else if record.None? || record.value.dateOfJoining.None? || record.value.skipProbation then ProbationStatus(false, None)
    else
      var end := ProbationEnd(record.value.dateOfJoining.value);
      var check := date.GetOr(today);
      ProbationStatus(Ord(end) >= Ord(check), Some(end))
  }

  /** `is_employee_in_probation`: strict `today < end`, and the skip flag is
      not consulted. */
  predicate InProbationToday(record: Option<Employee>, today: Date)
  {
    record.Some? && record.value.dateOfJoining.Some?
    && Ord(today) < Ord(ProbationEnd(record.value.dateOfJoining.value))
  }

  /** The month rule is the "today" rule evaluated on the month's first day,
      for an employee who does not skip probation. */
  lemma MonthRuleIsTodayRule(e: Employee, monthStart: Date)
    requires !e.skipProbation
    ensures InProbationForMonth(e, monthStart) <==> InProbationToday(Some(e), monthStart)
  {
  }

  /** The inclusive rule and the "today" rule agree on every day except the
      probation end day itself, where only the inclusive rule says yes. */
  lemma InclusiveRuleDiffersOnEndDay(e: Employee, day: Date)
    requires e.name != "" && e.dateOfJoining.Some? && !e.skipProbation
    ensures var end := ProbationEnd(e.dateOfJoining.value);
      ProbationInfo(e.name, Some(e), Some(day), day).inProbation
        == (InProbationToday(Some(e), day) || Ord(day) == Ord(end))
  {
  }

  /** An employee marked to skip probation is out of probation for the
      allocation code and the probation-info endpoint, yet in probation for
      `is_employee_in_probation` until three months after joining. */
  lemma SkipFlagIgnoredByTodayRule(e: Employee, day: Date)
    requires e.dateOfJoining.Some? && e.skipProbation
    requires Ord(day) < Ord(ProbationEnd(e.dateOfJoining.value))
    ensures !InProbationForMonth(e, day)
    ensures !ProbationInfo(e.name, Some(e), Some(day), day).inProbation
    ensures InProbationToday(Some(e), day)
  {
  }
}
