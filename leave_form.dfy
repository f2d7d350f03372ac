/** The decisions of the Leave Application form: the total days it shows,
    the permission-minutes guard, which clarification round an HR question
    or an employee answer goes into, and when a submitted application's leave
    fields may be edited. */
module LeaveForm {
  import opened Wrappers
  import opened Calendar
  import Deduction

  /** The form fields `calculate_total_days` reads and writes; an empty
      string or 0 is an unset field. */
  datatype Form = Form(
    employee: string,
    leaveType: string,
    fromDate: Option<Date>,
    toDate: Option<Date>,
    halfDay: bool,
    permissionHours: real,
    totalDays: real)

  /** The days the form shows for a range: the calendar difference plus one,
      less half a day for a half day. */
  function ShownDays(from: Date, to: Date, halfDay: bool): real
  {
    (Ord(to) - Ord(from) + 1) as real - (if halfDay then 0.5 else 0.0)
  }

  /** `calculate_total_days`, up to the balance request it then sends: total
      0 while a required field is missing; a permission value under 10 is
      taken as hours and cleared, leaving the total alone; otherwise the
      shown days. */
  function CalculateTotalDays(f: Form): (r: Form)
    ensures (f.employee == "" || f.leaveType == "" || f.fromDate.None? || f.toDate.None?) ==> r == f.(totalDays := 0.0)
    ensures (f.employee != "" && f.leaveType != "" && f.fromDate.Some? && f.toDate.Some?
             && f.permissionHours != 0.0 && f.permissionHours < 10.0) ==> r == f.(permissionHours := 0.0)
    ensures r.totalDays != f.totalDays ==> r.permissionHours == f.permissionHours
    ensures ((f.permissionHours == 0.0 || f.permissionHours >= 10.0) && f.fromDate.Some? && f.toDate.Some?
             && f.employee != "" && f.leaveType != "")
              ==> r == f.(totalDays := ShownDays(f.fromDate.value, f.toDate.value, f.halfDay))
  {
    if f.employee == "" || f.leaveType == "" || f.fromDate.None? || f.toDate.None? then f.(totalDays := 0.0)
    else if f.permissionHours != 0.0 && f.permissionHours < 10.0 then f.(permissionHours := 0.0)
    else f.(totalDays := ShownDays(f.fromDate.value, f.toDate.value, f.halfDay))
  }

  /** One change of a field the form watches: `calculate_total_days` runs,
      and when it clears the permission field, that field's own change
      handler runs it once more. The chain ends on a form that a further run
      leaves as it is. */
  function Recalculate(f: Form): (r: Form)
    ensures CalculateTotalDays(r) == r
    ensures r.permissionHours == f.permissionHours || r.permissionHours == 0.0
    ensures (f.employee != "" && f.leaveType != "" && f.fromDate.Some? && f.toDate.Some?)
              ==> r.totalDays == ShownDays(f.fromDate.value, f.toDate.value, f.halfDay)
                  && (r.permissionHours == 0.0 || r.permissionHours >= 10.0)
  {
    var g := CalculateTotalDays(f);
    if g.permissionHours != f.permissionHours then CalculateTotalDays(g) else g
  }

  /** A full-day request shows exactly the days the server deducts. */
  lemma FullDaysAgree(from: Date, to: Date)
    ensures ShownDays(from, to, false) == Deduction.InclusiveDays(from, to) as real
  {
  }

  /** A half day is 0.5 on the server whatever the range; the form shows the
      same only when the range is a single day. */
  lemma HalfDayAgreesOnlyOnOneDay(from: Date, to: Date)
    ensures ShownDays(from, to, true) == 0.5 <==> from == to
  {
    if ShownDays(from, to, true) == 0.5 {
      OrdInjective(from, to);
    }
  }

  /** `rounds.find(field => !frm.doc[field])`: the first empty round. */
  function FirstEmpty(rounds: seq<string>): (r: Option<nat>)
    ensures r.Some? ==> r.value < |rounds| && rounds[r.value] == "" && forall k :: 0 <= k < r.value ==> rounds[k] != ""
    ensures r.None? ==> forall k :: 0 <= k < |rounds| ==> rounds[k] != ""
  {
    if rounds == [] then None
    else if rounds[0] == "" then Some(0)
    else match FirstEmpty(rounds[1..])
      case None => None
      case Some(i) => Some(i + 1)
  }

  /** The two columns of the clarification conversation. */
  datatype Conversation = Conversation(hrQueries: seq<string>, employeeReplies: seq<string>)

  const Rounds := 5

  /** HR's "Reply to Employee": the question goes into the first empty HR
      round; with all five used, nothing changes. */
  function HrReply(c: Conversation, query: string): (r: Result<Conversation>)
    ensures r.Err? <==> forall k :: 0 <= k < |c.hrQueries| ==> c.hrQueries[k] != ""
    ensures r.Ok? ==> r.value.employeeReplies == c.employeeReplies
                      && |r.value.hrQueries| == |c.hrQueries|
                      && exists i :: 0 <= i < |c.hrQueries| && c.hrQueries[i] == ""
                                     && r.value.hrQueries == c.hrQueries[i := query]
                                     && forall k :: 0 <= k < i ==> c.hrQueries[k] != ""
  {
    match FirstEmpty(c.hrQueries)
    case None => Err("Maximum communication rounds (5) reached.")
    case Some(i) => Ok(c.(hrQueries := c.hrQueries[i := query]))
  }

  /** Rounds used from the first one on, without gaps. */
  predicate Packed(rounds: seq<string>)
  {
    forall i, j :: 0 <= i < j < |rounds| && rounds[j] != "" ==> rounds[i] != ""
  }

  /** HR questions fill the rounds in order: a conversation without gaps
      keeps none, and gains one used round. */
  lemma HrReplyKeepsPacked(c: Conversation, query: string)
    requires Packed(c.hrQueries) && query != ""
    requires HrReply(c, query).Ok?
    ensures Packed(HrReply(c, query).value.hrQueries)
    ensures Used(HrReply(c, query).value.hrQueries) == Used(c.hrQueries) + 1
  {
    var i := FirstEmpty(c.hrQueries).value;
    var after := c.hrQueries[i := query];
    forall k | i < k < |c.hrQueries|
      ensures c.hrQueries[k] == ""
    {
    }
    UsedReplace(c.hrQueries, i, query);
  }

  /** The number of used rounds. */
  function Used(rounds: seq<string>): (n: nat)
    ensures n <= |rounds|
  {
    if rounds == [] then 0 else Used(rounds[..|rounds| - 1]) + (if rounds[|rounds| - 1] != "" then 1 else 0)
  }

  lemma {:induction false} UsedReplace(rounds: seq<string>, i: nat, x: string)
    requires i < |rounds| && rounds[i] == "" && x != ""
    ensures Used(rounds[i := x]) == Used(rounds) + 1
  {
    var last := |rounds| - 1;
    if i < last {
      UsedReplace(rounds[..last], i, x);
      assert rounds[i := x][..last] == rounds[..last][i := x];
    } else {
      assert rounds[i := x][..last] == rounds[..last];
    }
  }

  /** The round an employee answer belongs to: the first whose HR question
      is asked and not yet answered. */
  predicate Pending(c: Conversation, i: int)
  {
    0 <= i < |c.hrQueries| && i < |c.employeeReplies| && c.hrQueries[i] != "" && c.employeeReplies[i] == ""
  }

  /** The search loop of "Reply to HR": -1 when no round is pending. */
  method PendingRound(c: Conversation) returns (roundIndex: int)
    requires |c.hrQueries| == Rounds && |c.employeeReplies| == Rounds
    ensures roundIndex == -1 <==> forall k :: 0 <= k < Rounds ==> !Pending(c, k)
    ensures roundIndex != -1 ==> Pending(c, roundIndex) && forall k :: 0 <= k < roundIndex ==> !Pending(c, k)
  {
    roundIndex := -1;
    var i := 0;
    while i < Rounds
      invariant 0 <= i <= Rounds
      invariant roundIndex == -1
      invariant forall k :: 0 <= k < i ==> !Pending(c, k)
    {
      if c.hrQueries[i] != "" && c.employeeReplies[i] == "" {
        assert Pending(c, i);
        roundIndex := i;
        break;
      }
      i := i + 1;
    }
  }

  /** "Reply to HR": the answer goes into the pending round; without one,
      nothing changes. */
  method EmployeeReply(c: Conversation, reply: string) returns (r: Result<Conversation>)
    requires |c.hrQueries| == Rounds && |c.employeeReplies| == Rounds
    ensures r.Err? <==> forall k :: 0 <= k < Rounds ==> !Pending(c, k)
    ensures r.Ok? ==> r.value.hrQueries == c.hrQueries
                      && exists i :: Pending(c, i) && r.value.employeeReplies == c.employeeReplies[i := reply]
                                     && forall k :: 0 <= k < i ==> !Pending(c, k)
  {
    var i := PendingRound(c);
    if i == -1 {
      return Err("No pending HR queries to reply to.");
    }
    r := Ok(c.(employeeReplies := c.employeeReplies[i := reply]));
  }

  /** The leave fields of a submitted application are editable exactly for
      an Employee while clarification is requested; before submission the
      form leaves them alone (None). */
  function LeaveFieldsReadOnly(docstatus: int, workflowState: string, isEmployee: bool): (r: Option<bool>)
    ensures r.Some? <==> docstatus == 1
    ensures r == Some(false) <==> docstatus == 1 && workflowState == "Clarification Requested" && isEmployee
  {
    if docstatus != 1 then None
    else Some(!(workflowState == "Clarification Requested" && isEmployee))
  }
}
