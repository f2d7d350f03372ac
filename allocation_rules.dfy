/** The Leave Allocation document's own hooks: the two validations run on
    every save and the carry-forward sync run after a manual edit. */
module AllocationRules {
  import opened Wrappers
  import opened Calendar
  import opened LeaveData
  import opened CarryForward

  /** The document being saved, with the fields that may still be empty. */
  datatype AllocationDoc = AllocationDoc(
    name: Option<string>,
    employee: string,
    leaveType: string,
    fromDate: Option<Date>,
    toDate: Option<Date>,
    totalAllocated: Option<real>,
    totalTaken: Option<real>)

  const BalanceMessage := "Total Leaves Allocated ({0}) cannot be less than Total Leaves Taken ({1})"

  /** `validate_balance`. */
  function ValidateBalance(doc: AllocationDoc): (r: Outcome)
    ensures r.Fail? <==> Flt(doc.totalAllocated) < Flt(doc.totalTaken)
  {
    if Flt(doc.totalAllocated) < Flt(doc.totalTaken) then Fail(BalanceMessage) else Pass
  }

  /** SQL `x BETWEEN lo AND hi` on dates. */
  predicate Between(x: Date, lo: Date, hi: Date)
  {
    Ord(lo) <= Ord(x) <= Ord(hi)
  }

  /** The row of the overlap query: same employee and type, not cancelled,
      not the document itself (`name or "New"`), and one of the three
      BETWEEN tests. */
  predicate Conflicts(a: Allocation, doc: AllocationDoc, from: Date, to: Date)
  {
    a.employee == doc.employee && a.leaveType == doc.leaveType && a.docstatus < 2
    && a.name != doc.name.GetOr("New")
    && (Between(from, a.fromDate, a.toDate) || Between(to, a.fromDate, a.toDate) || Between(a.fromDate, from, to))
  }

  function OverlapMessage(doc: AllocationDoc, other: string): string
  {
    "Employee " + doc.employee + " already has a " + doc.leaveType + " allocation for an overlapping period: " + other
  }

  /** `validate_overlap`: skipped without both dates, otherwise rejected on
      the first conflicting row. */
  function ValidateOverlap(rows: seq<Allocation>, doc: AllocationDoc): (r: Outcome)
    ensures doc.fromDate.None? || doc.toDate.None? ==> r == Pass
  {
    if doc.fromDate.None? || doc.toDate.None? then Pass
    else match FirstWhere(rows, a => Conflicts(a, doc, doc.fromDate.value, doc.toDate.value))
      case None => Pass
      case Some(k) => Fail(OverlapMessage(doc, rows[k].name))
  }

  /** `validate`: the balance rule first, then the overlap rule. */
  function Validate(rows: seq<Allocation>, doc: AllocationDoc): (r: Outcome)
    ensures r.Pass? <==> ValidateBalance(doc).Pass? && ValidateOverlap(rows, doc).Pass?
  {
    if ValidateBalance(doc).Fail? then ValidateBalance(doc) else ValidateOverlap(rows, doc)
  }

  /** The overlap check rejects exactly when some row conflicts. */
  lemma OverlapRejectsIffConflict(rows: seq<Allocation>, doc: AllocationDoc)
    requires doc.fromDate.Some? && doc.toDate.Some?
    ensures ValidateOverlap(rows, doc).Fail?
        <==> exists i :: 0 <= i < |rows| && Conflicts(rows[i], doc, doc.fromDate.value, doc.toDate.value)
  {
    var p := (a: Allocation) => Conflicts(a, doc, doc.fromDate.value, doc.toDate.value);
    FirstWhereIsFirst(rows, p);
    if ValidateOverlap(rows, doc).Fail? {
      var k := FirstWhere(rows, p).value;
      assert p(rows[k]);
    }
  }

  /** For well-formed ranges the three BETWEEN tests say exactly that the
      two closed intervals share a day. */
  lemma BetweenTestsMeanSharedDay(from: Date, to: Date, lo: Date, hi: Date)
    requires Ord(from) <= Ord(to) && Ord(lo) <= Ord(hi)
    ensures (Between(from, lo, hi) || Between(to, lo, hi) || Between(lo, from, to))
        <==> (Ord(from) <= Ord(hi) && Ord(lo) <= Ord(to))
  {
  }

  /** A document never conflicts with its own stored row, saved or not. */
  lemma NeverConflictsWithItself(a: Allocation, doc: AllocationDoc, from: Date, to: Date)
    requires a.name == doc.name.GetOr("New")
    ensures !Conflicts(a, doc, from, to)
  {
  }

  /** Cancelled allocations (docstatus 2) never block a save. */
  lemma CancelledNeverConflicts(rows: seq<Allocation>, doc: AllocationDoc)
    requires doc.fromDate.Some? && doc.toDate.Some?
    requires forall i :: 0 <= i < |rows| ==> rows[i].docstatus >= 2
    ensures ValidateOverlap(rows, doc) == Pass
  {
    OverlapRejectsIffConflict(rows, doc);
  }

  // ------------------------------------------------------- manual edits

  /** Change of the balance made by a manual edit: more allocated raises it,
      more taken lowers it. */
  function NetDelta(saved: Allocation, before: Allocation): real
  {
    (saved.totalAllocated - before.totalAllocated) - (saved.totalTaken - before.totalTaken)
  }

  /** `sync_manual_changes` (on_update): only for Paid Leave with a previous
      version, and only for a non-zero net change, cascade the negated net
      change from the document's month. */
  function SyncManualChanges(rows: seq<Allocation>, saved: Allocation, before: Option<Allocation>): (r: seq<Allocation>)
    ensures saved.leaveType != PaidLeave || before.None? ==> r == rows
    ensures before.Some? && NetDelta(saved, before.value) == 0.0 ==> r == rows
  {
    if saved.leaveType != PaidLeave || before.None? then rows
    else
      var total := NetDelta(saved, before.value);
      if total != 0.0 then Cascade(rows, saved.employee, saved.leaveType, saved.fromDate, -total) else rows
  }

  /** Raising an allocation's balance by k raises the allocated amount of
      exactly the rows the carry-forward cascade reaches (`Touched`) by k, and
      leaves every other row unchanged; `d` names the cascaded change, -k. */
  lemma SyncRaisesLaterMonths(rows: seq<Allocation>, saved: Allocation, before: Allocation, d: real)
    requires UniqueNames(rows) && saved.leaveType == PaidLeave
    requires d == -NetDelta(saved, before)
    ensures SyncManualChanges(rows, saved, Some(before))
         == Apply(rows, Touched(rows, saved.employee, PaidLeave, saved.fromDate), d)
  {
    if d != 0.0 {
      CascadeClosedForm(rows, saved.employee, saved.leaveType, saved.fromDate, d);
    } else {
      ApplyZero(rows, Touched(rows, saved.employee, PaidLeave, saved.fromDate));
    }
  }

  /** The rows a manual edit can change are the later months' approved Paid
      Leave allocations of the same employee, each raised by exactly k. */
  lemma SyncChangesOnlyCarryTargets(rows: seq<Allocation>, saved: Allocation, before: Allocation, i: int)
    requires UniqueNames(rows) && 0 <= i < |rows| && saved.leaveType == PaidLeave
    ensures var k := NetDelta(saved, before);
      var r := SyncManualChanges(rows, saved, Some(before));
      r[i] == rows[i]
      || (r[i] == rows[i].(totalAllocated := rows[i].totalAllocated + k)
          && IsCarryTarget(rows[i], saved.employee, saved.fromDate))
  {
    SyncRaisesLaterMonths(rows, saved, before, -NetDelta(saved, before));
    TouchedAreCarryTargets(rows, saved.employee, PaidLeave, saved.fromDate);
  }
}
