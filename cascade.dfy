/** The carry-forward cascade: when the balance of one monthly Paid Leave
    allocation changes by `delta`, the next month's allocation (which carried
    that balance forward) is lowered by `delta`, and so on month after month
    until a quarterly restart month or a missing month stops it. */
module CarryForward {
  import opened Wrappers
  import opened Calendar
  import opened LeaveData

  /** The approved allocation that starts on `monthStart`. */
  predicate IsMonthAllocation(a: Allocation, employee: string, leaveType: string, monthStart: Date)
  {
    a.employee == employee && a.leaveType == leaveType && a.fromDate == monthStart && a.status == Approved
  }

  /** Approved allocations that start before `monthStart`. */
  predicate IsEarlierApproved(a: Allocation, employee: string, leaveType: string, monthStart: Date)
  {
    a.employee == employee && a.leaveType == leaveType && a.status == Approved
    && Ord(a.fromDate) < Ord(monthStart)
  }

  /** `get_all(..., limit=1)`: the first approved allocation starting on `monthStart`. */
  function MonthIndex(rows: seq<Allocation>, employee: string, leaveType: string, monthStart: Date): (r: Option<nat>)
    ensures r.Some? ==> r.value < |rows|
  {
    if rows == [] then None
    else if IsMonthAllocation(rows[0], employee, leaveType, monthStart) then Some(0)
    else match MonthIndex(rows[1..], employee, leaveType, monthStart)
      case None => None
      case Some(k) => Some(k + 1)
  }

  lemma {:induction false} MonthIndexMatches(rows: seq<Allocation>, employee: string, leaveType: string, monthStart: Date)
    ensures var r := MonthIndex(rows, employee, leaveType, monthStart);
      r.Some? ==> IsMonthAllocation(rows[r.value], employee, leaveType, monthStart)
  {
    if rows != [] && !IsMonthAllocation(rows[0], employee, leaveType, monthStart) {
      MonthIndexMatches(rows[1..], employee, leaveType, monthStart);
    }
  }

  /** The lookup finds nothing only when no approved allocation of the
      employee and type starts on `monthStart`. */
  lemma {:induction false} MonthIndexNone(rows: seq<Allocation>, employee: string, leaveType: string, monthStart: Date)
    ensures MonthIndex(rows, employee, leaveType, monthStart).None?
        <==> forall a :: a in rows ==> !IsMonthAllocation(a, employee, leaveType, monthStart)
  {
    if rows != [] {
      MonthIndexNone(rows[1..], employee, leaveType, monthStart);
      assert forall a :: a in rows <==> a == rows[0] || a in rows[1..];
    }
  }

  /** `frappe.db.count(...)` of approved allocations starting before `monthStart`. */
  function EarlierCount(rows: seq<Allocation>, employee: string, leaveType: string, monthStart: Date): nat
  {
    if rows == [] then 0
    else
      EarlierCount(rows[1..], employee, leaveType, monthStart)
      + (if IsEarlierApproved(rows[0], employee, leaveType, monthStart) then 1 else 0)
  }

  /** Rows that start strictly after `from`: the cascade's measure. */
  function Later(rows: seq<Allocation>, from: Date): set<nat>
  {
    set i: nat | i < |rows| && Ord(rows[i].fromDate) > Ord(from)
  }

  lemma LaterShrinks(rows: seq<Allocation>, from: Date, k: nat)
    requires k < |rows| && rows[k].fromDate == NextMonthStart(from)
    ensures |Later(rows, NextMonthStart(from))| < |Later(rows, from)|
  {
    var next := NextMonthStart(from);
    NextMonthStartFollows(from);
    var a := Later(rows, next);
    var b := Later(rows, from);
    assert a <= b - {k};
    assert k in b;
    SubsetSize(a, b - {k});
  }

  lemma {:induction false} SubsetSize(a: set<nat>, b: set<nat>)
    requires a <= b
    ensures |a| <= |b|
    decreases b
  {
    if a != {} {
      var x :| x in a;
      SubsetSize(a - {x}, b - {x});
    }
  }

  lemma {:induction false} ShapeDecides(s: seq<Allocation>, t: seq<Allocation>, employee: string, leaveType: string, monthStart: Date)
    requires SameShape(s, t)
    ensures MonthIndex(s, employee, leaveType, monthStart) == MonthIndex(t, employee, leaveType, monthStart)
    ensures EarlierCount(s, employee, leaveType, monthStart) == EarlierCount(t, employee, leaveType, monthStart)
    ensures Later(s, monthStart) == Later(t, monthStart)
  {
    if s != [] {
      assert Shape(s[0]) == Shape(t[0]);
      assert SameShape(s[1..], t[1..]) by {
        forall i | 0 <= i < |s| - 1 ensures Shape(s[1..][i]) == Shape(t[1..][i]) {
          assert s[1..][i] == s[i + 1];
          assert t[1..][i] == t[i + 1];
        }
      }
      ShapeDecides(s[1..], t[1..], employee, leaveType, monthStart);
      forall i | 0 <= i < |s| ensures s[i].fromDate == t[i].fromDate {
        assert Shape(s[i]) == Shape(t[i]);
      }
    }
  }

  /** The row the cascade from `from` lowers next, if it goes on: the next
      month's approved allocation, unless the leave type is not Paid Leave,
      there is none, or the number of approved allocations before that month
      is a multiple of three. */
  function NextTarget(rows: seq<Allocation>, employee: string, leaveType: string, from: Date): (r: Option<nat>)
    ensures r.Some? ==> (leaveType == PaidLeave && r.value < |rows|
      && IsMonthAllocation(rows[r.value], employee, leaveType, NextMonthStart(from))
      && |Later(rows, NextMonthStart(from))| < |Later(rows, from)|)
  {
    if leaveType != PaidLeave then None
    else
      var next := NextMonthStart(from);
      match MonthIndex(rows, employee, leaveType, next)
      case None => None
      case Some(k) =>
        if EarlierCount(rows, employee, leaveType, next) % 3 == 0 then None
        else
          MonthIndexMatches(rows, employee, leaveType, next);
          LaterShrinks(rows, from, k);
          Some(k)
  }

  /** The stop rule: the cascade goes on from `from` exactly for Paid Leave,
      when next month has an approved allocation and the number of approved
      allocations before next month is not a multiple of three. */
  lemma NextTargetRule(rows: seq<Allocation>, employee: string, leaveType: string, from: Date)
    ensures NextTarget(rows, employee, leaveType, from).Some?
        <==> leaveType == PaidLeave
             && (exists a :: a in rows && IsMonthAllocation(a, employee, leaveType, NextMonthStart(from)))
             && EarlierCount(rows, employee, leaveType, NextMonthStart(from)) % 3 != 0
  {
    MonthIndexNone(rows, employee, leaveType, NextMonthStart(from));
  }

  /** `set_value` of row k's allocation lowered by `delta`. */
  function Lowered(rows: seq<Allocation>, k: nat, delta: real): (r: seq<Allocation>)
    requires k < |rows|
    ensures SameShape(r, rows)
  {
    SetAllocated(rows, rows[k].name, rows[k].totalAllocated - delta)
  }

  /** The cascade's decisions read only the shape of the table. */
  lemma NextTargetByShape(s: seq<Allocation>, t: seq<Allocation>, employee: string, leaveType: string, from: Date)
    requires SameShape(s, t)
    ensures NextTarget(s, employee, leaveType, from) == NextTarget(t, employee, leaveType, from)
    ensures Later(s, NextMonthStart(from)) == Later(t, NextMonthStart(from))
  {
    ShapeDecides(s, t, employee, leaveType, NextMonthStart(from));
  }

  /** `sync_future_leave_allocations`: lower the next month's allocation by
      `delta` and recurse from that month, as long as `NextTarget` finds a
      row. */
  function Cascade(rows: seq<Allocation>, employee: string, leaveType: string, from: Date, delta: real): (r: seq<Allocation>)
    ensures |r| == |rows|
    decreases |Later(rows, from)|
  {
    match NextTarget(rows, employee, leaveType, from)
    case None => rows
    case Some(k) =>
      var rows1 := Lowered(rows, k, delta);
      NextTargetByShape(rows1, rows, employee, leaveType, from);
      Cascade(rows1, employee, leaveType, NextMonthStart(from), delta)
  }

  /** One step of the cascade, with the measure it decreases. */
  lemma CascadeStep(rows: seq<Allocation>, employee: string, leaveType: string, from: Date, delta: real, k: nat)
    requires NextTarget(rows, employee, leaveType, from) == Some(k)
    ensures Cascade(rows, employee, leaveType, from, delta)
         == Cascade(Lowered(rows, k, delta), employee, leaveType, NextMonthStart(from), delta)
    ensures |Later(Lowered(rows, k, delta), NextMonthStart(from))| < |Later(rows, from)|
  {
    NextTargetByShape(Lowered(rows, k, delta), rows, employee, leaveType, from);
  }

  /** A row the cascade started at `from` may change. */
  predicate IsCarryTarget(a: Allocation, employee: string, from: Date)
  {
    a.employee == employee && a.leaveType == PaidLeave && a.status == Approved
    && Ord(a.fromDate) > Ord(from)
  }

  /** The indices the cascade started at `from` lowers; they depend only on the
      shape of the table, never on the allocated amounts. */
  function Touched(rows: seq<Allocation>, employee: string, leaveType: string, from: Date): (r: set<nat>)
    ensures forall i :: i in r ==> i < |rows|
    decreases |Later(rows, from)|
  {
    match NextTarget(rows, employee, leaveType, from)
    case None => {}
    case Some(k) => {k} + Touched(rows, employee, leaveType, NextMonthStart(from))
  }

  lemma {:induction false} TouchedAreCarryTargets(rows: seq<Allocation>, employee: string, leaveType: string, from: Date)
    ensures forall i :: i in Touched(rows, employee, leaveType, from) ==> IsCarryTarget(rows[i], employee, from)
    decreases |Later(rows, from)|
  {
    var m := NextTarget(rows, employee, leaveType, from);
    if m.Some? {
      TouchedAreCarryTargets(rows, employee, leaveType, NextMonthStart(from));
      NextMonthStartFollows(from);
    }
  }

  /** Lower the allocation of every row in `touched` by `delta`. */
  function Apply(rows: seq<Allocation>, touched: set<nat>, delta: real): (r: seq<Allocation>)
    ensures |r| == |rows|
  {
    seq(|rows|, i requires 0 <= i < |rows| =>
      if i in touched then rows[i].(totalAllocated := rows[i].totalAllocated - delta) else rows[i])
  }

  lemma {:induction false} TouchedByShape(s: seq<Allocation>, t: seq<Allocation>, employee: string, leaveType: string, from: Date)
    requires SameShape(s, t)
    ensures Touched(s, employee, leaveType, from) == Touched(t, employee, leaveType, from)
    decreases |Later(s, from)|
  {
    NextTargetByShape(s, t, employee, leaveType, from);
    if NextTarget(s, employee, leaveType, from).Some? {
      TouchedByShape(s, t, employee, leaveType, NextMonthStart(from));
    }
  }

  lemma ApplyKeepsShape(rows: seq<Allocation>, touched: set<nat>, delta: real)
    ensures SameShape(Apply(rows, touched, delta), rows)
    ensures UniqueNames(rows) ==> UniqueNames(Apply(rows, touched, delta))
  {
  }

  lemma SetAllocatedIsApply(rows: seq<Allocation>, k: nat, delta: real)
    requires UniqueNames(rows) && k < |rows|
    ensures SetAllocated(rows, rows[k].name, rows[k].totalAllocated - delta) == Apply(rows, {k}, delta)
  {
  }

  lemma ApplyUnion(rows: seq<Allocation>, k: nat, touched: set<nat>, delta: real)
    requires k !in touched
    ensures Apply(Apply(rows, {k}, delta), touched, delta) == Apply(rows, {k} + touched, delta)
  {
    var a := Apply(Apply(rows, {k}, delta), touched, delta);
    var b := Apply(rows, {k} + touched, delta);
    forall i | 0 <= i < |rows| ensures a[i] == b[i] {
      if i == k {
        assert i !in touched;
      }
    }
  }

  lemma ApplyAdditive(rows: seq<Allocation>, touched: set<nat>, d1: real, d2: real, d: real)
    requires d == d1 + d2
    ensures Apply(Apply(rows, touched, d1), touched, d2) == Apply(rows, touched, d)
  {
  }

  lemma ApplyZero(rows: seq<Allocation>, touched: set<nat>)
    ensures Apply(rows, touched, 0.0) == rows
  {
  }

  lemma LoweredIsApply(rows: seq<Allocation>, k: nat, delta: real)
    requires UniqueNames(rows) && k < |rows|
    ensures Lowered(rows, k, delta) == Apply(rows, {k}, delta) && UniqueNames(Lowered(rows, k, delta))
  {
    SetAllocatedIsApply(rows, k, delta);
    ApplyKeepsShape(rows, {k}, delta);
  }

  /** The row a step lowers is not lowered again further down the cascade. */
  lemma NotTouchedAgain(rows: seq<Allocation>, employee: string, leaveType: string, from: Date, k: nat)
    requires NextTarget(rows, employee, leaveType, from) == Some(k)
    ensures k !in Touched(rows, employee, leaveType, NextMonthStart(from))
    ensures Touched(rows, employee, leaveType, from) == {k} + Touched(rows, employee, leaveType, NextMonthStart(from))
  {
    TouchedAreCarryTargets(rows, employee, leaveType, NextMonthStart(from));
  }

  lemma ClosedFormStep(rows: seq<Allocation>, rows1: seq<Allocation>, k: nat, t1: set<nat>, all: set<nat>,
                       c: seq<Allocation>, delta: real)
    requires rows1 == Apply(rows, {k}, delta) && k !in t1 && all == {k} + t1 && c == Apply(rows1, t1, delta)
    ensures c == Apply(rows, all, delta)
  {
    ApplyUnion(rows, k, t1, delta);
  }

  /** Closed form of the cascade: each touched row is lowered by exactly
      `delta`, every other row is left as it was. */
  lemma {:induction false} CascadeClosedForm(rows: seq<Allocation>, employee: string, leaveType: string, from: Date, delta: real)
    requires UniqueNames(rows)
    ensures Cascade(rows, employee, leaveType, from, delta)
         == Apply(rows, Touched(rows, employee, leaveType, from), delta)
    decreases |Later(rows, from)|
  {
    match NextTarget(rows, employee, leaveType, from)
    case None =>
      ApplyZero(rows, {});
    case Some(k) =>
      var next := NextMonthStart(from);
      var rows1 := Lowered(rows, k, delta);
      var t1 := Touched(rows, employee, leaveType, next);
      CascadeStep(rows, employee, leaveType, from, delta, k);
      LoweredIsApply(rows, k, delta);
      TouchedByShape(rows1, rows, employee, leaveType, next);
      CascadeClosedForm(rows1, employee, leaveType, next, delta);
      NotTouchedAgain(rows, employee, leaveType, from, k);
      ClosedFormStep(rows, rows1, k, t1, Touched(rows, employee, leaveType, from),
                     Cascade(rows1, employee, leaveType, next, delta), delta);
  }

  /** Only later approved Paid Leave allocations of the same employee change,
      each by exactly `delta`. */
  lemma CascadeEffect(rows: seq<Allocation>, employee: string, leaveType: string, from: Date, delta: real, i: int)
    requires UniqueNames(rows) && 0 <= i < |rows|
    ensures var r := Cascade(rows, employee, leaveType, from, delta);
      r[i] == rows[i]
      || (r[i] == rows[i].(totalAllocated := rows[i].totalAllocated - delta)
          && IsCarryTarget(rows[i], employee, from))
  {
    CascadeClosedForm(rows, employee, leaveType, from, delta);
    TouchedAreCarryTargets(rows, employee, leaveType, from);
  }

  lemma CascadeKeepsShape(rows: seq<Allocation>, employee: string, leaveType: string, from: Date, delta: real)
    requires UniqueNames(rows)
    ensures SameShape(Cascade(rows, employee, leaveType, from, delta), rows)
    ensures UniqueNames(Cascade(rows, employee, leaveType, from, delta))
  {
    CascadeClosedForm(rows, employee, leaveType, from, delta);
    ApplyKeepsShape(rows, Touched(rows, employee, leaveType, from), delta);
  }

  /** A cascade lowers its touched rows and leaves a table whose cascade
      touches the same rows. */
  lemma CascadeTouchesAgain(rows: seq<Allocation>, employee: string, leaveType: string, from: Date, delta: real)
    requires UniqueNames(rows)
    ensures var r := Cascade(rows, employee, leaveType, from, delta);
      r == Apply(rows, Touched(rows, employee, leaveType, from), delta) && UniqueNames(r)
      && Touched(r, employee, leaveType, from) == Touched(rows, employee, leaveType, from)
  {
    var r := Cascade(rows, employee, leaveType, from, delta);
    CascadeClosedForm(rows, employee, leaveType, from, delta);
    CascadeKeepsShape(rows, employee, leaveType, from, delta);
    TouchedByShape(r, rows, employee, leaveType, from);
  }

  /** Two cascades from the same month add up to one. */
  lemma {:induction false} CascadeAdditive(rows: seq<Allocation>, employee: string, leaveType: string, from: Date, d1: real, d2: real, d: real)
    requires UniqueNames(rows) && d == d1 + d2
    ensures Cascade(Cascade(rows, employee, leaveType, from, d1), employee, leaveType, from, d2)
         == Cascade(rows, employee, leaveType, from, d)
  {
    var t := Touched(rows, employee, leaveType, from);
    var r1 := Cascade(rows, employee, leaveType, from, d1);
    CascadeTouchesAgain(rows, employee, leaveType, from, d1);
    CascadeTouchesAgain(r1, employee, leaveType, from, d2);
    CascadeTouchesAgain(rows, employee, leaveType, from, d);
    ApplyAdditive(rows, t, d1, d2, d);
  }

  /** A zero change cascades to nothing. */
  lemma {:induction false} CascadeZero(rows: seq<Allocation>, employee: string, leaveType: string, from: Date)
    requires UniqueNames(rows)
    ensures Cascade(rows, employee, leaveType, from, 0.0) == rows
  {
    CascadeClosedForm(rows, employee, leaveType, from, 0.0);
    ApplyZero(rows, Touched(rows, employee, leaveType, from));
  }

  /** Cancelling a change cascades back exactly: lowering by `delta` and then
      raising by the same amount restores the table. */
  lemma {:induction false} CascadeInverse(rows: seq<Allocation>, employee: string, leaveType: string, from: Date, delta: real, undo: real)
    requires UniqueNames(rows) && undo == -delta
    ensures Cascade(Cascade(rows, employee, leaveType, from, delta), employee, leaveType, from, undo) == rows
  {
    assert Cascade(Cascade(rows, employee, leaveType, from, delta), employee, leaveType, from, undo)
        == Cascade(rows, employee, leaveType, from, 0.0) by {
      CascadeAdditive(rows, employee, leaveType, from, delta, undo, 0.0);
    }
    assert Cascade(rows, employee, leaveType, from, 0.0) == rows by {
      CascadeZero(rows, employee, leaveType, from);
    }
  }
}
