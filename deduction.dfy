/** Approving a Leave Application: the requested amount is spread greedily
    over the employee's approved allocations in from_date order, each
    deduction cascading to later months, and whatever is left overflows onto
    the last allocation. */
module Deduction {
  import opened Wrappers
  import opened Calendar
  import opened Text
  import opened LeaveData
  import opened CarryForward

  /** The Leave Application fields the hook reads. */
  datatype Application = Application(
    name: string,
    employee: string,
    leaveType: string,
    fromDate: Date,
    toDate: Date,
    halfDay: bool,
    permissionHours: Option<real>,   // minutes, for the Permission type
    workflowState: string)

  /** One line of the deduction breakdown message. */
  datatype Added = Added(name: string, added: real, total: real)

  /** State of the deduction loop: the table, what is still to place, and the
      breakdown so far. */
  datatype Progress = Progress(rows: seq<Allocation>, remainder: real, report: seq<Added>)

  datatype Effect = Effect(rows: seq<Allocation>, report: seq<Added>)

  const PermissionHoursRequired := "Permission Hours are required for Permission leave type."

  /** Inclusive number of days from `from` to `to` (Python `(to - from).days + 1`). */
  function InclusiveDays(from: Date, to: Date): int
  {
    Ord(to) - Ord(from) + 1
  }

  /** `to_add`: permission minutes, half a day, or the inclusive day count. */
  function AmountToAdd(app: Application): (r: Result<real>)
    ensures r.Err? <==> Lower(app.leaveType) == "permission" && Flt(app.permissionHours) == 0.0
    ensures r.Ok? && Lower(app.leaveType) == "permission" ==> r.value == Flt(app.permissionHours) && r.value != 0.0
    ensures r.Ok? && Lower(app.leaveType) != "permission" && app.halfDay ==> r.value == 0.5
    ensures r.Ok? && Lower(app.leaveType) != "permission" && !app.halfDay
            ==> r.value == InclusiveDays(app.fromDate, app.toDate) as real
  {
    if Lower(app.leaveType) == "permission" then
      if Flt(app.permissionHours) == 0.0 then Err(PermissionHoursRequired)
      else Ok(Flt(app.permissionHours))
    else if app.halfDay then Ok(0.5)
    else Ok(InclusiveDays(app.fromDate, app.toDate) as real)
  }

  /** The hook's guards: Ok(None) when it returns without doing anything. */
  function Request(app: Application, stateBeforeSave: Option<string>): (r: Result<Option<real>>)
    ensures r == Ok(None) <==> app.workflowState != Approved || stateBeforeSave == Some(Approved)
                               || app.leaveType == "" || app.employee == ""
    ensures r.Ok? && r.value.Some? ==> AmountToAdd(app) == Ok(r.value.value)
    ensures r.Err? ==> AmountToAdd(app) == Err(r.msg)
  {
    if app.workflowState != Approved then Ok(None)
    else if stateBeforeSave == Some(Approved) then Ok(None)
    else if app.leaveType == "" || app.employee == "" then Ok(None)
    else match AmountToAdd(app)
      case Err(m) => Err(m)
      case Ok(v) => Ok(Some(v))
  }

  /** Approved allocations of this employee and type that end on or after the
      application's first day. */
  predicate IsCandidate(a: Allocation, app: Application)
  {
    a.employee == app.employee && a.leaveType == app.leaveType && a.status == Approved
    && Ord(a.toDate) >= Ord(app.fromDate)
  }

  /** The list fetched before the loop, `order_by="from_date asc"`. */
  function Snapshot(rows: seq<Allocation>, app: Application): seq<Allocation>
  {
    SortByFrom(Filter(rows, a => IsCandidate(a, app)))
  }

  lemma SnapshotFacts(rows: seq<Allocation>, app: Application)
    requires UniqueNames(rows)
    ensures var snap := Snapshot(rows, app);
      SortedByFrom(snap) && UniqueNames(snap)
      && (forall a :: a in snap <==> a in rows && IsCandidate(a, app))
  {
    FilterKeepsUniqueNames(rows, a => IsCandidate(a, app));
    SortKeepsUniqueNames(Filter(rows, a => IsCandidate(a, app)));
  }

  // ------------------------------------------------ the greedy distribution

  /** What the loop takes from one allocation: min(remainder, available), or
      nothing when the allocation has no room. */
  function Deduct(a: Allocation, remainder: real): (d: real)
    requires remainder > 0.0
    ensures 0.0 <= d <= remainder && d <= Available(a)
    ensures d == remainder || d == Available(a)
  {
    if Available(a) > 0.0 then (if remainder <= Available(a) then remainder else Available(a)) else 0.0
  }

  function Zeros(n: nat): (z: seq<real>)
    ensures |z| == n && forall j :: 0 <= j < n ==> z[j] == 0.0
  {
    if n == 0 then [] else [0.0] + Zeros(n - 1)
  }

  /** Reference definition of the amounts the loop takes, per allocation. */
  function Grants(snap: seq<Allocation>, remainder: real): (g: seq<real>)
    ensures |g| == |snap|
  {
    if snap == [] then []
    else if remainder <= 0.0 then Zeros(|snap|)
    else
      var d := Deduct(snap[0], remainder);
      [d] + Grants(snap[1..], remainder - d)
  }

  /** What the loop leaves unplaced. */
  function Leftover(snap: seq<Allocation>, remainder: real): real
  {
    if snap == [] || remainder <= 0.0 then remainder
    else Leftover(snap[1..], remainder - Deduct(snap[0], remainder))
  }

  function Total(g: seq<real>): real
  {
    if g == [] then 0.0 else g[0] + Total(g[1..])
  }

  function TotalAvailable(snap: seq<Allocation>): real
  {
    if snap == [] then 0.0 else Available(snap[0]) + TotalAvailable(snap[1..])
  }

  lemma {:induction false} TotalZeros(n: nat)
    ensures Total(Zeros(n)) == 0.0
  {
    if n > 0 {
      assert Zeros(n)[1..] == Zeros(n - 1);
      TotalZeros(n - 1);
    }
  }

  /** The loop's accounting: what it places plus what it leaves is the
      request, each allocation gets no more than it has room for, and the
      leftover is never negative. */
  lemma {:induction false} GrantsAccount(snap: seq<Allocation>, remainder: real)
    requires remainder > 0.0
    ensures Total(Grants(snap, remainder)) + Leftover(snap, remainder) == remainder
    ensures 0.0 <= Leftover(snap, remainder) <= remainder
    ensures forall j :: 0 <= j < |snap| ==> 0.0 <= Grants(snap, remainder)[j] <= Available(snap[j])
  {
    if snap != [] {
      var d := Deduct(snap[0], remainder);
      var g := Grants(snap, remainder);
      assert g[1..] == Grants(snap[1..], remainder - d);
      if remainder - d > 0.0 {
        GrantsAccount(snap[1..], remainder - d);
      } else {
        assert Grants(snap[1..], remainder - d) == Zeros(|snap| - 1);
        TotalZeros(|snap| - 1);
      }
      forall j | 0 <= j < |snap| ensures 0.0 <= g[j] <= Available(snap[j]) {
        if j > 0 {
          assert g[j] == g[1..][j - 1];
        }
      }
    }
  }

  /** When the allocations have room for the whole request, nothing is left
      over (so the overflow branch never runs). */
  lemma {:induction false} GrantsExhaust(snap: seq<Allocation>, remainder: real)
    requires remainder > 0.0 && TotalAvailable(snap) >= remainder
    ensures Leftover(snap, remainder) == 0.0
  {
    var d := Deduct(snap[0], remainder);
    if remainder - d > 0.0 {
      assert d == Available(snap[0]);
      GrantsExhaust(snap[1..], remainder - d);
    }
  }

  // ------------------------------------------------------ the loop itself

  /** The for-loop over the snapshot, from one allocation onwards. Values come
      from the snapshot, not from the table: the loop never re-reads rows. */
  function Distribute(rows: seq<Allocation>, snap: seq<Allocation>, remainder: real,
                      employee: string, leaveType: string): Progress
    decreases |snap|
  {
    if snap == [] || remainder <= 0.0 then Progress(rows, remainder, [])
    else
      var a := snap[0];
      if Available(a) > 0.0 then
        var deduct := Deduct(a, remainder);
        var newTaken := a.totalTaken + deduct;
        var rows1 := Cascade(SetTaken(rows, a.name, newTaken), employee, leaveType, a.fromDate, deduct);
        var rest := Distribute(rows1, snap[1..], remainder - deduct, employee, leaveType);
        Progress(rest.rows, rest.remainder, [Added(a.name, deduct, newTaken)] + rest.report)
      else
        Distribute(rows, snap[1..], remainder, employee, leaveType)
  }

  /** The loop step that takes `deduct` from the first allocation, with the
      report collected so far in front. */
  lemma DistributeTake(rows: seq<Allocation>, snap: seq<Allocation>, remainder: real, employee: string, leaveType: string,
                       deduct: real, newTaken: real, rows1: seq<Allocation>, report: seq<Added>)
    requires snap != [] && remainder > 0.0 && Available(snap[0]) > 0.0
    requires deduct == Deduct(snap[0], remainder) && newTaken == snap[0].totalTaken + deduct
    requires rows1 == Cascade(SetTaken(rows, snap[0].name, newTaken), employee, leaveType, snap[0].fromDate, deduct)
    ensures var d := Distribute(rows, snap, remainder, employee, leaveType);
      var rest := Distribute(rows1, snap[1..], remainder - deduct, employee, leaveType);
      Progress(d.rows, d.remainder, report + d.report)
        == Progress(rest.rows, rest.remainder, (report + [Added(snap[0].name, deduct, newTaken)]) + rest.report)
  {
  }

  function SumAdded(report: seq<Added>): real
  {
    if report == [] then 0.0 else report[0].added + SumAdded(report[1..])
  }

  /** The names of the snapshot, for "nowhere in the snapshot" statements. */
  predicate NamedIn(snap: seq<Allocation>, name: string)
  {
    exists j :: 0 <= j < |snap| && snap[j].name == name
  }

  /** The table agrees with the snapshot on every snapshot document. */
  predicate Consistent(rows: seq<Allocation>, snap: seq<Allocation>)
  {
    forall j :: 0 <= j < |snap| ==> HasName(rows, snap[j].name) && TakenOf(rows, snap[j].name) == snap[j].totalTaken
  }

  lemma SetThenCascade(rows: seq<Allocation>, name: string, v: real, employee: string, leaveType: string, from: Date, delta: real, other: string)
    requires UniqueNames(rows) && HasName(rows, name)
    ensures var r := Cascade(SetTaken(rows, name, v), employee, leaveType, from, delta);
      UniqueNames(r) && TakenOf(r, name) == v && HasName(r, name)
      && (other != name ==> TakenOf(r, other) == TakenOf(rows, other) && HasName(r, other) == HasName(rows, other))
  {
    var s := SetTaken(rows, name, v);
    SetTakenKeepsUniqueNames(rows, name, v);
    CascadeKeepsShape(s, employee, leaveType, from, delta);
    var r := Cascade(s, employee, leaveType, from, delta);
    TakenOfSameShape(r, s, name);
    TakenOfSameShape(r, s, other);
    TakenOfSetTakenSame(rows, name, v);
    HasNameSetTaken(rows, name, name, v);
    if other != name {
      TakenOfSetTakenOther(rows, name, other, v);
    }
  }

  /** The loop's remainder and breakdown are those of the reference
      distribution. */
  lemma {:induction false} DistributeAccounting(rows: seq<Allocation>, snap: seq<Allocation>, remainder: real,
                                                employee: string, leaveType: string)
    ensures var p := Distribute(rows, snap, remainder, employee, leaveType);
      p.remainder == Leftover(snap, remainder) && SumAdded(p.report) == Total(Grants(snap, remainder))
    decreases |snap|
  {
    if snap == [] || remainder <= 0.0 {
      if snap != [] {
        TotalZeros(|snap|);
      }
    } else {
      var a := snap[0];
      var deduct := Deduct(a, remainder);
      assert Grants(snap, remainder)[1..] == Grants(snap[1..], remainder - deduct);
      if Available(a) > 0.0 {
        var newTaken := a.totalTaken + deduct;
        var rows1 := Cascade(SetTaken(rows, a.name, newTaken), employee, leaveType, a.fromDate, deduct);
        DistributeAccounting(rows1, snap[1..], remainder - deduct, employee, leaveType);
      } else {
        DistributeAccounting(rows, snap[1..], remainder, employee, leaveType);
      }
    }
  }

  /** Taken amounts after one loop step that sets the first document's taken
      amount to v and cascades `delta`: the first document holds v, every
      other document is as before. */
  lemma StepTable(rows: seq<Allocation>, snap: seq<Allocation>, v: real, delta: real, employee: string, leaveType: string)
    requires UniqueNames(rows) && UniqueNames(snap) && Consistent(rows, snap) && snap != []
    ensures var rows1 := Cascade(SetTaken(rows, snap[0].name, v), employee, leaveType, snap[0].fromDate, delta);
      UniqueNames(rows1) && Consistent(rows1, snap[1..])
      && HasName(rows1, snap[0].name) && TakenOf(rows1, snap[0].name) == v
      && (forall m :: m != snap[0].name ==> TakenOf(rows1, m) == TakenOf(rows, m))
      && (forall m :: HasName(rows1, m) == HasName(rows, m))
  {
    assert HasName(rows, snap[0].name);
    var rows1 := SetThenCascadeAll(rows, snap[0].name, v, employee, leaveType, snap[0].fromDate, delta);
    ConsistentPastFirst(rows, rows1, snap);
  }

  /** `SetThenCascade` for every other document at once. */
  lemma SetThenCascadeAll(rows: seq<Allocation>, name: string, v: real, employee: string, leaveType: string,
                          from: Date, delta: real)
    returns (r: seq<Allocation>)
    requires UniqueNames(rows) && HasName(rows, name)
    ensures r == Cascade(SetTaken(rows, name, v), employee, leaveType, from, delta)
    ensures UniqueNames(r) && TakenOf(r, name) == v && HasName(r, name)
    ensures forall m :: m != name ==> TakenOf(r, m) == TakenOf(rows, m)
    ensures forall m :: HasName(r, m) == HasName(rows, m)
  {
    r := Cascade(SetTaken(rows, name, v), employee, leaveType, from, delta);
    SetThenCascade(rows, name, v, employee, leaveType, from, delta, name);
    forall m ensures (m != name ==> TakenOf(r, m) == TakenOf(rows, m)) && HasName(r, m) == HasName(rows, m) {
      SetThenCascade(rows, name, v, employee, leaveType, from, delta, m);
    }
  }

  /** Changing only the first snapshot document keeps the table consistent
      with the rest of the snapshot. */
  lemma ConsistentPastFirst(rows: seq<Allocation>, rows1: seq<Allocation>, snap: seq<Allocation>)
    requires UniqueNames(snap) && Consistent(rows, snap) && snap != []
    requires forall m :: m != snap[0].name ==> TakenOf(rows1, m) == TakenOf(rows, m)
    requires forall m :: HasName(rows1, m) == HasName(rows, m)
    ensures Consistent(rows1, snap[1..])
  {
    var tail := snap[1..];
    forall j | 0 <= j < |tail|
      ensures HasName(rows1, tail[j].name) && TakenOf(rows1, tail[j].name) == tail[j].totalTaken
    {
      assert tail[j] == snap[j + 1];
    }
  }

  /** The table after the loop body has handled allocation `a`. */
  function AfterStep(rows: seq<Allocation>, a: Allocation, remainder: real, employee: string, leaveType: string): seq<Allocation>
    requires remainder > 0.0
  {
    if Available(a) > 0.0 then
      var deduct := Deduct(a, remainder);
      Cascade(SetTaken(rows, a.name, a.totalTaken + deduct), employee, leaveType, a.fromDate, deduct)
    else rows
  }

  lemma DistributeStep(rows: seq<Allocation>, snap: seq<Allocation>, remainder: real, rest: real,
                       employee: string, leaveType: string)
    requires snap != [] && remainder > 0.0 && rest == remainder - Deduct(snap[0], remainder)
    ensures Distribute(rows, snap, remainder, employee, leaveType).rows
         == Distribute(AfterStep(rows, snap[0], remainder, employee, leaveType), snap[1..], rest, employee, leaveType).rows
  {
  }

  lemma AfterStepTable(rows: seq<Allocation>, snap: seq<Allocation>, remainder: real, employee: string, leaveType: string)
    requires UniqueNames(rows) && UniqueNames(snap) && Consistent(rows, snap)
    requires snap != [] && remainder > 0.0
    ensures var a := snap[0];
      var rows1 := AfterStep(rows, a, remainder, employee, leaveType);
      UniqueNames(rows1) && Consistent(rows1, snap[1..])
      && HasName(rows1, a.name) && TakenOf(rows1, a.name) == a.totalTaken + Deduct(a, remainder)
      && (forall m :: m != a.name ==> TakenOf(rows1, m) == TakenOf(rows, m))
      && (forall m :: HasName(rows1, m) == HasName(rows, m))
  {
    if Available(snap[0]) > 0.0 {
      StepTable(rows, snap, snap[0].totalTaken + Deduct(snap[0], remainder), Deduct(snap[0], remainder), employee, leaveType);
    } else {
      forall j | 0 <= j < |snap| - 1 ensures snap[1..][j] == snap[j + 1] {
      }
    }
  }

  /** The loop leaves each snapshot document with its snapshot taken amount
      plus its grant, and never touches the taken amount of a document
      outside the snapshot. */
  lemma {:induction false} DistributeTable(rows: seq<Allocation>, snap: seq<Allocation>, remainder: real,
                                           employee: string, leaveType: string)
    requires UniqueNames(rows) && UniqueNames(snap) && Consistent(rows, snap)
    ensures var p := Distribute(rows, snap, remainder, employee, leaveType);
      UniqueNames(p.rows)
      && (forall j :: 0 <= j < |snap| ==>
            (HasName(p.rows, snap[j].name)
             && TakenOf(p.rows, snap[j].name) == snap[j].totalTaken + Grants(snap, remainder)[j]))
      && (forall m :: !NamedIn(snap, m) ==> TakenOf(p.rows, m) == TakenOf(rows, m))
      && (forall m :: HasName(p.rows, m) == HasName(rows, m))
    decreases |snap|
  {
    if snap != [] && remainder > 0.0 {
      var a := snap[0];
      var g := Grants(snap, remainder);
      var rem1 := remainder - Deduct(a, remainder);
      var tail := snap[1..];
      var rows1 := AfterStep(rows, a, remainder, employee, leaveType);
      var final := Distribute(rows, snap, remainder, employee, leaveType).rows;
      assert g[0] == Deduct(a, remainder) && g[1..] == Grants(tail, rem1);
      AfterStepTable(rows, snap, remainder, employee, leaveType);
      assert UniqueNames(tail);
      DistributeTable(rows1, tail, rem1, employee, leaveType);
      DistributeStep(rows, snap, remainder, rem1, employee, leaveType);
      assert final == Distribute(rows1, tail, rem1, employee, leaveType).rows;
      assert !NamedIn(tail, a.name) by {
        forall j | 0 <= j < |tail| ensures tail[j].name != a.name {
          assert tail[j] == snap[j + 1];
        }
      }
      forall j | 0 <= j < |snap|
        ensures HasName(final, snap[j].name) && TakenOf(final, snap[j].name) == snap[j].totalTaken + g[j]
      {
        if j > 0 {
          assert snap[j] == tail[j - 1];
          assert g[j] == Grants(tail, rem1)[j - 1];
        } else {
          assert TakenOf(final, a.name) == TakenOf(rows1, a.name);
        }
      }
      forall m | !NamedIn(snap, m) ensures TakenOf(final, m) == TakenOf(rows, m) {
        assert m != a.name;
        assert !NamedIn(tail, m) by {
          forall j | 0 <= j < |tail| ensures tail[j].name != m {
            assert tail[j] == snap[j + 1];
          }
        }
      }
    }
  }

  // ------------------------------------------------------------ overflow

  /** The breakdown after the overflow: the first line for `name` gets the
      extra amount and the new total; without such a line one is appended. */
  function MergeReport(report: seq<Added>, name: string, extra: real, total: real): (r: seq<Added>)
    ensures |r| == |report| || r == report + [Added(name, extra, total)]
  {
    if report == [] then [Added(name, extra, total)]
    else if report[0].name == name then [report[0].(added := report[0].added + extra, total := total)] + report[1..]
    else [report[0]] + MergeReport(report[1..], name, extra, total)
  }

  lemma {:induction false} MergeReportSum(report: seq<Added>, name: string, extra: real, total: real)
    ensures SumAdded(MergeReport(report, name, extra, total)) == SumAdded(report) + extra
  {
    if report != [] && report[0].name != name {
      var r := MergeReport(report, name, extra, total);
      assert r[1..] == MergeReport(report[1..], name, extra, total);
      MergeReportSum(report[1..], name, extra, total);
    } else if report != [] {
      var r := MergeReport(report, name, extra, total);
      assert r[1..] == report[1..];
    }
  }

  /** MergeReport changes exactly the first line carrying the name. */
  lemma {:induction false} MergeReportAt(report: seq<Added>, name: string, extra: real, total: real, k: nat)
    requires k < |report| && report[k].name == name
    requires forall j :: 0 <= j < k ==> report[j].name != name
    ensures MergeReport(report, name, extra, total)
         == report[k := report[k].(added := report[k].added + extra, total := total)]
  {
    if k > 0 {
      forall j | 0 <= j < k - 1 ensures report[1..][j].name != name {
        assert report[1..][j] == report[j + 1];
      }
      MergeReportAt(report[1..], name, extra, total, k - 1);
    }
  }

  /** Without a line for the name, MergeReport appends one. */
  lemma {:induction false} MergeReportAbsent(report: seq<Added>, name: string, extra: real, total: real)
    requires forall j :: 0 <= j < |report| ==> report[j].name != name
    ensures MergeReport(report, name, extra, total) == report + [Added(name, extra, total)]
  {
    if report != [] {
      forall j | 0 <= j < |report| - 1 ensures report[1..][j].name != name {
        assert report[1..][j] == report[j + 1];
      }
      MergeReportAbsent(report[1..], name, extra, total);
      assert [report[0]] + (report[1..] + [Added(name, extra, total)]) == report + [Added(name, extra, total)];
    }
  }

  /** After the loop: a positive remainder is written onto the last
      allocation as `base + remainder` and cascaded from its month. */
  function Overflow(p: Progress, last: Allocation, base: real, employee: string, leaveType: string): Effect
  {
    if p.remainder > 0.0 then
      var newTaken := base + p.remainder;
      Effect(Cascade(SetTaken(p.rows, last.name, newTaken), employee, leaveType, last.fromDate, p.remainder),
             MergeReport(p.report, last.name, p.remainder, newTaken))
    else Effect(p.rows, p.report)
  }

  /** The hook as written: the overflow starts from the last allocation's
      taken amount as it was fetched before the loop. */
  function PlaceAsWritten(rows: seq<Allocation>, app: Application, toAdd: real): Effect
  {
    var snap := Snapshot(rows, app);
    if snap == [] then Effect(rows, [])
    else
      var last := snap[|snap| - 1];
      var p := Distribute(rows, snap, toAdd, app.employee, app.leaveType);
      Overflow(p, last, last.totalTaken, app.employee, app.leaveType)
  }

  /** The hook with the overflow starting from the last allocation's current
      taken amount, so a deduction the loop already made there is kept. */
  function Place(rows: seq<Allocation>, app: Application, toAdd: real): Effect
  {
    var snap := Snapshot(rows, app);
    if snap == [] then Effect(rows, [])
    else
      var last := snap[|snap| - 1];
      var p := Distribute(rows, snap, toAdd, app.employee, app.leaveType);
      Overflow(p, last, TakenOf(p.rows, last.name), app.employee, app.leaveType)
  }

  /** `update_leave_allocation` (corrected overflow): Ok with the unchanged
      table when a guard returns early, Err when the permission minutes are
      missing. */
  function Approve(rows: seq<Allocation>, app: Application, stateBeforeSave: Option<string>): (r: Result<Effect>)
    ensures Request(app, stateBeforeSave) == Ok(None) ==> r == Ok(Effect(rows, []))
    ensures r.Err? <==> Request(app, stateBeforeSave).Err?
    ensures r.Err? ==> r.msg == Request(app, stateBeforeSave).msg
    ensures Request(app, stateBeforeSave).Ok? && Request(app, stateBeforeSave).value.Some?
            ==> r == Ok(Place(rows, app, Request(app, stateBeforeSave).value.value))
  {
    match Request(app, stateBeforeSave)
    case Err(m) => Err(m)
    case Ok(None) => Ok(Effect(rows, []))
    case Ok(Some(v)) => Ok(Place(rows, app, v))
  }

  /** `update_leave_allocation` exactly as written. */
  function ApproveAsWritten(rows: seq<Allocation>, app: Application, stateBeforeSave: Option<string>): (r: Result<Effect>)
    ensures Request(app, stateBeforeSave) == Ok(None) ==> r == Ok(Effect(rows, []))
    ensures r.Err? <==> Request(app, stateBeforeSave).Err?
    ensures r.Err? ==> r.msg == Request(app, stateBeforeSave).msg
    ensures Request(app, stateBeforeSave).Ok? && Request(app, stateBeforeSave).value.Some?
            ==> r == Ok(PlaceAsWritten(rows, app, Request(app, stateBeforeSave).value.value))
  {
    match Request(app, stateBeforeSave)
    case Err(m) => Err(m)
    case Ok(None) => Ok(Effect(rows, []))
    case Ok(Some(v)) => Ok(PlaceAsWritten(rows, app, v))
  }

  // --------------------------------------------------- what approval does

  /** The fetched list agrees with the table it was fetched from. */
  lemma SnapshotConsistent(rows: seq<Allocation>, app: Application)
    requires UniqueNames(rows)
    ensures UniqueNames(Snapshot(rows, app)) && Consistent(rows, Snapshot(rows, app))
  {
    var snap := Snapshot(rows, app);
    SnapshotFacts(rows, app);
    forall j | 0 <= j < |snap| ensures HasName(rows, snap[j].name) && TakenOf(rows, snap[j].name) == snap[j].totalTaken {
      assert snap[j] in snap;
      TakenOfMember(rows, snap[j]);
    }
  }

  lemma OverflowTable(p: Progress, last: Allocation, base: real, employee: string, leaveType: string, m: string)
    requires UniqueNames(p.rows) && HasName(p.rows, last.name)
    ensures var r := Overflow(p, last, base, employee, leaveType).rows;
      UniqueNames(r)
      && (p.remainder > 0.0 ==> TakenOf(r, last.name) == base + p.remainder)
      && (p.remainder <= 0.0 ==> r == p.rows)
      && (m != last.name ==> TakenOf(r, m) == TakenOf(p.rows, m))
  {
    if p.remainder > 0.0 {
      var v := base + p.remainder;
      assert Overflow(p, last, base, employee, leaveType).rows
          == Cascade(SetTaken(p.rows, last.name, v), employee, leaveType, last.fromDate, p.remainder);
      SetThenCascade(p.rows, last.name, v, employee, leaveType, last.fromDate, p.remainder, m);
    }
  }

  /** Where the loop leaves the table, for a positive request. */
  lemma LoopTable(rows: seq<Allocation>, app: Application, toAdd: real)
    requires UniqueNames(rows) && toAdd > 0.0 && Snapshot(rows, app) != []
    ensures var snap := Snapshot(rows, app);
      var p := Distribute(rows, snap, toAdd, app.employee, app.leaveType);
      var g := Grants(snap, toAdd);
      UniqueNames(p.rows) && p.remainder == Leftover(snap, toAdd)
      && (forall j :: 0 <= j < |snap| ==>
            HasName(p.rows, snap[j].name) && TakenOf(p.rows, snap[j].name) == snap[j].totalTaken + g[j])
      && (forall m :: !NamedIn(snap, m) ==> TakenOf(p.rows, m) == TakenOf(rows, m))
  {
    var snap := Snapshot(rows, app);
    SnapshotConsistent(rows, app);
    DistributeTable(rows, snap, toAdd, app.employee, app.leaveType);
    DistributeAccounting(rows, snap, toAdd, app.employee, app.leaveType);
  }

  /** The stored taken amounts after approval (corrected overflow): each
      allocation in the list gains its grant, the last one also gains the
      leftover, and every other document keeps its value. */
  lemma {:induction false} PlaceTable(rows: seq<Allocation>, app: Application, toAdd: real)
    requires UniqueNames(rows) && toAdd > 0.0 && Snapshot(rows, app) != []
    ensures var snap := Snapshot(rows, app);
      var n := |snap| - 1;
      var g := Grants(snap, toAdd);
      var r := Place(rows, app, toAdd).rows;
      UniqueNames(r)
      && (forall j :: 0 <= j < n ==> TakenOf(r, snap[j].name) == snap[j].totalTaken + g[j])
      && TakenOf(r, snap[n].name) == snap[n].totalTaken + g[n] + Leftover(snap, toAdd)
      && (forall m :: !NamedIn(snap, m) ==> TakenOf(r, m) == TakenOf(rows, m))
  {
    var snap := Snapshot(rows, app);
    var n := |snap| - 1;
    var last := snap[n];
    var p := Distribute(rows, snap, toAdd, app.employee, app.leaveType);
    LoopTable(rows, app, toAdd);
    SnapshotConsistent(rows, app);
    forall m ensures var r := Overflow(p, last, TakenOf(p.rows, last.name), app.employee, app.leaveType).rows;
      UniqueNames(r)
      && (p.remainder > 0.0 ==> TakenOf(r, last.name) == TakenOf(p.rows, last.name) + p.remainder)
      && (p.remainder <= 0.0 ==> r == p.rows)
      && (m != last.name ==> TakenOf(r, m) == TakenOf(p.rows, m))
    {
      OverflowTable(p, last, TakenOf(p.rows, last.name), app.employee, app.leaveType, m);
    }
    GrantsAccount(snap, toAdd);
    forall j | 0 <= j < n ensures snap[j].name != last.name {
    }
    forall m | !NamedIn(snap, m) ensures m != last.name {
      assert snap[n].name == last.name;
    }
  }

  /** The stored taken amounts after approval as written: the last
      allocation ends at its pre-loop value plus the leftover, losing any
      grant the loop gave it. */
  lemma {:induction false} PlaceAsWrittenTable(rows: seq<Allocation>, app: Application, toAdd: real)
    requires UniqueNames(rows) && toAdd > 0.0 && Snapshot(rows, app) != []
    ensures var snap := Snapshot(rows, app);
      var n := |snap| - 1;
      var g := Grants(snap, toAdd);
      var lo := Leftover(snap, toAdd);
      var r := PlaceAsWritten(rows, app, toAdd).rows;
      UniqueNames(r)
      && (forall j :: 0 <= j < n ==> TakenOf(r, snap[j].name) == snap[j].totalTaken + g[j])
      && (lo > 0.0 ==> TakenOf(r, snap[n].name) == snap[n].totalTaken + lo)
      && (lo <= 0.0 ==> TakenOf(r, snap[n].name) == snap[n].totalTaken + g[n])
      && (forall m :: !NamedIn(snap, m) ==> TakenOf(r, m) == TakenOf(rows, m))
  {
    var snap := Snapshot(rows, app);
    var n := |snap| - 1;
    var last := snap[n];
    var p := Distribute(rows, snap, toAdd, app.employee, app.leaveType);
    LoopTable(rows, app, toAdd);
    SnapshotConsistent(rows, app);
    forall m ensures var r := Overflow(p, last, last.totalTaken, app.employee, app.leaveType).rows;
      UniqueNames(r)
      && (p.remainder > 0.0 ==> TakenOf(r, last.name) == last.totalTaken + p.remainder)
      && (p.remainder <= 0.0 ==> r == p.rows)
      && (m != last.name ==> TakenOf(r, m) == TakenOf(p.rows, m))
    {
      OverflowTable(p, last, last.totalTaken, app.employee, app.leaveType, m);
    }
    forall j | 0 <= j < n ensures snap[j].name != last.name {
    }
    forall m | !NamedIn(snap, m) ensures m != last.name {
      assert snap[n].name == last.name;
    }
  }

  // ---------------------------------------------------------- conservation

  /** How much the stored taken amounts of the listed documents grew. */
  function Growth(before: seq<Allocation>, after: seq<Allocation>, snap: seq<Allocation>): real
  {
    if snap == [] then 0.0
    else (TakenOf(after, snap[0].name) - TakenOf(before, snap[0].name)) + Growth(before, after, snap[1..])
  }

  lemma {:induction false} GrowthOfGrants(before: seq<Allocation>, after: seq<Allocation>, snap: seq<Allocation>,
                                          g: seq<real>, extra: real)
    requires |g| == |snap| > 0
    requires forall j :: 0 <= j < |snap| - 1 ==> TakenOf(after, snap[j].name) - TakenOf(before, snap[j].name) == g[j]
    requires TakenOf(after, snap[|snap| - 1].name) - TakenOf(before, snap[|snap| - 1].name) == g[|snap| - 1] + extra
    ensures Growth(before, after, snap) == Total(g) + extra
  {
    if |snap| > 1 {
      forall j | 0 <= j < |snap| - 2
        ensures TakenOf(after, snap[1..][j].name) - TakenOf(before, snap[1..][j].name) == g[1..][j]
      {
        assert snap[1..][j] == snap[j + 1];
      }
      GrowthOfGrants(before, after, snap[1..], g[1..], extra);
    }
  }

  /** Conservation: with the corrected overflow, approving a positive
      request raises the stored taken amounts by exactly the request. */
  lemma PlaceConserves(rows: seq<Allocation>, app: Application, toAdd: real)
    requires UniqueNames(rows) && toAdd > 0.0 && Snapshot(rows, app) != []
    ensures Growth(rows, Place(rows, app, toAdd).rows, Snapshot(rows, app)) == toAdd
  {
    var snap := Snapshot(rows, app);
    PlaceTable(rows, app, toAdd);
    SnapshotConsistent(rows, app);
    GrantsAccount(snap, toAdd);
    GrowthOfGrants(rows, Place(rows, app, toAdd).rows, snap, Grants(snap, toAdd), Leftover(snap, toAdd));
  }

  /** As written, the stored amounts fall short of the request by whatever
      the loop granted the last allocation whenever there is an overflow. */
  lemma PlaceAsWrittenShortfall(rows: seq<Allocation>, app: Application, toAdd: real)
    requires UniqueNames(rows) && toAdd > 0.0 && Snapshot(rows, app) != []
    ensures var snap := Snapshot(rows, app);
      var lost := Grants(snap, toAdd)[|snap| - 1];
      Growth(rows, PlaceAsWritten(rows, app, toAdd).rows, snap)
        == (if Leftover(snap, toAdd) > 0.0 then toAdd - lost else toAdd)
  {
    var snap := Snapshot(rows, app);
    var g := Grants(snap, toAdd);
    var lo := Leftover(snap, toAdd);
    var n := |snap| - 1;
    PlaceAsWrittenTable(rows, app, toAdd);
    SnapshotConsistent(rows, app);
    GrantsAccount(snap, toAdd);
    if lo > 0.0 {
      GrowthOfGrants(rows, PlaceAsWritten(rows, app, toAdd).rows, snap, g, lo - g[n]);
    } else {
      GrowthOfGrants(rows, PlaceAsWritten(rows, app, toAdd).rows, snap, g, 0.0);
    }
  }

  /** The overflow adds a positive remainder to the breakdown. */
  lemma OverflowReportSum(p: Progress, last: Allocation, base: real, employee: string, leaveType: string)
    ensures SumAdded(Overflow(p, last, base, employee, leaveType).report)
         == SumAdded(p.report) + (if p.remainder > 0.0 then p.remainder else 0.0)
  {
    if p.remainder > 0.0 {
      MergeReportSum(p.report, last.name, p.remainder, base + p.remainder);
    }
  }

  /** The breakdown message accounts for the whole request, in both
      versions (the message adds the overflow to the existing line). */
  lemma ReportAccountsForRequest(rows: seq<Allocation>, app: Application, toAdd: real)
    requires toAdd > 0.0 && Snapshot(rows, app) != []
    ensures SumAdded(Place(rows, app, toAdd).report) == toAdd
    ensures SumAdded(PlaceAsWritten(rows, app, toAdd).report) == toAdd
  {
    var snap := Snapshot(rows, app);
    var p := Distribute(rows, snap, toAdd, app.employee, app.leaveType);
    var last := snap[|snap| - 1];
    assert SumAdded(p.report) + (if p.remainder > 0.0 then p.remainder else 0.0) == toAdd by {
      DistributeAccounting(rows, snap, toAdd, app.employee, app.leaveType);
      GrantsAccount(snap, toAdd);
    }
    OverflowReportSum(p, last, TakenOf(p.rows, last.name), app.employee, app.leaveType);
    OverflowReportSum(p, last, last.totalTaken, app.employee, app.leaveType);
  }

  /** What approval does when it acts: the corrected hook stores and reports
      exactly the requested amount; the hook as written reports it too, but
      stores less by the last allocation's loop grant whenever the request
      overflows. */
  lemma ApproveAccounts(rows: seq<Allocation>, app: Application, stateBeforeSave: Option<string>, toAdd: real)
    requires UniqueNames(rows) && Snapshot(rows, app) != []
    requires Request(app, stateBeforeSave) == Ok(Some(toAdd)) && toAdd > 0.0
    ensures Approve(rows, app, stateBeforeSave).Ok? && ApproveAsWritten(rows, app, stateBeforeSave).Ok?
    ensures var e := Approve(rows, app, stateBeforeSave).value;
      Growth(rows, e.rows, Snapshot(rows, app)) == toAdd && SumAdded(e.report) == toAdd
    ensures var e := ApproveAsWritten(rows, app, stateBeforeSave).value;
      var snap := Snapshot(rows, app);
      SumAdded(e.report) == toAdd
      && Growth(rows, e.rows, snap)
           == (if Leftover(snap, toAdd) > 0.0 then toAdd - Grants(snap, toAdd)[|snap| - 1] else toAdd)
  {
    PlaceConserves(rows, app, toAdd);
    PlaceAsWrittenShortfall(rows, app, toAdd);
    ReportAccountsForRequest(rows, app, toAdd);
  }

  /** Without an allocation to draw from, or without a positive request,
      approval leaves the table as it is. */
  lemma NothingToPlace(rows: seq<Allocation>, app: Application, toAdd: real)
    requires Snapshot(rows, app) == [] || toAdd <= 0.0
    ensures Place(rows, app, toAdd).rows == rows && PlaceAsWritten(rows, app, toAdd).rows == rows
  {
  }

  /** When the allocations have room for the request the overflow never runs
      and both versions agree. */
  lemma EnoughRoomAgrees(rows: seq<Allocation>, app: Application, toAdd: real)
    requires toAdd > 0.0 && TotalAvailable(Snapshot(rows, app)) >= toAdd
    ensures Place(rows, app, toAdd) == PlaceAsWritten(rows, app, toAdd)
  {
    var snap := Snapshot(rows, app);
    if snap != [] {
      GrantsExhaust(snap, toAdd);
      DistributeAccounting(rows, snap, toAdd, app.employee, app.leaveType);
    }
  }

  /** One allocation with two days of room and nothing taken, and a
      three-day request against it (for instance three days of Unpaid
      Leave): the corrected hook stores 3 days taken, the hook as written
      stores 1, because the loop's 2 days are overwritten by `0 + 1`. */
  lemma OverflowLosesLoopGrant(a: Allocation, app: Application)
    requires IsCandidate(a, app) && a.totalAllocated == 2.0 && a.totalTaken == 0.0
    requires app.workflowState == Approved && app.employee != "" && app.leaveType != ""
    requires Lower(app.leaveType) != "permission" && !app.halfDay
    requires InclusiveDays(app.fromDate, app.toDate) == 3
    ensures Approve([a], app, None) == Ok(Place([a], app, 3.0))
    ensures ApproveAsWritten([a], app, None) == Ok(PlaceAsWritten([a], app, 3.0))
    ensures TakenOf(Place([a], app, 3.0).rows, a.name) == 3.0
    ensures TakenOf(PlaceAsWritten([a], app, 3.0).rows, a.name) == 1.0
  {
    assert Snapshot([a], app) == [a] by {
      assert [a][..0] == [];
      assert Filter([a], x => IsCandidate(x, app)) == [a];
      assert SortByFrom([a]) == Insert(a, []);
    }
    assert [a][1..] == [];
    assert Grants([a], 3.0) == [2.0];
    assert Leftover([a], 3.0) == 1.0;
    PlaceTable([a], app, 3.0);
    PlaceAsWrittenTable([a], app, 3.0);
  }
}
