/** Leave Allocation records and the table operations the ledger code performs
    through the host ORM: filters (`frappe.get_all(..., filters=...)`),
    `frappe.db.set_value(name, field, value)`, `order_by="from_date asc"`. */
module LeaveData {
  import opened Wrappers
  import opened Calendar
  import Sums

  const PaidLeave := "Paid Leave"
  const UnpaidLeave := "Unpaid Leave"
  const PermissionLeave := "Permission"
  const Approved := "Approved"

  /** A Leave Allocation document: one employee, one leave type, one period. */
  datatype Allocation = Allocation(
    name: string,
    employee: string,
    leaveType: string,
    fromDate: Date,
    toDate: Date,
    totalAllocated: real,   // total_leaves_allocated
    totalTaken: real,       // total_leaves_taken
    status: string,
    docstatus: int)

  function Allocated(a: Allocation): real { a.totalAllocated }
  function Taken(a: Allocation): real { a.totalTaken }

  /** What is left on one allocation, never below zero. */
  function Available(a: Allocation): (r: real)
    ensures r >= 0.0 && r >= a.totalAllocated - a.totalTaken
    ensures r == 0.0 || r == a.totalAllocated - a.totalTaken
  {
    if a.totalAllocated - a.totalTaken > 0.0 then a.totalAllocated - a.totalTaken else 0.0
  }

  predicate UniqueNames(s: seq<Allocation>)
  {
    forall i, j :: 0 <= i < j < |s| ==> s[i].name != s[j].name
  }

  /** Every field except total_leaves_allocated: what the carry-forward code
      reads to make its decisions. */
  function Shape(a: Allocation): Allocation { a.(totalAllocated := 0.0) }

  predicate SameShape(s: seq<Allocation>, t: seq<Allocation>)
  {
    |s| == |t| && forall i :: 0 <= i < |s| ==> Shape(s[i]) == Shape(t[i])
  }

  // ------------------------------------------------------- set_value by name

  /** `frappe.db.set_value("Leave Allocation", name, "total_leaves_taken", v)`:
      every row with that name gets the new value. */
  function SetTaken(rows: seq<Allocation>, name: string, v: real): (r: seq<Allocation>)
    ensures |r| == |rows|
  {
    seq(|rows|, i requires 0 <= i < |rows| =>
      if rows[i].name == name then rows[i].(totalTaken := v) else rows[i])
  }

  /** `frappe.db.set_value("Leave Allocation", name, "total_leaves_allocated", v)`. */
  function SetAllocated(rows: seq<Allocation>, name: string, v: real): (r: seq<Allocation>)
    ensures |r| == |rows|
  {
    seq(|rows|, i requires 0 <= i < |rows| =>
      if rows[i].name == name then rows[i].(totalAllocated := v) else rows[i])
  }

  // ----------------------------------------------- lookups by document name

  predicate HasName(rows: seq<Allocation>, name: string)
  {
    rows != [] && (rows[0].name == name || HasName(rows[1..], name))
  }

  /** `total_leaves_taken` of the document called `name` (0 when absent). */
  function TakenOf(rows: seq<Allocation>, name: string): real
  {
    if rows == [] then 0.0
    else if rows[0].name == name then rows[0].totalTaken
    else TakenOf(rows[1..], name)
  }

  lemma SetTakenTail(rows: seq<Allocation>, name: string, v: real)
    requires rows != []
    ensures SetTaken(rows, name, v)[1..] == SetTaken(rows[1..], name, v)
  {
  }

  /** After set_value, the named document holds the new value ... */
  lemma {:induction false} TakenOfSetTakenSame(rows: seq<Allocation>, name: string, v: real)
    requires HasName(rows, name)
    ensures TakenOf(SetTaken(rows, name, v), name) == v
  {
    if rows[0].name != name {
      SetTakenTail(rows, name, v);
      TakenOfSetTakenSame(rows[1..], name, v);
    }
  }

  /** ... and every other document keeps its value. */
  lemma {:induction false} TakenOfSetTakenOther(rows: seq<Allocation>, name: string, other: string, v: real)
    requires name != other
    ensures TakenOf(SetTaken(rows, name, v), other) == TakenOf(rows, other)
    ensures HasName(SetTaken(rows, name, v), other) == HasName(rows, other)
  {
    if rows != [] {
      SetTakenTail(rows, name, v);
      TakenOfSetTakenOther(rows[1..], name, other, v);
    }
  }

  lemma {:induction false} HasNameSetTaken(rows: seq<Allocation>, name: string, other: string, v: real)
    ensures HasName(SetTaken(rows, name, v), other) == HasName(rows, other)
  {
    if rows != [] {
      SetTakenTail(rows, name, v);
      HasNameSetTaken(rows[1..], name, other, v);
    }
  }

  lemma SetTakenKeepsUniqueNames(rows: seq<Allocation>, name: string, v: real)
    requires UniqueNames(rows)
    ensures UniqueNames(SetTaken(rows, name, v))
  {
    var r := SetTaken(rows, name, v);
    forall i | 0 <= i < |r| ensures r[i].name == rows[i].name {
    }
  }

  /** Lookups by name read only the shape (names and taken amounts). */
  lemma {:induction false} TakenOfSameShape(s: seq<Allocation>, t: seq<Allocation>, name: string)
    requires SameShape(s, t)
    ensures TakenOf(s, name) == TakenOf(t, name) && HasName(s, name) == HasName(t, name)
  {
    if s != [] {
      assert Shape(s[0]) == Shape(t[0]);
      assert SameShape(s[1..], t[1..]) by {
        forall i | 0 <= i < |s| - 1 ensures Shape(s[1..][i]) == Shape(t[1..][i]) {
          assert s[1..][i] == s[i + 1] && t[1..][i] == t[i + 1];
        }
      }
      TakenOfSameShape(s[1..], t[1..], name);
    }
  }

  /** With unique names, the lookup finds the row itself. */
  lemma {:induction false} TakenOfMember(rows: seq<Allocation>, a: Allocation)
    requires UniqueNames(rows) && a in rows
    ensures HasName(rows, a.name) && TakenOf(rows, a.name) == a.totalTaken
  {
    if rows[0] != a {
      assert a in rows[1..];
      var i :| 0 <= i < |rows[1..]| && rows[1..][i] == a;
      assert rows[i + 1] == a;
      assert rows[0].name != a.name;
      TakenOfMember(rows[1..], a);
    }
  }

  // ------------------------------------------------------------- queries

  /** Index of the first row satisfying `p` (`get_all(..., limit=1)`, `get_value`). */
  function FirstWhere(rows: seq<Allocation>, p: Allocation -> bool): (r: Option<nat>)
    ensures r.Some? ==> r.value < |rows| && p(rows[r.value])
  {
    if rows == [] then None
    else if p(rows[0]) then Some(0)
    else match FirstWhere(rows[1..], p)
      case None => None
      case Some(k) => Some(k + 1)
  }

  /** The index found is the first match, and none means no row matches. */
  lemma {:induction false} FirstWhereIsFirst(rows: seq<Allocation>, p: Allocation -> bool)
    ensures FirstWhere(rows, p).Some? ==> forall i :: 0 <= i < FirstWhere(rows, p).value ==> !p(rows[i])
    ensures FirstWhere(rows, p).None? ==> forall i :: 0 <= i < |rows| ==> !p(rows[i])
  {
    if rows != [] {
      FirstWhereIsFirst(rows[1..], p);
    }
  }

  /** `frappe.db.count(...)`. */
  function CountWhere(rows: seq<Allocation>, p: Allocation -> bool): (n: nat)
    ensures n <= |rows|
  {
    if rows == [] then 0
    else CountWhere(rows[..|rows| - 1], p) + (if p(rows[|rows| - 1]) then 1 else 0)
  }

  /** The rows satisfying `p`, in table order. */
  function Filter(rows: seq<Allocation>, p: Allocation -> bool): (r: seq<Allocation>)
    ensures forall a :: a in r <==> a in rows && p(a)
    ensures |r| <= |rows|
  {
    if rows == [] then []
    else
      var init := Filter(rows[..|rows| - 1], p);
      var last := rows[|rows| - 1];
      assert forall a :: a in rows[..|rows| - 1] ==> a in rows;
      if p(last) then init + [last] else init
  }

  /** No name of `s` other than at position i equals s[i]'s. */
  lemma NameAbsentFromPrefix(s: seq<Allocation>, a: Allocation)
    requires UniqueNames(s) && s != [] && a in s[..|s| - 1]
    ensures a.name != s[|s| - 1].name
  {
    var i :| 0 <= i < |s| - 1 && s[..|s| - 1][i] == a;
    assert s[i] == a;
  }

  lemma {:induction false} FilterKeepsUniqueNames(rows: seq<Allocation>, p: Allocation -> bool)
    requires UniqueNames(rows)
    ensures UniqueNames(Filter(rows, p))
  {
    if rows != [] {
      var init := Filter(rows[..|rows| - 1], p);
      var last := rows[|rows| - 1];
      FilterKeepsUniqueNames(rows[..|rows| - 1], p);
      if p(last) {
        forall a | a in init ensures a.name != last.name {
          NameAbsentFromPrefix(rows, a);
        }
        var r := init + [last];
        forall i, j | 0 <= i < j < |r| ensures r[i].name != r[j].name {
          if j == |init| {
            assert r[i] in init;
          }
        }
      }
    }
  }

  lemma {:induction false} FirstWhereCongruent(s: seq<Allocation>, t: seq<Allocation>, p: Allocation -> bool)
    requires |s| == |t| && forall i :: 0 <= i < |s| ==> p(s[i]) == p(t[i])
    ensures FirstWhere(s, p) == FirstWhere(t, p)
  {
    if s != [] {
      FirstWhereCongruent(s[1..], t[1..], p);
    }
  }

  lemma {:induction false} CountCongruent(s: seq<Allocation>, t: seq<Allocation>, p: Allocation -> bool)
    requires |s| == |t| && forall i :: 0 <= i < |s| ==> p(s[i]) == p(t[i])
    ensures CountWhere(s, p) == CountWhere(t, p)
  {
    if s != [] {
      CountCongruent(s[..|s| - 1], t[..|t| - 1], p);
    }
  }

  // --------------------------------------------- order_by="from_date asc"

  function Key(a: Allocation): int { Ord(a.fromDate) }

  predicate SortedByFrom(s: seq<Allocation>)
  {
    forall i, j :: 0 <= i < j < |s| ==> Key(s[i]) <= Key(s[j])
  }

  /** Position after every element whose key is not greater than x's. */
  function InsertPos(x: Allocation, t: seq<Allocation>): (k: nat)
    ensures k <= |t|
    ensures forall i :: 0 <= i < k ==> Key(t[i]) <= Key(x)
    ensures k < |t| ==> Key(t[k]) > Key(x)
  {
    if t == [] || Key(t[0]) > Key(x) then 0 else 1 + InsertPos(x, t[1..])
  }

  function Insert(x: Allocation, t: seq<Allocation>): (r: seq<Allocation>)
    ensures r == t[..InsertPos(x, t)] + [x] + t[InsertPos(x, t)..]
    ensures |r| == |t| + 1
    ensures forall a :: a in r <==> a == x || a in t
  {
    var k := InsertPos(x, t);
    assert t == t[..k] + t[k..];
    t[..k] + [x] + t[k..]
  }

  lemma InsertAt(x: Allocation, t: seq<Allocation>, i: int)
    requires 0 <= i <= |t|
    ensures Insert(x, t)[i] == if i < InsertPos(x, t) then t[i] else if i == InsertPos(x, t) then x else t[i - 1]
  {
  }

  lemma InsertKeepsSorted(x: Allocation, t: seq<Allocation>)
    requires SortedByFrom(t)
    ensures SortedByFrom(Insert(x, t))
  {
    var k := InsertPos(x, t);
    var r := Insert(x, t);
    forall i, j | 0 <= i < j < |r| ensures Key(r[i]) <= Key(r[j]) {
      InsertAt(x, t, i);
      InsertAt(x, t, j);
      if i == k && j > k {
        assert Key(t[k]) <= Key(t[j - 1]);
      } else if j == k && i < k {
      }
    }
  }

  lemma InsertKeepsElements(x: Allocation, t: seq<Allocation>)
    ensures multiset(Insert(x, t)) == multiset(t) + multiset{x}
  {
    var k := InsertPos(x, t);
    assert t == t[..k] + t[k..];
  }

  lemma LastSplit(s: seq<Allocation>)
    requires s != []
    ensures multiset(s) == multiset(s[..|s| - 1]) + multiset{s[|s| - 1]}
  {
    assert s == s[..|s| - 1] + [s[|s| - 1]];
  }

  /** A stable sort by from_date (ties keep table order). */
  function SortByFrom(s: seq<Allocation>): (r: seq<Allocation>)
    ensures SortedByFrom(r)
    ensures |r| == |s|
    ensures forall a :: a in r <==> a in s
    ensures multiset(r) == multiset(s)
  {
    if s == [] then []
    else
      var t := SortByFrom(s[..|s| - 1]);
      InsertKeepsSorted(s[|s| - 1], t);
      InsertKeepsElements(s[|s| - 1], t);
      LastSplit(s);
      Insert(s[|s| - 1], t)
  }

  lemma {:induction false} SortKeepsUniqueNames(s: seq<Allocation>)
    requires UniqueNames(s)
    ensures UniqueNames(SortByFrom(s))
  {
    if s != [] {
      var init := s[..|s| - 1];
      var x := s[|s| - 1];
      var t := SortByFrom(init);
      SortKeepsUniqueNames(init);
      forall a | a in t ensures a.name != x.name {
        NameAbsentFromPrefix(s, a);
      }
      InsertKeepsUniqueNames(x, t);
    }
  }

  lemma InsertKeepsUniqueNames(x: Allocation, t: seq<Allocation>)
    requires UniqueNames(t)
    requires forall a :: a in t ==> a.name != x.name
    ensures UniqueNames(Insert(x, t))
  {
    var r := Insert(x, t);
    forall i, j | 0 <= i < j < |r| ensures r[i].name != r[j].name {
      InsertAt(x, t, i);
      InsertAt(x, t, j);
    }
  }

  /** Inserting an element adds its value to the sum. */
  lemma InsertKeepsSum(x: Allocation, t: seq<Allocation>, f: Allocation -> real)
    ensures Sums.Sum(Insert(x, t), f) == Sums.Sum(t, f) + f(x)
  {
    var k := InsertPos(x, t);
    var lo, hi := t[..k], t[k..];
    assert t == lo + hi;
    assert Insert(x, t) == (lo + [x]) + hi;
    Sums.SumConcat(lo, hi, f);
    Sums.SumConcat(lo + [x], hi, f);
    Sums.SumConcat(lo, [x], f);
    assert Sums.Sum([x], f) == f(x) by {
      assert [x][..0] == [];
    }
  }

  /** Sorting keeps the sum of any column. */
  lemma {:induction false} SortKeepsSum(s: seq<Allocation>, f: Allocation -> real)
    ensures Sums.Sum(SortByFrom(s), f) == Sums.Sum(s, f)
  {
    if s != [] {
      var init := s[..|s| - 1];
      SortKeepsSum(init, f);
      InsertKeepsSum(s[|s| - 1], SortByFrom(init), f);
    }
  }

  /** Filtering keeps the sum of the selected rows: it is the sum of the rows
      the predicate selects. */
  lemma {:induction false} FilterSum(s: seq<Allocation>, p: Allocation -> bool, f: Allocation -> real)
    ensures Sums.Sum(Filter(s, p), f) == Sums.SumWhere(s, p, f)
  {
    if s != [] {
      FilterSum(s[..|s| - 1], p, f);
      var init := Filter(s[..|s| - 1], p);
      if p(s[|s| - 1]) {
        assert (init + [s[|s| - 1]])[..|init|] == init;
      }
    }
  }
}
