/** Sums of a numeric column over a list of records (`sum(... for d in data)`). */
module Sums {

  function Sum<T>(s: seq<T>, f: T -> real): real
  {
    if s == [] then 0.0 else Sum(s[..|s| - 1], f) + f(s[|s| - 1])
  }

  lemma {:induction false} SumConcat<T>(a: seq<T>, b: seq<T>, f: T -> real)
    ensures Sum(a + b, f) == Sum(a, f) + Sum(b, f)
  {
    if b == [] {
      assert a + b == a;
    } else {
      SumConcat(a, b[..|b| - 1], f);
      assert (a + b)[..|a + b| - 1] == a + b[..|b| - 1];
    }
  }

  lemma SumCons<T>(x: T, s: seq<T>, f: T -> real)
    ensures Sum([x] + s, f) == f(x) + Sum(s, f)
  {
    SumConcat([x], s, f);
    assert [x][..0] == [];
  }

  /** Sum over the elements satisfying `p`, in order. */
  function SumWhere<T>(s: seq<T>, p: T -> bool, f: T -> real): real
  {
    if s == [] then 0.0
    else SumWhere(s[..|s| - 1], p, f) + (if p(s[|s| - 1]) then f(s[|s| - 1]) else 0.0)
  }

  /** Dropping non-negative terms can only lower a sum. */
  lemma {:induction false} SumWhereMonotone<T>(s: seq<T>, p: T -> bool, q: T -> bool, f: T -> real)
    requires forall x :: x in s && p(x) ==> q(x)
    requires forall x :: x in s ==> f(x) >= 0.0
    ensures SumWhere(s, p, f) <= SumWhere(s, q, f)
  {
    if s != [] {
      assert forall x :: x in s[..|s| - 1] ==> x in s;
      SumWhereMonotone(s[..|s| - 1], p, q, f);
    }
  }
}
