/** `update_lead_workflow`: rebuilds the Lead Workflow so that every state
    can move to every other state. It makes sure a "Move to <state>" action
    exists for each state, deletes the workflow's transitions and inserts one
    transition per ordered pair of different states, numbered from 1. */
module LeadWorkflow {
  import opened Wrappers

  const Workflow := "Lead Workflow"

  /** A Workflow Transition row. */
  datatype Transition = Transition(parent: string, state: string, action: string, nextState: string, allowed: string, idx: int)

  /** An ordered pair of states, from `from` to `to`. */
  datatype Move = Move(from: string, to: string)

  function ActionName(state: string): string { "Move to " + state }

  /** The action masters after making sure every state's action exists:
      missing ones are appended in state order. */
  function WithActions(actions: seq<string>, states: seq<string>): (r: seq<string>)
    ensures forall a :: a in r <==> a in actions || exists x :: x in states && a == ActionName(x)
    ensures |actions| <= |r| && r[..|actions|] == actions
  {
    if states == [] then actions
    else
      var before := WithActions(actions, states[..|states| - 1]);
      var a := ActionName(states[|states| - 1]);
      assert forall x :: x in states <==> x in states[..|states| - 1] || x == states[|states| - 1] by {
        assert states == states[..|states| - 1] + [states[|states| - 1]];
      }
      if a in before then before else before + [a]
  }

  predicate Distinct(s: seq<string>)
  {
    forall i, j :: 0 <= i < j < |s| ==> s[i] != s[j]
  }

  /** Appending only missing actions never creates a duplicate. */
  lemma {:induction false} WithActionsDistinct(actions: seq<string>, states: seq<string>)
    requires Distinct(actions)
    ensures Distinct(WithActions(actions, states))
  {
    if states != [] {
      var before := WithActions(actions, states[..|states| - 1]);
      var a := ActionName(states[|states| - 1]);
      WithActionsDistinct(actions, states[..|states| - 1]);
      if a !in before {
        var r := before + [a];
        assert WithActions(actions, states) == r;
        forall i, j | 0 <= i < j < |r|
          ensures r[i] != r[j]
        {
          if j == |before| {
            assert r[i] == before[i] && r[j] == a;
          } else {
            assert r[i] == before[i] && r[j] == before[j];
          }
        }
      } else {
        assert WithActions(actions, states) == before;
      }
    }
  }

  /** The inner loop for state s: a move to each other state of `inner`, in
      order. */
  function Row(s: string, inner: seq<string>): seq<Move>
  {
    if inner == [] then []
    else
      var ns := inner[|inner| - 1];
      Row(s, inner[..|inner| - 1]) + (if ns != s then [Move(s, ns)] else [])
  }

  /** Both loops: for each state of `outer` in order, its row over `inner`. */
  function Moves(outer: seq<string>, inner: seq<string>): seq<Move>
  {
    if outer == [] then [] else Moves(outer[..|outer| - 1], inner) + Row(outer[|outer| - 1], inner)
  }

  /** The transition inserted for move m as the idx-th one. */
  function Inserted(m: Move, idx: int): Transition
  {
    Transition(Workflow, m.from, ActionName(m.to), m.to, "All", idx)
  }

  /** The transition rows for a list of moves, `idx` counting from 1. */
  function Numbered(moves: seq<Move>): (r: seq<Transition>)
    ensures |r| == |moves|
  {
    if moves == [] then []
    else
      var m := moves[|moves| - 1];
      Numbered(moves[..|moves| - 1]) + [Inserted(m, |moves|)]
  }

  /** The transitions of other workflows, which the delete leaves alone. */
  function OtherWorkflows(ts: seq<Transition>): (r: seq<Transition>)
    ensures forall t :: t in r <==> t in ts && t.parent != Workflow
  {
    if ts == [] then []
    else
      var t := ts[|ts| - 1];
      OtherWorkflows(ts[..|ts| - 1]) + (if t.parent != Workflow then [t] else [])
  }

  // ---------------------------------------------------------------- properties

  /** A row holds the moves from s to every different state, and no other. */
  lemma {:induction false} RowMembers(s: string, inner: seq<string>, m: Move)
    ensures m in Row(s, inner) <==> m.from == s && m.to in inner && m.to != s
  {
    if inner != [] {
      var init := inner[..|inner| - 1];
      RowMembers(s, init, m);
      assert inner == init + [inner[|inner| - 1]];
    }
  }

  /** A row has one move per entry of `inner` other than s. */
  lemma {:induction false} RowLength(s: string, inner: seq<string>)
    ensures |Row(s, inner)| == |inner| - multiset(inner)[s]
  {
    if inner != [] {
      var init := inner[..|inner| - 1];
      RowLength(s, init);
      assert inner == init + [inner[|inner| - 1]];
    }
  }

  /** All pairs: a move is generated exactly when it joins two different
      states of the list. */
  lemma {:induction false} MovesMembers(outer: seq<string>, inner: seq<string>, m: Move)
    ensures m in Moves(outer, inner) <==> m.from in outer && m.to in inner && m.from != m.to
  {
    if outer != [] {
      var init := outer[..|outer| - 1];
      var s := outer[|outer| - 1];
      MovesMembers(init, inner, m);
      RowMembers(s, inner, m);
      assert outer == init + [s];
    }
  }

  lemma {:induction false} MovesLength(outer: seq<string>, inner: seq<string>)
    requires Distinct(inner)
    requires forall x :: x in outer ==> x in inner
    ensures |Moves(outer, inner)| == |outer| * (|inner| - 1)
  {
    if outer != [] {
      var init := outer[..|outer| - 1];
      var s := outer[|outer| - 1];
      var n := |inner| - 1;
      assert forall x :: x in init ==> x in outer;
      MovesLength(init, inner);
      RowLength(s, inner);
      DistinctCountsOnce(inner, s);
      assert |Moves(outer, inner)| == |Moves(init, inner)| + |Row(s, inner)|;
      MulSucc(|init|, n);
    }
  }

  lemma MulSucc(k: int, n: int)
    ensures (k + 1) * n == k * n + n
  {
  }

  lemma {:induction false} DistinctCountsOnce(inner: seq<string>, s: string)
    requires Distinct(inner)
    requires s in inner
    ensures multiset(inner)[s] == 1
  {
    var init := inner[..|inner| - 1];
    var last := inner[|inner| - 1];
    assert inner == init + [last];
    if last == s {
      assert s !in init;
    } else {
      DistinctCountsOnce(init, s);
    }
  }

  /** Transition k (from 0) is the k-th move with `idx` k + 1 and the
      action leading to its target state. */
  lemma {:induction false} NumberedFields(moves: seq<Move>, k: nat)
    requires k < |moves|
    ensures Numbered(moves)[k] == Transition(Workflow, moves[k].from, ActionName(moves[k].to), moves[k].to, "All", k + 1)
  {
    if k < |moves| - 1 {
      NumberedFields(moves[..|moves| - 1], k);
    }
  }

  /** With n distinct states the workflow gets n(n-1) transitions. */
  lemma TransitionCount(states: seq<string>)
    requires Distinct(states)
    ensures |Numbered(Moves(states, states))| == |states| * (|states| - 1)
  {
    MovesLength(states, states);
  }

  /** The Workflow Transition and Workflow Action Master tables. */
  class WorkflowStore {
    var actionMasters: seq<string>
    var transitions: seq<Transition>

    constructor (actionMasters: seq<string>, transitions: seq<Transition>)
      ensures this.actionMasters == actionMasters && this.transitions == transitions
    {
      this.actionMasters := actionMasters;
      this.transitions := transitions;
    }

    /** Step 2: insert the missing "Move to" actions. */
    method EnsureActions(states: seq<string>)
      modifies this`actionMasters
      ensures actionMasters == WithActions(old(actionMasters), states)
    {
      var k := 0;
      while k < |states|
        invariant 0 <= k <= |states|
        invariant actionMasters == WithActions(old(actionMasters), states[..k])
      {
        assert states[..k + 1][..k] == states[..k];
        var a := ActionName(states[k]);
        if a !in actionMasters {
          actionMasters := actionMasters + [a];
        }
        k := k + 1;
      }
      assert states[..k] == states;
    }

    /** Step 3: delete the workflow's transitions, then the nested loops
        inserting one numbered transition per ordered pair. */
    method RebuildTransitions(states: seq<string>) returns (count: nat)
      modifies this`transitions
      ensures transitions == OtherWorkflows(old(transitions)) + Numbered(Moves(states, states))
      ensures count == |Moves(states, states)|
    {
      transitions := OtherWorkflows(transitions);
      ghost var base := transitions;
      ghost var done: seq<Move> := [];
      var idx := 0;
      var i := 0;
      while i < |states|
        invariant 0 <= i <= |states|
        invariant done == Moves(states[..i], states)
        invariant idx == |done| && transitions == base + Numbered(done)
      {
        idx := InsertRow(states[i], states, idx, base, done);
        MovesStep(states, i, |states|);
        assert states[..|states|] == states;
        done := done + Row(states[i], states);
        i := i + 1;
      }
      assert states[..i] == states;
      count := idx;
    }

    /** The inner loop for state s: a numbered transition to each other
        state, after the `idx` ones inserted so far. */
    method InsertRow(s: string, states: seq<string>, idx0: nat, ghost base: seq<Transition>, ghost done: seq<Move>)
      returns (idx: nat)
      modifies this`transitions
      requires idx0 == |done| && transitions == base + Numbered(done)
      ensures idx == |done + Row(s, states)| && transitions == base + Numbered(done + Row(s, states))
    {
      idx := idx0;
      ghost var row: seq<Move> := [];
      assert done + row == done;
      var j := 0;
      while j < |states|
        invariant 0 <= j <= |states|
        invariant row == Row(s, states[..j])
        invariant idx == |done| + |row| && transitions == base + Numbered(done + row)
      {
        var ns := states[j];
        RowStep(s, states, j);
        if s != ns {
          idx := idx + 1;
          InsertStep(base, done + row, Move(s, ns), transitions);
          AppendAssoc(done, row, Move(s, ns));
          transitions := transitions + [Inserted(Move(s, ns), idx)];
          row := row + [Move(s, ns)];
        }
        j := j + 1;
      }
      assert states[..j] == states;
    }

    /** `update_lead_workflow`: nothing at all without states; otherwise the
        actions, the rebuilt transitions and their number. */
    method UpdateLeadWorkflow(states: seq<string>) returns (r: Option<nat>)
      modifies this
      ensures states == [] ==> r == None && actionMasters == old(actionMasters) && transitions == old(transitions)
      ensures states != [] ==> actionMasters == WithActions(old(actionMasters), states)
                               && transitions == OtherWorkflows(old(transitions)) + Numbered(Moves(states, states))
                               && r == Some(|Moves(states, states)|)
    {
      if states == [] {
        return None;
      }
      EnsureActions(states);
      var count := RebuildTransitions(states);
      r := Some(count);
    }
  }

  /** One insertion of the inner loop, numbered after everything before it. */
  lemma InsertStep(base: seq<Transition>, moves: seq<Move>, m: Move, ts: seq<Transition>)
    requires ts == base + Numbered(moves)
    ensures ts + [Inserted(m, |moves| + 1)] == base + Numbered(moves + [m])
  {
    NumberedSnoc(moves, m);
    AppendAssoc(base, Numbered(moves), Inserted(m, |moves| + 1));
  }

  lemma NumberedSnoc(moves: seq<Move>, m: Move)
    ensures Numbered(moves + [m]) == Numbered(moves) + [Inserted(m, |moves| + 1)]
  {
    assert (moves + [m])[..|moves|] == moves;
  }

  lemma AppendAssoc<T>(a: seq<T>, b: seq<T>, x: T)
    ensures (a + b) + [x] == a + (b + [x]) && |a + b| == |a| + |b|
  {
  }

  lemma RowStep(s: string, states: seq<string>, j: nat)
    requires j < |states|
    ensures Row(s, states[..j + 1]) == Row(s, states[..j]) + (if states[j] != s then [Move(s, states[j])] else [])
  {
    assert states[..j + 1][..j] == states[..j];
  }

  lemma MovesStep(states: seq<string>, i: nat, j: nat)
    requires i < |states| && j == |states|
    ensures Moves(states[..i + 1], states) == Moves(states[..i], states) + Row(states[i], states[..j])
  {
    assert states[..i + 1][..i] == states[..i];
    assert states[..|states|] == states;
  }
}
