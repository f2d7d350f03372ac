/** Asset Assignment validation: an asset can be handed out again only
    after every other assignment of it has been returned. */
module AssetAssignments {
  import opened Wrappers
  import opened Calendar

  /** An Asset Assignment; an empty `asset` means none is set. */
  datatype Assignment = Assignment(name: string, asset: string, assignedTo: string, employeeName: string, returnedOn: Option<Date>)

  /** An assignment that holds its asset. */
  predicate Unreturned(r: Assignment)
  {
    r.asset != "" && r.returnedOn.None?
  }

  /** The query of `check_asset_availability`: a row of the same asset,
      not returned, other than the record being saved (the first such row
      in table order). */
  function OtherHolder(table: seq<Assignment>, a: Assignment): (r: Option<Assignment>)
    ensures r.Some? ==> r.value in table && r.value.asset == a.asset && r.value.returnedOn.None? && r.value.name != a.name
    ensures r.None? ==> forall x :: x in table ==> !(x.asset == a.asset && x.returnedOn.None? && x.name != a.name)
  {
    if table == [] then None
    else
      var x := table[0];
      if x.asset == a.asset && x.returnedOn.None? && x.name != a.name then Some(x)
      else OtherHolder(table[1..], a)
  }

  /** `check_asset_availability`: no check without an asset; otherwise the
      save fails while another assignment of the asset is unreturned. A row
      never conflicts with itself, and returned rows never block. */
  function CheckAvailability(table: seq<Assignment>, a: Assignment): (r: Outcome)
    ensures r.Fail? <==> a.asset != "" && exists x :: x in table && x.asset == a.asset && x.returnedOn.None? && x.name != a.name
  {
    if a.asset == "" then Pass
    else match OtherHolder(table, a)
      case None => Pass
      case Some(x) =>
        Fail("Asset <b>" + a.asset + "</b> is already assigned to <b>" + x.employeeName + " (" + x.assignedTo
             + ")</b> and has not been returned yet.")
  }

  /** Storing a validated record: it replaces the row of the same name, or
      is added at the end. */
  function Upsert(table: seq<Assignment>, a: Assignment): (r: seq<Assignment>)
    ensures (exists i :: 0 <= i < |table| && table[i].name == a.name) ==> |r| == |table|
    ensures (forall i :: 0 <= i < |table| ==> table[i].name != a.name) ==> r == table + [a]
    ensures forall i :: 0 <= i < |table| ==> r[i] == if table[i].name == a.name then a else table[i]
  {
    if exists i :: 0 <= i < |table| && table[i].name == a.name then
      seq(|table|, i requires 0 <= i < |table| => if table[i].name == a.name then a else table[i])
    else table + [a]
  }

  /** `validate` followed by the save. */
  function Save(table: seq<Assignment>, a: Assignment): (r: Result<seq<Assignment>>)
    ensures r.Err? <==> CheckAvailability(table, a).Fail?
    ensures r.Ok? ==> a in r.value
  {
    match CheckAvailability(table, a)
    case Fail(msg) => Err(msg)
    case Pass =>
      var t := Upsert(table, a);
      assert a in t by {
        if exists i :: 0 <= i < |table| && table[i].name == a.name {
          var i :| 0 <= i < |table| && table[i].name == a.name;
          assert t[i] == a;
        } else {
          assert t[|table|] == a;
        }
      }
      Ok(t)
  }

  predicate UniqueNames(t: seq<Assignment>)
  {
    forall i, j :: 0 <= i < j < |t| ==> t[i].name != t[j].name
  }

  /** At most one unreturned assignment per asset. */
  predicate OneHolderEach(t: seq<Assignment>)
  {
    forall i, j :: 0 <= i < j < |t| && Unreturned(t[i]) && Unreturned(t[j]) ==> t[i].asset != t[j].asset
  }

  predicate Valid(t: seq<Assignment>)
  {
    UniqueNames(t) && OneHolderEach(t)
  }

  /** Every row of a saved table is the new record, at the place of the
      old row of its name or at the end, or an old row of another name at
      its old place. */
  lemma UpsertRows(table: seq<Assignment>, a: Assignment, k: nat)
    requires k < |Upsert(table, a)|
    ensures var r := Upsert(table, a);
            (r[k] == a && k < |table| && table[k].name == a.name)
            || (r[k] == a && k == |table| && forall i :: 0 <= i < |table| ==> table[i].name != a.name)
            || (k < |table| && r[k] == table[k] && table[k].name != a.name)
  {
  }

  /** If every save passes validation, no asset is ever held twice. */
  lemma SaveKeepsOneHolder(table: seq<Assignment>, a: Assignment)
    requires Valid(table)
    requires Save(table, a).Ok?
    ensures Valid(Save(table, a).value)
  {
    var r := Upsert(table, a);
    assert Save(table, a).value == r;
    forall i, j | 0 <= i < j < |r|
      ensures r[i].name != r[j].name
      ensures Unreturned(r[i]) && Unreturned(r[j]) ==> r[i].asset != r[j].asset
    {
      UpsertRows(table, a, i);
      UpsertRows(table, a, j);
    }
  }
}
