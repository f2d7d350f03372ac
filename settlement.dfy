/** The Purchase Settlement report: one row per purchase with what was paid
    on it and what is still pending, and three summary cards. The two SQL
    queries (the filtered purchases, newest bill first, and the payments
    grouped by purchase) are the inputs; the model starts where the Python
    code takes over their results. */
module SettlementReport {
  import opened Wrappers
  import opened Calendar
  import opened Sums

  /** A row of the purchase query. */
  datatype Purchase = Purchase(
    name: string,
    billDate: Option<Date>,
    vendor: string,
    vendorName: Option<string>,
    grandTotal: Option<real>)

  /** A row of the grouped payment query: SUM, MAX(collection_date),
      MAX(mode_of_payment) for one purchase. */
  datatype Group = Group(purchase: string, paid: Option<real>, lastDate: Option<Date>, mode: Option<string>)

  /** A report row. */
  datatype Row = Row(
    purchase: string,
    billDate: Option<Date>,
    vendor: string,
    vendorName: Option<string>,
    grandTotal: Option<real>,
    amountPaid: real,
    amountPending: real,
    lastPaymentDate: Option<Date>,
    paymentMode: Option<string>)

  datatype Card = Card(caption: string, value: real, indicator: string)

  /** `{c.purchase: c for c in collections}`: a later group of the same
      purchase replaces an earlier one. */
  function PaidMap(groups: seq<Group>): (m: map<string, Group>)
    ensures forall k :: k in m <==> exists i :: 0 <= i < |groups| && groups[i].purchase == k
    ensures forall k :: k in m ==> m[k].purchase == k
  {
    if groups == [] then map[]
    else
      var init := groups[..|groups| - 1];
      var g := groups[|groups| - 1];
      assert forall i :: 0 <= i < |init| ==> init[i] == groups[i];
      PaidMap(init)[g.purchase := g]
  }

  /** The body of the row loop for one purchase: `paid_map.get(name, {})`,
      paid defaulting to 0, pending not clamped. */
  function RowFor(p: Purchase, paidMap: map<string, Group>): (r: Row)
    ensures r.purchase == p.name && r.grandTotal == p.grandTotal && r.billDate == p.billDate
    ensures r.amountPaid + r.amountPending == Flt(p.grandTotal)
    ensures p.name !in paidMap ==> r.amountPaid == 0.0 && r.lastPaymentDate.None? && r.paymentMode.None?
    ensures p.name in paidMap ==> r.amountPaid == Flt(paidMap[p.name].paid)
  {
    if p.name in paidMap then
      var c := paidMap[p.name];
      var paid := Flt(c.paid);
      Row(p.name, p.billDate, p.vendor, p.vendorName, p.grandTotal, paid, Flt(p.grandTotal) - paid, c.lastDate, c.mode)
    else
      Row(p.name, p.billDate, p.vendor, p.vendorName, p.grandTotal, 0.0, Flt(p.grandTotal), None, None)
  }

  /** `get_data` after the two queries: no purchases gives no rows;
      otherwise one row per purchase, in the query's order. */
  method GetData(purchases: seq<Purchase>, groups: seq<Group>) returns (rows: seq<Row>)
    ensures |rows| == |purchases|
    ensures forall i :: 0 <= i < |purchases| ==> rows[i] == RowFor(purchases[i], PaidMap(groups))
  {
    if purchases == [] {
      return [];
    }
    var paidMap := PaidMap(groups);
    rows := [];
    var i := 0;
    while i < |purchases|
      invariant 0 <= i <= |purchases| && |rows| == i
      invariant forall j :: 0 <= j < i ==> rows[j] == RowFor(purchases[j], paidMap)
    {
      rows := rows + [RowFor(purchases[i], paidMap)];
      i := i + 1;
    }
  }

  function GrandOf(r: Row): real { Flt(r.grandTotal) }
  function PaidOf(r: Row): real { r.amountPaid }
  function PendingOf(r: Row): real { r.amountPending }

  /** `get_summary`: three cards summing the purchase, paid and pending
      columns. */
  function Summary(rows: seq<Row>): (cards: seq<Card>)
    ensures |cards| == 3
    ensures cards[0].caption == "Total Purchase Amount" && cards[1].caption == "Total Paid"
            && cards[2].caption == "Total Pending"
  {
    [Card("Total Purchase Amount", Sum(rows, GrandOf), "blue"),
     Card("Total Paid", Sum(rows, PaidOf), "green"),
     Card("Total Pending", Sum(rows, PendingOf), "red")]
  }

  /** Rows in which paid and pending split the grand total. */
  predicate Balanced(rows: seq<Row>)
  {
    forall i :: 0 <= i < |rows| ==> rows[i].amountPaid + rows[i].amountPending == Flt(rows[i].grandTotal)
  }

  lemma {:induction false} PendingSum(rows: seq<Row>)
    requires Balanced(rows)
    ensures Sum(rows, PendingOf) == Sum(rows, GrandOf) - Sum(rows, PaidOf)
  {
    if rows != [] {
      PendingSum(rows[..|rows| - 1]);
    }
  }

  /** On the rows the report produces, the pending card is the purchase card
      minus the paid card. */
  lemma SummaryPendingIsDifference(purchases: seq<Purchase>, groups: seq<Group>, rows: seq<Row>)
    requires |rows| == |purchases|
    requires forall i :: 0 <= i < |purchases| ==> rows[i] == RowFor(purchases[i], PaidMap(groups))
    ensures Summary(rows)[2].value == Summary(rows)[0].value - Summary(rows)[1].value
  {
    PendingSum(rows);
  }

  /** A purchase without any payment shows nothing paid, its whole grand
      total pending, and no payment date or mode. */
  lemma UnpaidPurchase(p: Purchase, groups: seq<Group>)
    requires forall k :: 0 <= k < |groups| ==> groups[k].purchase != p.name
    ensures var r := RowFor(p, PaidMap(groups));
      r.amountPaid == 0.0 && r.amountPending == Flt(p.grandTotal)
      && r.lastPaymentDate.None? && r.paymentMode.None?
  {
  }

  /** Pending is not clamped: a purchase paid beyond its grand total shows a
      negative pending amount. */
  lemma OverpaidShowsNegative(p: Purchase, paidMap: map<string, Group>)
    requires p.name in paidMap && Flt(paidMap[p.name].paid) > Flt(p.grandTotal)
    ensures RowFor(p, paidMap).amountPending < 0.0
  {
  }
}
