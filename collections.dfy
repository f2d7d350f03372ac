/** Payments against Invoices (Invoice Collection) and against Purchases
    (Purchase Collection): the save-time guard against collecting more than
    the grand total, and the hook that stores the collected total and the
    remaining balance on the bill. Both document pairs run the same code,
    so one definition serves both, told apart only in messages. */
module Collections {
  import opened Wrappers
  import opened Sums

  datatype Kind = InvoiceKind | PurchaseKind
  {
    function Label(): string
    {
      match this
      case InvoiceKind => "Invoice"
      case PurchaseKind => "Purchase"
    }
  }

  /** An Invoice Collection or Purchase Collection row: `bill` is the
      `invoice` / `purchase` link, "" when unset. */
  datatype Payment = Payment(name: string, bill: string, amount: real)

  /** The stored Invoice / Purchase fields the hooks read and write:
      `received` is received_amount (Invoice) or paid_amount (Purchase). */
  datatype Bill = Bill(grandTotal: Option<real>, received: real, balance: real)

  /** Bills by name. */
  type Bills = map<string, Bill>

  function Amount(p: Payment): real { p.amount }

  /** `SELECT SUM(amount_collected) ... WHERE <link> = bill`, 0 when no row. */
  function Collected(payments: seq<Payment>, bill: string): real
  {
    SumWhere(payments, (p: Payment) => p.bill == bill, Amount)
  }

  /** The same sum without the row named `name`. */
  function CollectedExcept(payments: seq<Payment>, bill: string, name: string): real
  {
    SumWhere(payments, (p: Payment) => p.bill == bill && p.name != name, Amount)
  }

  /** `balance = grand_total - collected`, raised to 0 when negative. */
  function ClampedBalance(grandTotal: real, collected: real): (b: real)
    ensures b >= 0.0 && b >= grandTotal - collected
    ensures b == 0.0 || b == grandTotal - collected
  {
    if grandTotal - collected < 0.0 then 0.0 else grandTotal - collected
  }

  /** `update_invoice_received_balance` / `update_purchase_paid_balance`:
      after any change to a payment, recompute the bill it points to. A
      payment without a bill, or pointing to no stored bill, changes
      nothing. */
  function UpdateBalance(bills: Bills, payments: seq<Payment>, doc: Payment): (r: Bills)
    ensures r.Keys == bills.Keys
    ensures forall b :: b in bills && b != doc.bill ==> r[b] == bills[b]
    ensures doc.bill == "" ==> r == bills
    ensures doc.bill != "" && doc.bill in bills ==>
      r[doc.bill].grandTotal == bills[doc.bill].grandTotal
      && r[doc.bill].received == Collected(payments, doc.bill)
      && r[doc.bill].balance == ClampedBalance(Flt(bills[doc.bill].grandTotal), Collected(payments, doc.bill))
  {
    if doc.bill == "" || doc.bill !in bills then bills
    else
      var total := Collected(payments, doc.bill);
      var grand := Flt(bills[doc.bill].grandTotal);
      bills[doc.bill := bills[doc.bill].(received := total, balance := ClampedBalance(grand, total))]
  }

  function ExceedsMessage(kind: Kind): string
  {
    "Collection exceeds " + kind.Label() + " Amount."
  }

  /** `validate_invoice_collection` / `validate_purchase_collection`: skipped
      without a bill or when the bill does not exist; otherwise rejected when
      what the other payments collected plus this amount passes the grand
      total. The two validators are the same code apart from the doctypes
      and the message, so one function with a `kind` serves both. */
  function ValidatePayment(kind: Kind, bills: Bills, payments: seq<Payment>, doc: Payment): (r: Outcome)
    ensures r.Fail? <==> (doc.bill != "" && doc.bill in bills
                          && CollectedExcept(payments, doc.bill, doc.name) + doc.amount > Flt(bills[doc.bill].grandTotal))
  {
    if doc.bill == "" || doc.bill !in bills then Pass
    else if CollectedExcept(payments, doc.bill, doc.name) + doc.amount > Flt(bills[doc.bill].grandTotal)
    then Fail(ExceedsMessage(kind))
    else Pass
  }

  /** `validate_purchase_with_collections`: a saved Purchase with any
      payment cannot be edited. */
  function ValidatePurchaseEdit(isNew: bool, payments: seq<Payment>, name: string): (r: Outcome)
    ensures r.Fail? <==> !isNew && exists i :: 0 <= i < |payments| && payments[i].bill == name
  {
    if !isNew && exists i :: 0 <= i < |payments| && payments[i].bill == name
    then Fail("This purchase already has collections. Editing is not allowed.")
    else Pass
  }

  /** Saving `doc`: its old version (same name) is replaced, a new one is
      added. */
  function Save(payments: seq<Payment>, doc: Payment): seq<Payment>
  {
    Without(payments, doc.name) + [doc]
  }

  function Without(payments: seq<Payment>, name: string): (r: seq<Payment>)
    ensures |r| <= |payments|
  {
    if payments == [] then []
    else
      var init := Without(payments[..|payments| - 1], name);
      if payments[|payments| - 1].name == name then init else init + [payments[|payments| - 1]]
  }

  // ------------------------------------------------------------ lemmas

  lemma {:induction false} WithoutCollected(payments: seq<Payment>, bill: string, name: string)
    ensures Collected(Without(payments, name), bill) == CollectedExcept(payments, bill, name)
  {
    if payments != [] {
      var init := payments[..|payments| - 1];
      var last := payments[|payments| - 1];
      WithoutCollected(init, bill, name);
      if last.name != name {
        var w := Without(init, name);
        assert (w + [last])[..|w + [last]| - 1] == w;
      }
    }
  }

  /** What the guard compares is what the bill's collected total becomes
      once the payment is saved. */
  lemma SavedTotal(payments: seq<Payment>, doc: Payment)
    ensures Collected(Save(payments, doc), doc.bill) == CollectedExcept(payments, doc.bill, doc.name) + doc.amount
  {
    WithoutCollected(payments, doc.bill, doc.name);
    var w := Without(payments, doc.name);
    assert (w + [doc])[..|w + [doc]| - 1] == w;
  }

  /** A payment the guard accepts, once saved and followed by the update
      hook, leaves the bill with collected + balance = grand total: along
      payments the guard accepted, the clamp to 0 never fires. */
  lemma AcceptedPaymentBalances(kind: Kind, bills: Bills, payments: seq<Payment>, doc: Payment)
    requires ValidatePayment(kind, bills, payments, doc).Pass?
    requires doc.bill != "" && doc.bill in bills
    ensures var after := UpdateBalance(bills, Save(payments, doc), doc);
      after[doc.bill].received <= Flt(bills[doc.bill].grandTotal)
      && after[doc.bill].received + after[doc.bill].balance == Flt(bills[doc.bill].grandTotal)
  {
    SavedTotal(payments, doc);
  }
}
