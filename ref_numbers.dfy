/** Document reference numbers `<SERIES>/<YY-YY>/<NNN>` for Estimations,
    Invoices and Expenses: the financial year runs April to March, and the
    counter continues from the latest reference of the same series and year. */
module RefNumbers {
  import opened Wrappers
  import opened Text
  import opened Calendar

  const EstimationSeries := "IB-E"
  const InvoiceSeries := "IB-I"
  const ExpenseSeries := "EXP"

  /** (start year, end year) of the financial year containing `today`. */
  function FiscalYear(today: Date): (fy: (nat, nat))
    ensures fy.1 == fy.0 + 1
    ensures fy.0 == today.year || fy.1 == today.year
  {
    if today.month < 4 then (today.year - 1, today.year) else (today.year, today.year + 1)
  }

  /** `str(y)[-2:]`. */
  function TwoDigitYear(y: nat): (s: string)
    ensures 1 <= |s| <= 2 && AllDigits(s)
  {
    var t := NatToString(y);
    if |t| <= 2 then t else t[|t| - 2..]
  }

  /** The `YY-YY` label, e.g. "25-26". */
  function FyLabel(today: Date): string
  {
    var fy := FiscalYear(today);
    TwoDigitYear(fy.0) + "-" + TwoDigitYear(fy.1)
  }

  function SeriesPrefix(series: string, today: Date): string
  {
    series + "/" + FyLabel(today) + "/"
  }

  predicate HasPrefix(s: string, p: string)
  {
    |p| <= |s| && s[..|p|] == p
  }

  /** `... WHERE ref LIKE '<prefix>%' ORDER BY creation DESC LIMIT 1` over the
      references in creation order. */
  function LatestWithPrefix(refs: seq<string>, prefix: string): (r: Option<string>)
    ensures r.Some? ==> r.value in refs && HasPrefix(r.value, prefix)
    ensures r.None? ==> forall x :: x in refs ==> !HasPrefix(x, prefix)
    ensures r.Some? ==> exists i :: 0 <= i < |refs| && refs[i] == r.value
                                   && forall j :: i < j < |refs| ==> !HasPrefix(refs[j], prefix)
  {
    if refs == [] then None
    else if HasPrefix(refs[|refs| - 1], prefix) then Some(refs[|refs| - 1])
    else
      var init := refs[..|refs| - 1];
      assert forall j :: 0 <= j < |init| ==> init[j] == refs[j];
      LatestWithPrefix(init, prefix)
  }

  /** `int(last.split("/")[-1]) + 1`, or 1 when the year has no reference yet;
      an unparsable last segment raises. */
  function NextNumber(refs: seq<string>, prefix: string): (r: Result<int>)
    ensures LatestWithPrefix(refs, prefix).None? ==> r == Ok(1)
    ensures LatestWithPrefix(refs, prefix).Some? ==>
      match ParseInt(LastSegment(LatestWithPrefix(refs, prefix).value, '/'))
      case Some(n) => r == Ok(n + 1)
      case None => r.Err?
  {
    match LatestWithPrefix(refs, prefix)
    case None => Ok(1)
    case Some(last) =>
      match ParseInt(LastSegment(last, '/'))
      case Some(n) => Ok(n + 1)
      case None => Err("invalid literal for int()")
  }

  /** `get_next_{estimation,invoice,expense}_preview`. */
  function NextPreview(series: string, today: Date, refs: seq<string>): (r: Result<string>)
    ensures r.Ok? <==> NextNumber(refs, SeriesPrefix(series, today)).Ok?
    ensures r.Ok? ==> HasPrefix(r.value, SeriesPrefix(series, today))
  {
    var prefix := SeriesPrefix(series, today);
    match NextNumber(refs, prefix)
    case Ok(n) => Ok(prefix + ZFill(IntToString(n), 3))
    case Err(e) => Err(e)
  }

  function EstimationPreview(today: Date, refs: seq<string>): (r: Result<string>)
    ensures r.Ok? ==> HasPrefix(r.value, "IB-E/")
  {
    var r := NextPreview(EstimationSeries, today, refs);
    assert r.Ok? ==> r.value[..5] == SeriesPrefix(EstimationSeries, today)[..5];
    r
  }

  function InvoicePreview(today: Date, refs: seq<string>): (r: Result<string>)
    ensures r.Ok? ==> HasPrefix(r.value, "IB-I/")
  {
    var r := NextPreview(InvoiceSeries, today, refs);
    assert r.Ok? ==> r.value[..5] == SeriesPrefix(InvoiceSeries, today)[..5];
    r
  }

  function ExpensePreview(today: Date, refs: seq<string>): (r: Result<string>)
    ensures r.Ok? ==> HasPrefix(r.value, "EXP/")
  {
    var r := NextPreview(ExpenseSeries, today, refs);
    assert r.Ok? ==> r.value[..4] == SeriesPrefix(ExpenseSeries, today)[..4];
    r
  }

  /** `before_insert_estimation` / `before_insert_invoice`: a reference already
      typed in is kept, an empty one is replaced by the preview. */
  function BeforeInsertRef(current: string, preview: Result<string>): (r: Result<string>)
    ensures current != "" ==> r == Ok(current)
    ensures current == "" ==> r == preview
  {
    if current != "" then Ok(current) else preview
  }

  /** `before_insert_expense`: the generated number also becomes the document name. */
  function BeforeInsertExpense(expenseNo: string, name: string, preview: Result<string>): (r: Result<(string, string)>)
    ensures expenseNo != "" ==> r == Ok((expenseNo, name))
    ensures expenseNo == "" && preview.Ok? ==> r.Ok? && r.value.0 == r.value.1 == preview.value
    ensures expenseNo == "" && preview.Err? ==> r.Err?
  {
    if expenseNo != "" then Ok((expenseNo, name))
    else match preview
      case Ok(p) => Ok((p, p))
      case Err(e) => Err(e)
  }

  // ---------------------------------------------------------------- lemmas

  /** The financial year really contains `today`: 1 April of its start year up
      to 31 March of its end year. */
  lemma FiscalYearContainsToday(today: Date)
    requires today.year > 1 || today.month >= 4
    ensures var fy := FiscalYear(today);
      fy.0 >= 1 && Ord(Ymd(fy.0, 4, 1)) <= Ord(today) <= Ord(Ymd(fy.1, 3, 31))
  {
    var fy := FiscalYear(today);
    var start: Date := Ymd(fy.0, 4, 1);
    var end: Date := Ymd(fy.1, 3, 31);
    if start != today { OrdFollowsCalendar(start, today); }
    if today != end { OrdFollowsCalendar(today, end); }
  }

  /** Parsing the last `/`-segment of a generated reference gives back the
      number it was generated from, printed with at least three digits; and a
      reference inserted with it makes the next preview continue at n + 1. */
  lemma PreviewRoundTrip(series: string, today: Date, refs: seq<string>)
    requires NextPreview(series, today, refs).Ok?
    ensures var prefix := SeriesPrefix(series, today);
      var n := NextNumber(refs, prefix).value;
      var ref := NextPreview(series, today, refs).value;
      && ParseInt(LastSegment(ref, '/')) == Some(n)
      && |LastSegment(ref, '/')| >= 3
      && NextNumber(refs + [ref], prefix) == Ok(n + 1)
  {
    var prefix := SeriesPrefix(series, today);
    var n := NextNumber(refs, prefix).value;
    var tail := ZFill(IntToString(n), 3);
    var ref := prefix + tail;
    assert ref == (series + "/" + FyLabel(today)) + ['/'] + tail;
    NoSlashInZFilled(n);
    LastSegmentOfSuffix(series + "/" + FyLabel(today), tail, '/');
    ParseZFilledInt(n, 3);
    assert (refs + [ref])[..|refs|] == refs;
    assert HasPrefix(ref, prefix);
  }

  lemma NoSlashInZFilled(n: int)
    ensures '/' !in ZFill(IntToString(n), 3)
  {
    var s := IntToString(n);
    var digits := if n < 0 then NatToString(-n) else NatToString(n);
    assert n < 0 ==> s == "-" + digits;
    assert forall i :: 0 <= i < |s| ==> s[i] == '-' || IsDigit(s[i]);
    var z := ZFill(s, 3);
    assert forall i :: 0 <= i < |z| ==> z[i] == '-' || IsDigit(z[i]);
  }
}
