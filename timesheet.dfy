/** Timesheet totals: `total_hours` is recomputed from the entries on every
    validation. */
module Timesheets {
  import opened Wrappers
  import Sums

  datatype Entry = Entry(hours: real)

  function Hours(e: Entry): real { e.hours }

  /** `sum(d.hours for d in entries or [])`. */
  function TotalHours(entries: Option<seq<Entry>>): (r: real)
    ensures entries.None? || entries.value == [] ==> r == 0.0
  {
    Sums.Sum(entries.GetOr([]), Hours)
  }

  /** Appending entries adds exactly their hours. */
  lemma TotalOfConcat(a: seq<Entry>, b: seq<Entry>)
    ensures TotalHours(Some(a + b)) == TotalHours(Some(a)) + TotalHours(Some(b))
  {
    Sums.SumConcat(a, b, Hours);
  }

  /** Appending one entry raises the total by its hours. */
  lemma TotalOfAppend(a: seq<Entry>, e: Entry)
    ensures TotalHours(Some(a + [e])) == TotalHours(Some(a)) + e.hours
  {
    TotalOfConcat(a, [e]);
    assert [e][..0] == [];
  }

  class Timesheet {
    var entries: Option<seq<Entry>>
    var totalHours: real

    constructor (entries: Option<seq<Entry>>, totalHours: real)
      ensures this.entries == entries && this.totalHours == totalHours
    {
      this.entries := entries;
      this.totalHours := totalHours;
    }

    /** `calculate_total_hours`: the stored total is overwritten, so the
        result does not depend on the old total and a second run changes
        nothing. */
    method CalculateTotalHours()
      modifies this`totalHours
      ensures totalHours == TotalHours(entries)
    {
      totalHours := TotalHours(entries);
    }
  }
}
