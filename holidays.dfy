/** Holiday Lists: the month template offered to the UI (every Sunday and the
    second and fourth Saturday off), the stored lists the other code reads
    (`get_holiday_dates_for_month`, `is_working_day`). */
module Holidays {
  import opened Wrappers
  import opened Calendar
  import Text

  /** A row of the Holidays child table. */
  datatype HolidayRow = HolidayRow(holidayDate: Date, description: string, isWorkingDay: int)

  /** A Holiday List document, one per (year, month_year). */
  datatype HolidayList = HolidayList(name: string, year: int, month: int, holidays: seq<HolidayRow>)

  /** What `populate_holidays_for_ui` returns. */
  datatype MonthTemplate = MonthTemplate(holidays: seq<HolidayRow>, workingDays: int)

  predicate ValidMonth(year: int, month: int)
  {
    year >= 1 && 1 <= month <= 12
  }

  /** Day `k` of the month. */
  function DayOf(year: int, month: int, k: int): Date
    requires ValidMonth(year, month) && 1 <= k <= DaysInMonth(year, month)
  {
    Ymd(year, month, k)
  }

  /** Number of Saturdays among days 1..n of the month. */
  function SaturdaysUpTo(year: int, month: int, n: int): nat
    requires ValidMonth(year, month) && 0 <= n <= DaysInMonth(year, month)
  {
    if n == 0 then 0
    else SaturdaysUpTo(year, month, n - 1) + (if Weekday(DayOf(year, month, n)) == Saturday then 1 else 0)
  }

  /** Day k is a Sunday, or a Saturday that is the month's second or fourth. */
  predicate IsOffDay(year: int, month: int, k: int)
    requires ValidMonth(year, month) && 1 <= k <= DaysInMonth(year, month)
  {
    var w := Weekday(DayOf(year, month, k));
    w == Sunday || (w == Saturday && (SaturdaysUpTo(year, month, k) == 2 || SaturdaysUpTo(year, month, k) == 4))
  }

  function Description(year: int, month: int, k: int): string
    requires ValidMonth(year, month) && 1 <= k <= DaysInMonth(year, month)
  {
    if Weekday(DayOf(year, month, k)) == Sunday then "Sunday"
    else if IsOffDay(year, month, k) then "2nd/4th Saturday"
    else ""
  }

  /** The template row of day k. */
  function TemplateRow(year: int, month: int, k: int): HolidayRow
    requires ValidMonth(year, month) && 1 <= k <= DaysInMonth(year, month)
  {
    HolidayRow(DayOf(year, month, k), Description(year, month, k), if IsOffDay(year, month, k) then 0 else 1)
  }

  /** Rows marked as working days. */
  function CountWorking(rows: seq<HolidayRow>): (n: nat)
    ensures n <= |rows|
  {
    if rows == [] then 0
    else CountWorking(rows[..|rows| - 1]) + (if rows[|rows| - 1].isWorkingDay == 1 then 1 else 0)
  }

  /** `populate_holidays_for_ui`: one row per day of the month, counting
      Saturdays as it goes; an invalid month or year raises. */
  method PopulateHolidays(month: int, year: int) returns (r: Result<MonthTemplate>)
    ensures r.Err? <==> !ValidMonth(year, month)
    ensures r.Ok? ==> (|r.value.holidays| == DaysInMonth(year, month)
      && (forall i :: 0 <= i < |r.value.holidays| ==> r.value.holidays[i] == TemplateRow(year, month, i + 1))
      && r.value.workingDays == CountWorking(r.value.holidays))
  {
    if !ValidMonth(year, month) {
      if !(1 <= month <= 12) {
        return Err("bad month number " + Text.IntToString(month) + "; must be 1-12");
      }
      return Err("year " + Text.IntToString(year) + " is out of range");
    }
    var n := DaysInMonth(year, month);
    var rows: seq<HolidayRow> := [];
    var saturdays := 0;
    var working := 0;
    var day := 1;
    while day <= n
      invariant 1 <= day <= n + 1 && |rows| == day - 1
      invariant saturdays == SaturdaysUpTo(year, month, day - 1)
      invariant working == CountWorking(rows)
      invariant forall i :: 0 <= i < |rows| ==> rows[i] == TemplateRow(year, month, i + 1)
    {
      var d := DayOf(year, month, day);
      var weekday := Weekday(d);
      var holiday := false;
      var description := "";
      if weekday == Sunday {
        holiday := true;
        description := "Sunday";
      } else if weekday == Saturday {
        saturdays := saturdays + 1;
        if saturdays == 2 || saturdays == 4 {
          holiday := true;
          description := "2nd/4th Saturday";
        }
      }
      var isWorking := if holiday then 0 else 1;
      if isWorking == 1 {
        working := working + 1;
      }
      var row := HolidayRow(d, if holiday then description else "", isWorking);
      assert (rows + [row])[..|rows|] == rows;
      rows := rows + [row];
      day := day + 1;
    }
    r := Ok(MonthTemplate(rows, working));
  }

  // ----------------------------------------------------- stored lists

  /** `get_all("Holiday List", filters={"year": y, "month_year": m}, limit=1)`. */
  function ListFor(lists: seq<HolidayList>, year: int, month: int): (r: Option<HolidayList>)
    ensures r.Some? ==> r.value in lists && r.value.year == year && r.value.month == month
    ensures r.None? ==> forall l :: l in lists ==> !(l.year == year && l.month == month)
  {
    if lists == [] then None
    else if lists[0].year == year && lists[0].month == month then Some(lists[0])
    else ListFor(lists[1..], year, month)
  }

  /** The non-working dates of a list, in row order. */
  function OffDates(rows: seq<HolidayRow>): (r: seq<Date>)
    ensures forall d :: d in r <==> exists i :: 0 <= i < |rows| && rows[i].holidayDate == d && rows[i].isWorkingDay == 0
  {
    if rows == [] then []
    else
      var init := rows[..|rows| - 1];
      assert forall i :: 0 <= i < |init| ==> init[i] == rows[i];
      OffDates(init) + (if rows[|rows| - 1].isWorkingDay == 0 then [rows[|rows| - 1].holidayDate] else [])
  }

  /** `get_holiday_dates_for_month`: the non-working dates of the month's
      list, none without a list. */
  function HolidayDatesForMonth(lists: seq<HolidayList>, year: int, month: int): (r: seq<Date>)
    ensures ListFor(lists, year, month).None? ==> r == []
    ensures ListFor(lists, year, month).Some? ==> r == OffDates(ListFor(lists, year, month).value.holidays)
  {
    match ListFor(lists, year, month)
    case None => []
    case Some(l) => OffDates(l.holidays)
  }

  /** `is_working_day`: never on a Sunday; otherwise not when the month's list
      has a non-working row for that date. */
  predicate IsWorkingDay(lists: seq<HolidayList>, d: Date)
  {
    Weekday(d) != Sunday
    && match ListFor(lists, d.year, d.month)
       case None => true
       case Some(l) => !exists i :: 0 <= i < |l.holidays| && l.holidays[i].holidayDate == d && l.holidays[i].isWorkingDay == 0
  }

  // ------------------------------------------------------------ lemmas

  lemma ModSeven(x: int, j: int)
    requires x >= 0 && j >= 0
    ensures (x + j) % 7 == (x % 7 + j) % 7
  {
  }

  /** Day n is a Saturday exactly when the Saturday count's closed form
      steps up at n. */
  lemma SaturdayStep(w1: int, wn: int, n: int, prev: int, cur: int)
    requires 0 <= w1 < 7 && n >= 1 && wn == (w1 + n - 1) % 7
    requires prev == (n + 5 - (Saturday - w1 + 7) % 7) / 7
    requires cur == prev + (if wn == Saturday then 1 else 0)
    ensures cur == (n + 6 - (Saturday - w1 + 7) % 7) / 7
  {
  }

  lemma SaturdayRank(w1: int, k: int)
    requires 0 <= w1 < 7 && k >= 1 && (w1 + k - 1) % 7 == Saturday
    ensures var t := (Saturday - w1 + 7) % 7; (k + 6 - t) / 7 == (k - 1) / 7 + 1
  {
    var t := (Saturday - w1 + 7) % 7;
    var q := (k - 1) / 7;
    assert (k - 1) % 7 == t;
    assert k + 6 - t == 7 * (q + 1);
  }

  lemma WeekdayShift(o: int, k: int)
    requires o >= 1 && k >= 1
    ensures (o + k - 1 + 6) % 7 == ((o + 6) % 7 + k - 1) % 7
  {
    ModSeven(o + 6, k - 1);
  }

  /** Weekdays advance by one each day within a month. */
  lemma WeekdayOfDay(year: int, month: int, k: int)
    requires ValidMonth(year, month) && 1 <= k <= DaysInMonth(year, month)
    ensures Weekday(DayOf(year, month, k)) == (Weekday(DayOf(year, month, 1)) + k - 1) % 7
  {
    var o := Ord(DayOf(year, month, 1));
    assert Ord(DayOf(year, month, k)) == o + k - 1;
    WeekdayShift(o, k);
  }

  /** Closed form of the Saturday count, w1 being the weekday of the 1st:
      with t the offset of the first Saturday, days t+1, t+8, ... are the
      Saturdays. */
  lemma {:induction false} SaturdaysClosedForm(year: int, month: int, n: int, w1: int)
    requires ValidMonth(year, month) && 0 <= n <= DaysInMonth(year, month)
    requires w1 == Weekday(DayOf(year, month, 1))
    ensures SaturdaysUpTo(year, month, n) == (n + 6 - (Saturday - w1 + 7) % 7) / 7
  {
    if n > 0 {
      SaturdaysClosedForm(year, month, n - 1, w1);
      var wn := Weekday(DayOf(year, month, n));
      assert wn == (w1 + n - 1) % 7 by {
        WeekdayOfDay(year, month, n);
      }
      SaturdayStep(w1, wn, n, SaturdaysUpTo(year, month, n - 1), SaturdaysUpTo(year, month, n));
    }
  }

  /** A Saturday on day k is the ((k - 1) / 7 + 1)-th Saturday, so the
      template takes off exactly the Saturdays on days 8-14 and 22-28. */
  lemma OffSaturdays(year: int, month: int, k: int)
    requires ValidMonth(year, month) && 1 <= k <= DaysInMonth(year, month)
    requires Weekday(DayOf(year, month, k)) == Saturday
    ensures SaturdaysUpTo(year, month, k) == (k - 1) / 7 + 1
    ensures IsOffDay(year, month, k) <==> (8 <= k <= 14 || 22 <= k <= 28)
  {
    SaturdaysClosedForm(year, month, k, Weekday(DayOf(year, month, 1)));
    WeekdayOfDay(year, month, k);
    SaturdayRank(Weekday(DayOf(year, month, 1)), k);
  }

  /** The template's working-day count is the number of days minus the off
      days. */
  lemma {:induction false} WorkingDaysCount(year: int, month: int, n: int)
    requires ValidMonth(year, month) && 0 <= n <= DaysInMonth(year, month)
    ensures CountWorking(seq(n, i requires 0 <= i < n => TemplateRow(year, month, i + 1)))
            == n - OffCount(year, month, n)
  {
    if n > 0 {
      var s := seq(n, i requires 0 <= i < n => TemplateRow(year, month, i + 1));
      assert s[..n - 1] == seq(n - 1, i requires 0 <= i < n - 1 => TemplateRow(year, month, i + 1));
      WorkingDaysCount(year, month, n - 1);
    }
  }

  /** Off days among days 1..n. */
  function OffCount(year: int, month: int, n: int): nat
    requires ValidMonth(year, month) && 0 <= n <= DaysInMonth(year, month)
  {
    if n == 0 then 0 else OffCount(year, month, n - 1) + (if IsOffDay(year, month, n) then 1 else 0)
  }

  /** Once the template is stored as the month's list, `is_working_day`
      agrees with the template on every day of the month. */
  lemma StoredTemplateDecides(lists: seq<HolidayList>, year: int, month: int, k: int)
    requires ValidMonth(year, month) && 1 <= k <= DaysInMonth(year, month)
    requires ListFor(lists, year, month).Some?
    requires var rows := ListFor(lists, year, month).value.holidays;
      |rows| == DaysInMonth(year, month)
      && forall i :: 0 <= i < |rows| ==> rows[i] == TemplateRow(year, month, i + 1)
    ensures IsWorkingDay(lists, DayOf(year, month, k)) <==> !IsOffDay(year, month, k)
  {
    var rows := ListFor(lists, year, month).value.holidays;
    var d := DayOf(year, month, k);
    assert rows[k - 1].holidayDate == d;
    forall i | 0 <= i < |rows| && rows[i].holidayDate == d
      ensures i == k - 1
    {
    }
  }
}
