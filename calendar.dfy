/** The host's date library, reduced to what the modelled code uses: proleptic
    Gregorian civil dates, Python's `toordinal` day count (0001-01-01 is day 1),
    `weekday()` (Monday = 0, Sunday = 6), `add_days`, `get_first_day`,
    `get_last_day` and `add_months` (day clamped to the target month). */
module Calendar {
  import opened Wrappers

  datatype Ymd = Ymd(year: int, month: int, day: int)

  predicate IsLeap(y: int)
  {
    y % 4 == 0 && (y % 100 != 0 || y % 400 == 0)
  }

  function DaysInMonth(y: int, m: int): (n: int)
    requires 1 <= m <= 12
    ensures 28 <= n <= 31
  {
    if m == 2 then (if IsLeap(y) then 29 else 28)
    else if m == 4 || m == 6 || m == 9 || m == 11 then 30
    else 31
  }

  predicate ValidYmd(d: Ymd)
  {
    d.year >= 1 && 1 <= d.month <= 12 && 1 <= d.day <= DaysInMonth(d.year, d.month)
  }

  /** A Python `date` (the upper bound of year 9999 is not modelled). */
  type Date = d: Ymd | ValidYmd(d) witness Ymd(1, 1, 1)

  const FirstDate: Date := Ymd(1, 1, 1)

  function YearLength(y: int): int
  {
    if IsLeap(y) then 366 else 365
  }

  function DaysBeforeYear(y: int): nat
    requires y >= 1
    decreases y
  {
    if y == 1 then 0 else DaysBeforeYear(y - 1) + YearLength(y - 1)
  }

  function DaysBeforeMonth(y: int, m: int): nat
    requires 1 <= m <= 12
    decreases m
  {
    if m == 1 then 0 else DaysBeforeMonth(y, m - 1) + DaysInMonth(y, m - 1)
  }

  /** `date.toordinal()`. */
  function Ord(d: Date): (n: int)
    ensures n >= 1
  {
    DaysBeforeYear(d.year) + DaysBeforeMonth(d.year, d.month) + d.day
  }

  /** `date.weekday()`: 0001-01-01 was a Monday. */
  function Weekday(d: Date): (w: int)
    ensures 0 <= w < 7
  {
    (Ord(d) + 6) % 7
  }

  const Saturday := 5
  const Sunday := 6

  lemma YearEnd(y: int)
    ensures DaysBeforeMonth(y, 12) + DaysInMonth(y, 12) == YearLength(y)
  {
    var feb := DaysInMonth(y, 2);
    assert DaysBeforeMonth(y, 2) == 31;
    assert DaysBeforeMonth(y, 3) == 31 + feb;
    assert DaysBeforeMonth(y, 4) == 62 + feb;
    assert DaysBeforeMonth(y, 5) == 92 + feb;
    assert DaysBeforeMonth(y, 6) == 123 + feb;
    assert DaysBeforeMonth(y, 7) == 153 + feb;
    assert DaysBeforeMonth(y, 8) == 184 + feb;
    assert DaysBeforeMonth(y, 9) == 215 + feb;
    assert DaysBeforeMonth(y, 10) == 245 + feb;
    assert DaysBeforeMonth(y, 11) == 276 + feb;
    assert DaysBeforeMonth(y, 12) == 306 + feb;
  }

  /** `add_days(d, 1)`. */
  function NextDay(d: Date): (r: Date)
    ensures Ord(r) == Ord(d) + 1
  {
    if d.day < DaysInMonth(d.year, d.month) then Ymd(d.year, d.month, d.day + 1)
    else if d.month < 12 then Ymd(d.year, d.month + 1, 1)
    else YearEnd(d.year); Ymd(d.year + 1, 1, 1)
  }

  /** `add_days(d, -1)`; Python raises an OverflowError before 0001-01-01. */
  function PrevDay(d: Date): (r: Date)
    requires d != FirstDate
    ensures Ord(r) + 1 == Ord(d)
  {
    if d.day > 1 then Ymd(d.year, d.month, d.day - 1)
    else if d.month > 1 then
      MonthStart(d.year, d.month);
      Ymd(d.year, d.month - 1, DaysInMonth(d.year, d.month - 1))
    else
      YearStart(d.year);
      Ymd(d.year - 1, 12, 31)
  }

  /** The last day of a month is the day before the next month's first. */
  lemma MonthStart(y: int, m: int)
    requires y >= 1 && 2 <= m <= 12
    ensures Ord(Ymd(y, m - 1, DaysInMonth(y, m - 1))) + 1 == Ord(Ymd(y, m, 1))
  {
    assert DaysBeforeMonth(y, m) == DaysBeforeMonth(y, m - 1) + DaysInMonth(y, m - 1);
  }

  /** December 31st is the day before the next year's January 1st. */
  lemma YearStart(y: int)
    requires y >= 2
    ensures Ord(Ymd(y - 1, 12, 31)) + 1 == Ord(Ymd(y, 1, 1))
  {
    var last := Ymd(y - 1, 12, 31);
    YearEnd(y - 1);
    assert DaysBeforeYear(y) == DaysBeforeYear(y - 1) + YearLength(y - 1);
    assert Ord(last) == DaysBeforeYear(y - 1) + DaysBeforeMonth(y - 1, 12) + DaysInMonth(y - 1, 12);
  }

  /** `get_first_day(d)` and `get_last_day(d)`. */
  function FirstDayOf(d: Date): Date { Ymd(d.year, d.month, 1) }

  function LastDayOf(d: Date): Date { Ymd(d.year, d.month, DaysInMonth(d.year, d.month)) }

  /** `add_days(get_last_day(d), 1)`: the first day of the following month. */
  function NextMonthStart(d: Date): Date
  {
    if d.month < 12 then Ymd(d.year, d.month + 1, 1) else Ymd(d.year + 1, 1, 1)
  }

  /** The first day of the following month is the day after the month's last
      day, and so it is later than every day of the month. */
  lemma NextMonthStartFollows(d: Date)
    ensures NextMonthStart(d) == NextDay(LastDayOf(d)) && NextMonthStart(d).day == 1
    ensures Ord(NextMonthStart(d)) > Ord(d)
  {
  }

  /** `add_months(d, n)` (dateutil's relativedelta): month arithmetic, the day
      clamped to the length of the target month; None where Python raises
      because the year would drop below 1. */
  function AddMonths(d: Date, n: int): (r: Option<Date>)
    ensures r.Some? ==> r.value.year * 12 + r.value.month == d.year * 12 + d.month + n
    ensures r.Some? ==> r.value.day == if d.day <= DaysInMonth(r.value.year, r.value.month)
                                        then d.day else DaysInMonth(r.value.year, r.value.month)
    ensures n >= 0 ==> r.Some?
  {
    var total := d.year * 12 + (d.month - 1) + n;
    var y := total / 12;
    var m := total % 12 + 1;
    if y < 1 then None
    else
      var dim := DaysInMonth(y, m);
      Some(Ymd(y, m, if d.day <= dim then d.day else dim))
  }

  // ------------------------------------------------- ordinal order lemmas

  lemma {:induction false} MonthBound(y: int, m1: int, m2: int)
    requires 1 <= m1 < m2 <= 12
    ensures DaysBeforeMonth(y, m1) + DaysInMonth(y, m1) <= DaysBeforeMonth(y, m2)
  {
    if m1 + 1 < m2 {
      MonthBound(y, m1, m2 - 1);
    }
  }

  lemma {:induction false} YearBound(y1: int, y2: int)
    requires 1 <= y1 < y2
    ensures DaysBeforeYear(y1) + YearLength(y1) <= DaysBeforeYear(y2)
  {
    if y1 + 1 < y2 {
      YearBound(y1, y2 - 1);
    }
  }

  lemma DayWithinYear(d: Date)
    ensures DaysBeforeMonth(d.year, d.month) + d.day <= YearLength(d.year)
  {
    YearEnd(d.year);
    if d.month < 12 {
      MonthBound(d.year, d.month, 12);
    }
  }

  /** Chronological order of civil dates is the order of their ordinals. */
  lemma OrdFollowsCalendar(a: Date, b: Date)
    requires a.year < b.year
          || (a.year == b.year && a.month < b.month)
          || (a.year == b.year && a.month == b.month && a.day < b.day)
    ensures Ord(a) < Ord(b)
  {
    if a.year < b.year {
      DayWithinYear(a);
      YearBound(a.year, b.year);
    } else if a.month < b.month {
      MonthBound(a.year, a.month, b.month);
    }
  }

  /** Distinct dates have distinct ordinals. */
  lemma OrdInjective(a: Date, b: Date)
    requires Ord(a) == Ord(b)
    ensures a == b
  {
    if a.year < b.year || (a.year == b.year && a.month < b.month)
       || (a.year == b.year && a.month == b.month && a.day < b.day) {
      OrdFollowsCalendar(a, b);
    } else if a != b {
      OrdFollowsCalendar(b, a);
    }
  }
}
