/** Dates of the proleptic Gregorian calendar and their day numbers.

    The scripts hand every date to pandas (`pd.to_datetime`, `.dt.weekday`,
    `.dt.isocalendar()`). The model computes the same results with the
    algorithm of CPython's `datetime` module, which numbers days from
    0001-01-01 as day 1, using integer arithmetic only.
 */
module Calendar {

  /** A calendar day, as the `date` column holds it after `pd.to_datetime`. */
  datatype Date = Date(year: int, month: int, day: int)

  predicate IsLeapYear(y: int) {
    y % 4 == 0 && (y % 100 != 0 || y % 400 == 0)
  }

  function YearLength(y: int): int {
    if IsLeapYear(y) then 366 else 365
  }

  function DaysInMonth(y: int, m: int): (n: int)
    requires 1 <= m <= 12
    ensures 28 <= n <= 31
  {
    if m == 2 then (if IsLeapYear(y) then 29 else 28)
    else if m == 4 || m == 6 || m == 9 || m == 11 then 30
    else 31
  }

  predicate ValidDate(d: Date) {
    1 <= d.month <= 12 && 1 <= d.day <= DaysInMonth(d.year, d.month)
  }

  /** Days in all years before `y` (CPython's `_days_before_year`). */
  function DaysBeforeYear(y: int): int {
    var p := y - 1;
    365 * p + p / 4 - p / 100 + p / 400
  }

  /** Days in the months of year `y` before month `m` (CPython's
      `_days_before_month`: a fixed table plus the leap day after February). */
  function DaysBeforeMonth(y: int, m: int): int
    requires 1 <= m <= 12
  {
    var table := [0, 31, 59, 90, 120, 151, 181, 212, 243, 273, 304, 334];
    table[m - 1] + (if m > 2 && IsLeapYear(y) then 1 else 0)
  }

  /** The successor of `x` moves to the next quotient under floor division
      by 4, 100 and 400 exactly when it is a multiple of the divisor. */
  lemma DivSuccessor(x: int)
    ensures (x + 1) / 4 == x / 4 + (if (x + 1) % 4 == 0 then 1 else 0)
    ensures (x + 1) / 100 == x / 100 + (if (x + 1) % 100 == 0 then 1 else 0)
    ensures (x + 1) / 400 == x / 400 + (if (x + 1) % 400 == 0 then 1 else 0)
  {
  }

  /** Consecutive year starts are one year length apart. */
  lemma YearStep(y: int)
    ensures DaysBeforeYear(y + 1) == DaysBeforeYear(y) + YearLength(y)
  {
    var p := y - 1;
    DivSuccessor(p);
    assert p + 1 == y;
    assert DaysBeforeYear(y) == 365 * p + p / 4 - p / 100 + p / 400;
    assert DaysBeforeYear(y + 1) == 365 * y + y / 4 - y / 100 + y / 400;
    assert y / 4 == p / 4 + (if y % 4 == 0 then 1 else 0);
    assert y / 100 == p / 100 + (if y % 100 == 0 then 1 else 0);
    assert y / 400 == p / 400 + (if y % 400 == 0 then 1 else 0);
    assert y % 400 == 0 ==> y % 100 == 0 && y % 4 == 0;
    assert y % 100 == 0 ==> y % 4 == 0;
  }

  /** The month table adds up: each month starts where the previous one
      ends, and December ends where the year does. */
  lemma MonthStep(y: int, m: int)
    requires 1 <= m <= 12
    ensures m < 12 ==> DaysBeforeMonth(y, m + 1) == DaysBeforeMonth(y, m) + DaysInMonth(y, m)
    ensures m == 12 ==> DaysBeforeMonth(y, m) + DaysInMonth(y, m) == YearLength(y)
  {
  }

  /** Every day before month `m` lies in the year and leaves room for the
      month itself. */
  lemma MonthWithinYear(y: int, m: int)
    requires 1 <= m <= 12
    ensures 0 <= DaysBeforeMonth(y, m)
    ensures DaysBeforeMonth(y, m) + DaysInMonth(y, m) <= YearLength(y)
  {
  }

  /** CPython's `_ymd2ord`: the day number of a date, 0001-01-01 being day 1.
      A valid date of year `y` falls after the last day of year `y - 1` and
      no later than the last day of `y`. */
  function Ordinal(d: Date): (n: int)
    requires ValidDate(d)
    ensures DaysBeforeYear(d.year) < n <= DaysBeforeYear(d.year + 1)
  {
    YearStep(d.year);
    MonthWithinYear(d.year, d.month);
    DaysBeforeYear(d.year) + DaysBeforeMonth(d.year, d.month) + d.day
  }

  /** The calendar day after `d`. */
  function NextDay(d: Date): (e: Date)
    requires ValidDate(d)
    ensures ValidDate(e)
  {
    if d.day < DaysInMonth(d.year, d.month) then Date(d.year, d.month, d.day + 1)
    else if d.month < 12 then Date(d.year, d.month + 1, 1)
    else Date(d.year + 1, 1, 1)
  }

  /** The day numbers have no gap and no repeat: the next calendar day has
      the next number, across month and year ends. */
  lemma NextDayOrdinal(d: Date)
    requires ValidDate(d)
    ensures Ordinal(NextDay(d)) == Ordinal(d) + 1
  {
    MonthStep(d.year, d.month);
    if d.day == DaysInMonth(d.year, d.month) && d.month == 12 {
      YearStep(d.year);
    }
  }

  /** Distinct dates have distinct day numbers: the number decides the year
      (years occupy disjoint runs of numbers), then the month, then the day. */
  lemma OrdinalInjective(a: Date, b: Date)
    requires ValidDate(a) && ValidDate(b)
    ensures Ordinal(a) == Ordinal(b) ==> a == b
  {
    if Ordinal(a) == Ordinal(b) {
      if a.year < b.year {
        YearStartMonotone(a.year + 1, b.year);
        assert false;
      } else if b.year < a.year {
        YearStartMonotone(b.year + 1, a.year);
        assert false;
      }
      if a.month < b.month {
        MonthStartMonotone(a.year, a.month, b.month);
        assert false;
      } else if b.month < a.month {
        MonthStartMonotone(a.year, b.month, a.month);
        assert false;
      }
    }
  }

  /** Later years start later. */
  lemma YearStartMonotone(x: int, y: int)
    requires x <= y
    ensures DaysBeforeYear(x) <= DaysBeforeYear(y)
  {
  }

  /** A month ends no later than any later month starts. */
  lemma MonthStartMonotone(y: int, m: int, n: int)
    requires 1 <= m < n <= 12
    ensures DaysBeforeMonth(y, m) + DaysInMonth(y, m) <= DaysBeforeMonth(y, n)
  {
  }

  /** pandas' `.dt.weekday`: Monday is 0 and Sunday is 6. Day 1
      (0001-01-01) was a Monday. */
  function Weekday(d: Date): (w: int)
    requires ValidDate(d)
    ensures 0 <= w <= 6
  {
    (Ordinal(d) + 6) % 7
  }

  /** Weekdays follow one another day by day, Sunday wrapping to Monday. */
  lemma WeekdayOfNextDay(d: Date)
    requires ValidDate(d)
    ensures Weekday(NextDay(d)) == (Weekday(d) + 1) % 7
  {
    NextDayOrdinal(d);
    ModSuccessor(Ordinal(d) + 6);
  }

  lemma ModSuccessor(a: int)
    ensures (a + 1) % 7 == (a % 7 + 1) % 7
  {
  }
}
