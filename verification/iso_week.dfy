/** The ISO 8601 week date (ISO 8601:2004 section 4.1.4) that
    `.dt.isocalendar()` attaches to each commit date.

    Weeks run Monday to Sunday. Week 1 of ISO year `Y` is the week that
    holds the first Thursday of calendar year `Y`, so the first days of
    January can belong to the last week of the previous ISO year and the
    last days of December to week 1 of the next.
 */
module IsoWeek {
  import opened Calendar

  /** The bucket coordinates of one commit: ISO year, ISO week and weekday
      (0 = Monday ... 6 = Sunday, as `.dt.weekday` gives it). */
  datatype WeekDate = WeekDate(year: int, week: int, weekday: int)

  /** Every Monday has a day number of the form `7 * q + 1`. */
  predicate IsMonday(n: int) {
    (n + 6) % 7 == 0
  }

  /** The day number of the Monday that starts ISO week 1 of year `y`
      (CPython's `_isoweek1monday`): the Monday of the week holding the
      first Thursday of `y`. */
  function Week1Monday(y: int): (n: int)
    ensures IsMonday(n)
    ensures DaysBeforeYear(y) < n + 3 <= DaysBeforeYear(y) + 7
  {
    MondayNear(DaysBeforeYear(y) + 1)
  }

  /** The Monday of the week whose Thursday is the first Thursday on or
      after day `firstDay`. */
  function MondayNear(firstDay: int): (n: int)
    ensures IsMonday(n)
    ensures firstDay <= n + 3 < firstDay + 7
  {
    var firstWeekday := (firstDay + 6) % 7;
    var monday := firstDay - firstWeekday;
    assert firstDay + 6 == 7 * ((firstDay + 6) / 7) + firstWeekday;
    assert monday + 6 == 7 * ((firstDay + 6) / 7);
    assert (monday + 7 + 6) == 7 * ((firstDay + 6) / 7 + 1);
    if firstWeekday > 3 then monday + 7 else monday
  }

  /** A Monday's day number, written as a multiple of seven. */
  lemma MondayForm(n: int)
    requires IsMonday(n)
    ensures n == 7 * ((n + 6) / 7) - 6
  {
  }

  /** Number of ISO weeks in ISO year `y`: 52 or 53. */
  function WeeksInYear(y: int): (w: int)
    ensures 52 <= w <= 53
    ensures Week1Monday(y + 1) == Week1Monday(y) + 7 * w
  {
    var a := Week1Monday(y);
    var b := Week1Monday(y + 1);
    YearStep(y);
    MondayForm(a);
    MondayForm(b);
    var k := (b + 6) / 7 - (a + 6) / 7;
    assert b - a == 7 * k;
    k
  }

  /** Day number `n` lies in ISO year `y`: from its week 1 Monday up to the
      day before the next year's. */
  predicate InIsoYear(n: int, y: int) {
    Week1Monday(y) <= n < Week1Monday(y + 1)
  }

  /** The week date of a day number inside ISO year `y`. */
  function WeekDateIn(n: int, y: int): (r: WeekDate)
    requires InIsoYear(n, y)
    ensures r.year == y
    ensures 1 <= r.week <= WeeksInYear(y)
    ensures 0 <= r.weekday <= 6
    ensures n == Week1Monday(y) + 7 * (r.week - 1) + r.weekday
  {
    var offset := n - Week1Monday(y);
    var w := WeeksInYear(y);
    assert offset == 7 * (offset / 7) + offset % 7;
    WeekDate(y, offset / 7 + 1, offset % 7)
  }

  /** What pandas' `.dt.isocalendar()` gives for a date, computed here with
      CPython's algorithm and the weekday counted from 0: the ISO year, ISO
      week and weekday of a calendar date. */
  function IsoCalendar(d: Date): (r: WeekDate)
    requires ValidDate(d)
    ensures d.year - 1 <= r.year <= d.year + 1
    ensures InIsoYear(Ordinal(d), r.year)
    ensures 1 <= r.week <= WeeksInYear(r.year) <= 53
    ensures r.weekday == Weekday(d)
    ensures FromWeekDate(r) == Ordinal(d)
  {
    IsoWeekDateOf(Ordinal(d), d.year)
  }

  /** CPython's `date.isocalendar` algorithm, which this model uses for
      pandas' `.dt.isocalendar()`, on the day number `today` of calendar year
      `y`: guess ISO year `y`, step back a year when the day precedes week 1
      of `y`, step forward when it reaches week 1 of `y + 1`. */
  function IsoWeekDateOf(today: int, y: int): (r: WeekDate)
    requires DaysBeforeYear(y) < today <= DaysBeforeYear(y + 1)
    ensures y - 1 <= r.year <= y + 1
    ensures InIsoYear(today, r.year)
    ensures 1 <= r.week <= WeeksInYear(r.year) <= 53
    ensures r.weekday == (today + 6) % 7
    ensures FromWeekDate(r) == today
  {
    var offset := today - Week1Monday(y);
    ChooseIsoYear(today, y);
    var r :=
      if offset < 0 then WeekDateIn(today, y - 1)
      else if offset / 7 >= 52 && today >= Week1Monday(y + 1) then WeekDateIn(today, y + 1)
      else WeekDateIn(today, y);
    WeekdayFromOffset(today, r);
    r
  }

  /** The three branches of `IsoCalendar` each pick the ISO year that holds
      the day: a day of calendar year `y` before week 1 of `y` is in the last
      week of `y - 1`, one on or after week 1 of `y + 1` is in `y + 1`, and
      every other day is in `y`. */
  lemma ChooseIsoYear(today: int, y: int)
    requires DaysBeforeYear(y) < today <= DaysBeforeYear(y + 1)
    ensures var offset := today - Week1Monday(y);
            && (offset < 0 ==> InIsoYear(today, y - 1))
            && (offset >= 0 && offset / 7 >= 52 && today >= Week1Monday(y + 1) ==> InIsoYear(today, y + 1))
            && (offset >= 0 && !(offset / 7 >= 52 && today >= Week1Monday(y + 1)) ==> InIsoYear(today, y))
  {
    YearStep(y - 1);
    YearStep(y);
    YearStep(y + 1);
    var _ := WeeksInYear(y);
    var offset := today - Week1Monday(y);
    if offset >= 0 && offset / 7 < 52 {
      assert offset < 364;
    }
  }

  /** The weekday of a day number is its distance from any Monday, modulo 7. */
  lemma WeekdayFromOffset(today: int, r: WeekDate)
    requires 0 <= r.weekday <= 6
    requires today == Week1Monday(r.year) + 7 * (r.week - 1) + r.weekday
    ensures (today + 6) % 7 == r.weekday
  {
    var m := Week1Monday(r.year);
    MondayForm(m);
    var q := (m + 6) / 7;
    assert today + 6 == 7 * (q + r.week - 1) + r.weekday;
    ModOfMultiple(q + r.week - 1, r.weekday);
  }

  lemma ModOfMultiple(x: int, r: int)
    requires 0 <= r < 7
    ensures (7 * x + r) % 7 == r
  {
  }

  /** The inverse direction (`date.fromisocalendar`, as a day number): the
      day `weekday` days after the Monday of week `week` of ISO year `year`. */
  function FromWeekDate(w: WeekDate): int {
    Week1Monday(w.year) + 7 * (w.week - 1) + w.weekday
  }

  /** ISO 8601 stated directly: a date belongs to the ISO year in which the
      Thursday of its week falls, and its week number counts the Thursdays
      of that year up to and including that one. The algorithm above meets
      this definition. */
  lemma IsoCalendarIsThursdayRule(d: Date)
    requires ValidDate(d)
    ensures var r := IsoCalendar(d);
            var thursday := Ordinal(d) - r.weekday + 3;
            && DaysBeforeYear(r.year) < thursday <= DaysBeforeYear(r.year + 1)
            && r.week == (thursday - DaysBeforeYear(r.year) - 1) / 7 + 1
  {
  }

  /** Two dates share a week date only when they are the same date, so a
      bucket of the weekly grid is exactly one calendar day. */
  lemma IsoCalendarInjective(a: Date, b: Date)
    requires ValidDate(a) && ValidDate(b)
    ensures IsoCalendar(a) == IsoCalendar(b) ==> a == b
  {
    OrdinalInjective(a, b);
  }

  /** The documented year-boundary case: Monday 2024-12-30 is day 0 of
      week 1 of ISO year 2025, and so is Thursday 2025-01-02 (day 3). */
  lemma YearBoundaryExample()
    ensures IsoCalendar(Date(2024, 12, 30)) == WeekDate(2025, 1, 0)
    ensures IsoCalendar(Date(2025, 1, 2)) == WeekDate(2025, 1, 3)
  {
    assert DaysBeforeYear(2024) == 738885;
    assert DaysBeforeYear(2025) == 739251;
    assert DaysBeforeYear(2026) == 739616;
    assert Week1Monday(2024) == 738886;
    assert Week1Monday(2025) == 739250;
    assert Week1Monday(2026) == 739614;
    assert Ordinal(Date(2024, 12, 30)) == 739250;
    assert Ordinal(Date(2025, 1, 2)) == 739253;
    assert WeekDateIn(739250, 2025) == WeekDate(2025, 1, 0);
    assert WeekDateIn(739253, 2025) == WeekDate(2025, 1, 3);
    assert IsoWeekDateOf(739250, 2024) == WeekDate(2025, 1, 0);
    assert IsoWeekDateOf(739253, 2025) == WeekDate(2025, 1, 3);
  }

  /** Thursday 2020-12-31 is in week 53 of ISO year 2020, Monday 2021-01-04
      starts week 1 of 2021, and ISO year 2021 has only 52 weeks. */
  lemma Week53Example()
    ensures IsoCalendar(Date(2020, 12, 31)) == WeekDate(2020, 53, 3)
    ensures IsoCalendar(Date(2021, 1, 4)) == WeekDate(2021, 1, 0)
    ensures WeeksInYear(2021) == 52
  {
    assert DaysBeforeYear(2020) == 737424;
    assert DaysBeforeYear(2021) == 737790;
    assert DaysBeforeYear(2022) == 738155;
    assert Week1Monday(2020) == 737423;
    assert Week1Monday(2021) == 737794;
    assert Week1Monday(2022) == 738158;
    assert Ordinal(Date(2020, 12, 31)) == 737790;
    assert Ordinal(Date(2021, 1, 4)) == 737794;
    assert WeekDateIn(737790, 2020) == WeekDate(2020, 53, 3);
    assert WeekDateIn(737794, 2021) == WeekDate(2021, 1, 0);
    assert IsoWeekDateOf(737790, 2020) == WeekDate(2020, 53, 3);
    assert IsoWeekDateOf(737794, 2021) == WeekDate(2021, 1, 0);
  }
}
